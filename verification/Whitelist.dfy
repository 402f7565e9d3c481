/** The whitelist reader: fgets chunks of the whitelist compared with a 40-character hash. */
module Whitelist {
  import opened CString
  import opened Stdio

  const SHA_LENGTH := 41
  const COMPLENGTH := 40

  /** 40 characters, none of them NUL or a newline. */
  predicate IsDigest(hash: seq<Byte>) {
    |hash| == COMPLENGTH && NUL !in hash && NEWLINE !in hash
  }

  /** The chunks a file yields to repeated fgets calls with a buffer of SHA_LENGTH + 1 bytes. */
  function Chunks(s: seq<Byte>): seq<seq<Byte>> {
    if s == [] then [] else [s[..ChunkLength(s, SHA_LENGTH)]] + Chunks(s[ChunkLength(s, SHA_LENGTH)..])
  }

  /** The hash stands at a multiple of 41 characters from the start of the line. */
  ghost predicate LineLists(line: seq<Byte>, hash: seq<Byte>) {
    exists k: nat :: ListsAt(line, hash, k)
  }

  predicate ListsAt(line: seq<Byte>, hash: seq<Byte>, k: nat) {
    SHA_LENGTH * k <= |line| && hash <= line[SHA_LENGTH * k..]
  }

  ghost predicate Listed(s: seq<Byte>, hash: seq<Byte>) {
    exists l :: l in Lines(s) && LineLists(l, hash)
  }

  /** Reading in chunks loses nothing. */
  lemma {:induction false} ChunksCoverStream(s: seq<Byte>)
    ensures Flatten(Chunks(s)) == s
    decreases |s|
  {
    if s != [] {
      var n := ChunkLength(s, SHA_LENGTH);
      var head, rest := s[..n], s[n..];
      assert s == head + rest;
      ChunksCoverStream(rest);
      FlattenCons(head, Chunks(rest));
    }
  }

  /** No chunk is empty, longer than the buffer, or reaches past a newline. */
  lemma {:induction false} ChunksAreWithinLines(s: seq<Byte>, c: seq<Byte>)
    requires c in Chunks(s)
    ensures 0 < |c| <= SHA_LENGTH && NEWLINE !in c[..|c| - 1]
    decreases |s|
  {
    var n := ChunkLength(s, SHA_LENGTH);
    if c == s[..n] {
      assert Span(s, {NEWLINE}) >= n - 1;
    } else {
      assert Chunks(s)[1..] == Chunks(s[n..]);
      ChunksAreWithinLines(s[n..], c);
    }
  }

  /** The chunk and the key are the same as far as 40 characters of them go. */
  predicate Agrees(chunk: seq<Byte>, key: seq<Byte>) {
    Cut(chunk, COMPLENGTH) == Cut(key, COMPLENGTH)
  }

  ghost predicate SomeChunkAgrees(s: seq<Byte>, key: seq<Byte>) {
    exists c :: c in Chunks(s) && Agrees(c, key)
  }

  /** For a digest this is the prefix test, whatever bytes the chunk holds. */
  lemma DigestAgrees(chunk: seq<Byte>, digest: seq<Byte>)
    requires IsDigest(digest)
    ensures Agrees(chunk, digest) <==> digest <= chunk
  {
    SpanUnique(digest, {NUL}, COMPLENGTH);
    assert Cut(digest, COMPLENGTH) == digest;
    if digest <= chunk {
      assert forall k :: 0 <= k < COMPLENGTH ==> chunk[k] == digest[k] && digest[k] in digest;
      assert StrLen(chunk) >= COMPLENGTH;
    }
  }

  lemma ChunkStep(s: seq<Byte>, key: seq<Byte>)
    requires s != []
    ensures
      var n := ChunkLength(s, SHA_LENGTH);
      SomeChunkAgrees(s, key) <==> Agrees(s[..n], key) || SomeChunkAgrees(s[n..], key)
  {
    var n := ChunkLength(s, SHA_LENGTH);
    var head, others := s[..n], Chunks(s[n..]);
    assert Chunks(s) == [head] + others;
    if Agrees(head, key) { assert head in Chunks(s); }
    if SomeChunkAgrees(s[n..], key) {
      var c :| c in others && Agrees(c, key);
      assert c in Chunks(s);
    }
  }

  lemma LineStep(s: seq<Byte>, hash: seq<Byte>)
    requires s != []
    ensures
      var m := LineLength(s);
      Listed(s, hash) <==> LineLists(s[..m], hash) || Listed(s[m..], hash)
  {
    var m := LineLength(s);
    var line, others := s[..m], Lines(s[m..]);
    assert Lines(s) == [line] + others;
    assert forall l :: l in Lines(s) <==> l == line || l in others;
  }

  /** The search over chunks succeeds exactly when some line holds the hash at a multiple of 41. */
  lemma {:induction false} ChunkSearchMeaning(s: seq<Byte>, hash: seq<Byte>)
    requires IsDigest(hash)
    ensures SomeChunkAgrees(s, hash) <==> Listed(s, hash)
    decreases |s|
  {
    if s != [] {
      var n, m := ChunkLength(s, SHA_LENGTH), LineLength(s);
      ChunkSearchMeaning(s[n..], hash);
      ChunkStep(s, hash);
      DigestAgrees(s[..n], hash);
      LineStep(s, hash);
      if m <= SHA_LENGTH {
        WholeLineChunk(s[..m], hash);
      } else {
        LongLineStep(s, hash);
      }
    }
  }

  /** A line longer than a chunk: its first 41 bytes, then the rest of it as a line of its own. */
  lemma LongLineStep(s: seq<Byte>, hash: seq<Byte>)
    requires IsDigest(hash) && LineLength(s) > SHA_LENGTH
    ensures
      var m := LineLength(s);
      Listed(s[SHA_LENGTH..], hash) <==> LineLists(s[..m][SHA_LENGTH..], hash) || Listed(s[m..], hash)
    ensures LineLists(s[..LineLength(s)], hash) <==>
      hash <= s[..SHA_LENGTH] || LineLists(s[..LineLength(s)][SHA_LENGTH..], hash)
  {
    var m := LineLength(s);
    var rest := s[SHA_LENGTH..];
    SplitLine(s);
    assert Listed(rest, hash) <==> LineLists(s[..m][SHA_LENGTH..], hash) || Listed(s[m..], hash) by {
      LineStep(rest, hash);
      assert rest[..m - SHA_LENGTH] == s[..m][SHA_LENGTH..];
      assert rest[m - SHA_LENGTH..] == s[m..];
    }
    SplitLineLists(s[..m], hash);
    PrefixOfChunk(s[..SHA_LENGTH], s[..m], hash);
  }

  lemma PrefixOfChunk(chunk: seq<Byte>, line: seq<Byte>, hash: seq<Byte>)
    requires |hash| == COMPLENGTH <= |chunk| && chunk <= line
    ensures hash <= chunk <==> hash <= line
  {
    assert chunk[..COMPLENGTH] == line[..COMPLENGTH];
  }

  /** A line that fits one chunk can only list the hash at its start. */
  lemma WholeLineChunk(line: seq<Byte>, hash: seq<Byte>)
    requires IsDigest(hash) && |line| <= SHA_LENGTH
    ensures LineLists(line, hash) <==> hash <= line
  {
    if hash <= line { assert ListsAt(line, hash, 0); }
    forall k: nat | ListsAt(line, hash, k) ensures k == 0 {
    }
  }

  /** Taking the first 41 bytes off a longer line leaves the rest of that line first. */
  lemma SplitLine(s: seq<Byte>)
    requires LineLength(s) > SHA_LENGTH
    ensures LineLength(s[SHA_LENGTH..]) == LineLength(s) - SHA_LENGTH
    ensures Lines(s[SHA_LENGTH..]) == [s[..LineLength(s)][SHA_LENGTH..]] + Lines(s[LineLength(s)..])
  {
    var k, rest := Span(s, {NEWLINE}), s[SHA_LENGTH..];
    SpanUnique(rest, {NEWLINE}, k - SHA_LENGTH);
    var m := LineLength(s);
    assert rest[..m - SHA_LENGTH] == s[..m][SHA_LENGTH..];
    assert rest[m - SHA_LENGTH..] == s[m..];
  }

  lemma SplitLineLists(line: seq<Byte>, hash: seq<Byte>)
    requires IsDigest(hash) && |line| > SHA_LENGTH
    ensures LineLists(line, hash) <==> hash <= line || LineLists(line[SHA_LENGTH..], hash)
  {
    var tail := line[SHA_LENGTH..];
    if hash <= line { assert ListsAt(line, hash, 0); }
    forall k: nat | ListsAt(tail, hash, k) ensures ListsAt(line, hash, k + 1) {
      assert tail[SHA_LENGTH * k..] == line[SHA_LENGTH * (k + 1)..];
    }
    forall k: nat | k > 0 && ListsAt(line, hash, k) ensures ListsAt(tail, hash, k - 1) {
      assert tail[SHA_LENGTH * (k - 1)..] == line[SHA_LENGTH * k..];
    }
  }

  /** What fgets reads from the hash process: at most 40 bytes of its first line. */
  function Key(output: seq<Byte>): seq<Byte> {
    output[..ChunkLength(output, SHA_LENGTH - 1)]
  }

  /** Result codes: 3 no whitelist file, 4 no hash process, 1 listed, 0 not listed. */
  ghost function FileCode(whitelist: Option<seq<Byte>>, sha1sum: Option<seq<Byte>>): (code: int)
    ensures code == 3 <==> whitelist == None
    ensures code == 4 <==> whitelist.Some? && sha1sum == None
    ensures code in {0, 1} <==> whitelist.Some? && sha1sum.Some?
  {
    if whitelist.None? then 3
    else if sha1sum.None? then 4
    else if SomeChunkAgrees(whitelist.value, Key(sha1sum.value)) then 1
    else 0
  }

  /** whitelist: the whitelist file if it opens; sha1sum: what the hash process prints, if it starts. */
  method UsingFileWhitelistCheck(whitelist: Option<seq<Byte>>, sha1sum: Option<seq<Byte>>) returns (out: int)
    requires sha1sum.Some? ==> sha1sum.value != []
    ensures out == FileCode(whitelist, sha1sum)
    ensures whitelist == None ==> out == 3
    ensures whitelist.Some? && sha1sum == None ==> out == 4
    ensures whitelist.Some? && sha1sum.Some? ==> out == 0 || out == 1
  {
    if whitelist.None? { return 3; }
    var wh := new Stream(whitelist.value);
    out := 0;
    if sha1sum.None? { return 4; }
    var hash := new Stream(sha1sum.value);
    assert hash.Rest() == sha1sum.value;
    var check := hash.Fgets(SHA_LENGTH);
    ghost var key := Key(sha1sum.value);

    assert wh.Rest() == whitelist.value;
    if wh.Rest() != [] { ChunkStep(wh.Rest(), key); }
    var whCheck := wh.Fgets(SHA_LENGTH + 1);
    while whCheck.Some?
      invariant wh.Valid() && out == 0
      invariant whCheck.None? ==> !SomeChunkAgrees(whitelist.value, key)
      invariant whCheck.Some? ==>
        (SomeChunkAgrees(whitelist.value, key) <==>
         Agrees(whCheck.value, key) || SomeChunkAgrees(wh.Rest(), key))
      decreases |wh.data| - wh.pos, whCheck.Some?
    {
      StrncmpAgrees(whCheck.value, key);
      if StrncmpEqual(Terminated(whCheck.value), Terminated(check.value), COMPLENGTH) {
        out := 1;
        break;
      }
      if wh.Rest() != [] { ChunkStep(wh.Rest(), key); }
      whCheck := wh.Fgets(SHA_LENGTH + 1);
    }
  }

  lemma StrncmpAgrees(chunk: seq<Byte>, key: seq<Byte>)
    ensures StrLen(Terminated(chunk)) < |Terminated(chunk)| && StrLen(Terminated(key)) < |Terminated(key)|
    ensures StrncmpEqual(Terminated(chunk), Terminated(key), COMPLENGTH) <==> Agrees(chunk, key)
  {
    TerminatedString(chunk);
    TerminatedString(key);
    StrncmpMeaning(Terminated(chunk), Terminated(key), COMPLENGTH);
  }

  lemma TerminatedString(s: seq<Byte>)
    ensures StrLen(Terminated(s)) == StrLen(s) && Cut(Terminated(s), COMPLENGTH) == Cut(s, COMPLENGTH)
  {
    var t, n := Terminated(s), StrLen(s);
    assert forall k :: 0 <= k < n ==> t[k] == s[k];
    assert t[n] == NUL;
    SpanUnique(t, {NUL}, n);
  }

  // ---- What the result means ----

  /** When the hash process prints a digest first, the result is 1 exactly when the whitelist lists it. */
  lemma DigestCode(s: seq<Byte>, output: seq<Byte>)
    requires |output| >= COMPLENGTH && IsDigest(output[..COMPLENGTH])
    ensures FileCode(Some(s), Some(output)) == 1 <==> Listed(s, output[..COMPLENGTH])
  {
    assert forall k :: 0 <= k < COMPLENGTH ==> output[k] == output[..COMPLENGTH][k];
    assert Span(output, {NEWLINE}) >= COMPLENGTH;
    ChunkSearchMeaning(s, output[..COMPLENGTH]);
  }

  ghost predicate SomeLineStarts(s: seq<Byte>, hash: seq<Byte>) {
    exists l :: l in Lines(s) && hash <= l
  }

  /** The promise for one hash: result 1 exactly when some line starts with it. */
  ghost predicate ExactFor(s: seq<Byte>, hash: seq<Byte>) {
    FileCode(Some(s), Some(hash)) == 1 <==> SomeLineStarts(s, hash)
  }

  /** The hash stands at a later multiple of 41 characters in some line. */
  ghost predicate Stray(s: seq<Byte>, hash: seq<Byte>) {
    exists l, k: nat :: l in Lines(s) && k > 0 && ListsAt(l, hash, k)
  }

  /** A line that starts with the hash is always found, whatever surrounds it. */
  lemma ListedLineIsFound(s: seq<Byte>, hash: seq<Byte>, line: seq<Byte>)
    requires IsDigest(hash) && line in Lines(s) && hash <= line
    ensures FileCode(Some(s), Some(hash)) == 1
  {
    assert hash[..COMPLENGTH] == hash;
    DigestCode(s, hash);
    assert ListsAt(line, hash, 0);
  }

  /** The code keeps its promise for a hash exactly when the hash is no stray one, or starts a line as well. */
  lemma HashExactIff(s: seq<Byte>, hash: seq<Byte>)
    requires IsDigest(hash)
    ensures ExactFor(s, hash) <==> (Stray(s, hash) ==> SomeLineStarts(s, hash))
  {
    assert hash[..COMPLENGTH] == hash;
    DigestCode(s, hash);
    if SomeLineStarts(s, hash) {
      var l :| l in Lines(s) && hash <= l;
      ListedLineIsFound(s, hash, l);
    } else if Listed(s, hash) {
      var l :| l in Lines(s) && LineLists(l, hash);
      var k: nat :| ListsAt(l, hash, k);
      assert k > 0;
    }
  }

  /** What sha1sum prints for a file: 40 lower-case hexadecimal digits. */
  predicate IsHexDigest(hash: seq<Byte>) {
    |hash| == COMPLENGTH && forall k :: 0 <= k < COMPLENGTH ==> 48 <= hash[k] <= 57 || 97 <= hash[k] <= 102
  }

  /** The promise for one whitelist, over every hash sha1sum can print. */
  ghost predicate Exact(s: seq<Byte>) {
    forall hash :: IsHexDigest(hash) ==> ExactFor(s, hash)
  }

  /** Every hexadecimal digest at a later multiple of 41 in some line also starts some line. */
  ghost predicate NoStrayDigest(s: seq<Byte>) {
    forall hash :: IsHexDigest(hash) && Stray(s, hash) ==> SomeLineStarts(s, hash)
  }

  /** The code keeps its promise exactly on the whitelists without stray digests. */
  lemma WhitelistExactIff(s: seq<Byte>)
    ensures Exact(s) <==> NoStrayDigest(s)
  {
    forall hash | IsHexDigest(hash)
      ensures ExactFor(s, hash) <==> (Stray(s, hash) ==> SomeLineStarts(s, hash))
    {
      HashExactIff(s, hash);
    }
  }

  /** A line with at most 80 characters before its newline. */
  predicate Short(line: seq<Byte>) {
    Span(line, {NEWLINE}) <= 80
  }

  /** While no line has more than 80 characters there is no room for a stray hash. */
  lemma ShortLinesExact(s: seq<Byte>, hash: seq<Byte>)
    requires IsDigest(hash) && forall l :: l in Lines(s) ==> Short(l)
    ensures ExactFor(s, hash)
  {
    forall l, k: nat | l in Lines(s) && k > 0
      ensures !ListsAt(l, hash, k)
    {
      LineOnlyEndsInNewline(s, l);
    }
    HashExactIff(s, hash);
  }

  lemma {:induction false} LineOnlyEndsInNewline(s: seq<Byte>, l: seq<Byte>)
    requires l in Lines(s)
    ensures l != [] && Span(l, {NEWLINE}) >= |l| - 1
    decreases |s|
  {
    var m := LineLength(s);
    if l == s[..m] {
      assert forall k :: 0 <= k < m - 1 ==> l[k] in s[..m - 1];
    } else {
      assert l in Lines(s[m..]);
      LineOnlyEndsInNewline(s[m..], l);
    }
  }

  lemma OnlyLine(s: seq<Byte>)
    requires s != [] && Span(s, {NEWLINE}) == |s|
    ensures Lines(s) == [s]
  {
    assert s[..|s|] == s && s[|s|..] == [];
  }

  /** The bound is sharp: one line of 81 characters, the hash after 41 others, is reported as
      listed although it does not start with the hash. */
  lemma LongLineMisread(hash: seq<Byte>, filler: Byte)
    requires IsDigest(hash) && filler != NEWLINE && filler != hash[0]
    ensures
      var s := seq(SHA_LENGTH, _ => filler) + hash;
      |s| == 81 && FileCode(Some(s), Some(hash)) == 1 && !SomeLineStarts(s, hash)
  {
    var pad: seq<Byte> := seq(SHA_LENGTH, _ => filler);
    var s := pad + hash;
    PaddedLine(pad, hash);
    assert s in Lines(s) && LineLists(s, hash);
    assert hash[..COMPLENGTH] == hash;
    DigestCode(s, hash);
    assert s[0] == filler;
  }

  lemma PaddedLine(pad: seq<Byte>, hash: seq<Byte>)
    requires IsDigest(hash) && |pad| == SHA_LENGTH && NEWLINE !in pad
    ensures Lines(pad + hash) == [pad + hash] && ListsAt(pad + hash, hash, 1)
  {
    var s := pad + hash;
    assert forall k :: 0 <= k < |s| ==> s[k] in pad || s[k] in hash;
    SpanUnique(s, {NEWLINE}, |s|);
    OnlyLine(s);
    assert s[SHA_LENGTH * 1..] == hash;
  }
}
