/** The signature engine: load a file, slide a 20-byte window over it for every database
    line, report the first entry that matches. */
module Scanner {
  import opened CString
  import opened Stdio
  import opened Signature

  const SUCCESS := 1
  const FAIL := -1
  const MAX_NAME_LEN := 50

  /** The caller's virus_name array. */
  type NameBuffer = s: seq<Byte> | |s| == MAX_NAME_LEN witness Zeros(MAX_NAME_LEN)

  /** A file opened for scanning. Loading fails when its bytes cannot all be sought and read. */
  datatype Source = Source(content: seq<Byte>, loadable: bool)

  // ---- What the engine is meant to decide ----

  /** The window at offset i as the engine copies it: strncpy from the NUL-terminated image. */
  function Window(content: seq<Byte>, i: nat): (w: seq<Byte>)
    requires i + SIG_SIZE <= |content|
    ensures |w| == SIG_SIZE
  {
    StrncpyBytes((content + [NUL])[i..], SIG_SIZE)
  }

  predicate MatchesAt(content: seq<Byte>, sig: seq<Byte>, i: nat) {
    i + SIG_SIZE <= |content| && Window(content, i) == sig
  }

  ghost predicate Hits(content: seq<Byte>, sig: seq<Byte>) {
    exists i :: MatchesAt(content, sig, i)
  }

  predicate OccursAt(content: seq<Byte>, sig: seq<Byte>, i: nat) {
    i + |sig| <= |content| && content[i..i + |sig|] == sig
  }

  /** The plain meaning of a signature: its bytes occur in the file. */
  ghost predicate Occurs(content: seq<Byte>, sig: seq<Byte>) {
    exists i :: OccursAt(content, sig, i)
  }

  /** The parser stays inside each line and each name fits the caller's buffer. */
  ghost predicate WellFormed(lines: seq<seq<Byte>>) {
    forall l :: l in lines ==> Readable(Terminated(l)) && NameLength(Terminated(l)) <= MAX_NAME_LEN
  }

  ghost predicate Named(lines: seq<seq<Byte>>) {
    forall l :: l in lines ==> NameLength(Terminated(l)) > 0
  }

  ghost predicate LineHits(content: seq<Byte>, line: seq<Byte>) {
    Readable(Terminated(line)) && Hits(content, Parse(Terminated(line)).sig)
  }

  ghost predicate Detected(content: seq<Byte>, lines: seq<seq<Byte>>) {
    exists l :: l in lines && LineHits(content, l)
  }

  /** Position of the earliest line that matches somewhere in the file; |lines| if none does. */
  ghost function FirstHit(content: seq<Byte>, lines: seq<seq<Byte>>): (k: nat)
    ensures k <= |lines|
    ensures forall j :: 0 <= j < k ==> !LineHits(content, lines[j])
    ensures k < |lines| ==> LineHits(content, lines[k])
  {
    if lines == [] || LineHits(content, lines[0]) then 0 else 1 + FirstHit(content, lines[1..])
  }

  function ZeroFirst(buf: seq<Byte>): seq<Byte>
    requires buf != []
  {
    buf[0 := NUL]
  }

  /** The name buffer after a completed scan. It stays as it was when no window is compared;
      otherwise it holds NUL first when nothing matches, and the reported name over the old
      bytes when something does. An empty name leaves whatever the comparisons left. */
  ghost function NameAfterScan(content: seq<Byte>, lines: seq<seq<Byte>>, buf: seq<Byte>): (r: seq<Byte>)
    requires WellFormed(lines) && |buf| == MAX_NAME_LEN
    ensures |r| == MAX_NAME_LEN
  {
    var k := FirstHit(content, lines);
    if |content| < SIG_SIZE || lines == [] then buf
    else if k == |lines| then ZeroFirst(buf)
    else
      assert lines[k] in lines;
      var entry := Parse(Terminated(lines[k]));
      if entry.name != [] then entry.name + buf[|entry.name|..]
      else if k == 0 && MatchesAt(content, entry.sig, 0) then buf
      else ZeroFirst(buf)
  }

  /** The name buffer once n lines were compared without a match. */
  function Unmatched(content: seq<Byte>, n: nat, buf: seq<Byte>): seq<Byte>
    requires buf != []
  {
    if |content| < SIG_SIZE || n == 0 then buf else ZeroFirst(buf)
  }

  /** What CompareWindows leaves behind when the entry of line n is the first to match. */
  lemma ReportAtFirstHit(content: seq<Byte>, lines: seq<seq<Byte>>, n: nat, buf: seq<Byte>, after: seq<Byte>)
    requires WellFormed(lines) && |buf| == MAX_NAME_LEN && n < |lines| && n <= FirstHit(content, lines)
    requires Readable(Terminated(lines[n])) && LineHits(content, lines[n])
    requires
      var entry := Parse(Terminated(lines[n]));
      var base := Unmatched(content, n, buf);
      |entry.name| <= MAX_NAME_LEN && after ==
        (if entry.name != [] then entry.name + base[|entry.name|..]
         else if MatchesAt(content, entry.sig, 0) then base
         else ZeroFirst(base))
    ensures after == NameAfterScan(content, lines, buf)
  {
  }

  // ---- The engine ----

  /** 0 if all bytes agree, -1 otherwise, decided by counting agreements. */
  method SigCompare(file: seq<Byte>, sig: seq<Byte>) returns (r: int)
    requires |file| == SIG_SIZE && |sig| == SIG_SIZE
    ensures r == if file == sig then 0 else -1
  {
    var counter := 0;
    for i := 0 to SIG_SIZE
      invariant counter <= i
      invariant counter == i <==> file[..i] == sig[..i]
    {
      assert file[..i + 1] == file[..i] + [file[i]] && sig[..i + 1] == sig[..i] + [sig[i]];
      if file[i] == sig[i] {
        counter := counter + 1;
      }
    }
    assert file[..SIG_SIZE] == file && sig[..SIG_SIZE] == sig;
    if counter == SIG_SIZE { return 0; } else { return -1; }
  }

  /** The file and one NUL; the size counts the NUL. */
  method LoadFile(fd: Source) returns (size: int, mem: seq<Byte>)
    ensures fd.loadable ==> mem == fd.content + [NUL] && size == |mem|
    ensures !fd.loadable ==> size == FAIL
  {
    if !fd.loadable { return FAIL, []; }
    return |fd.content| + 1, fd.content + [NUL];
  }

  /** The window loop for one database line. */
  method CompareWindows(size: int, mem: seq<Byte>, signature: Signature, virus_name: array<Byte>,
                        ghost content: seq<Byte>)
    returns (found: bool)
    requires mem == content + [NUL] && size == |mem|
    requires |signature.sig| == SIG_SIZE && NUL !in signature.name
    requires |signature.name| <= virus_name.Length == MAX_NAME_LEN
    modifies virus_name
    ensures found <==> Hits(content, signature.sig)
    ensures virus_name[..] ==
      if |content| < SIG_SIZE then old(virus_name[..])
      else if !found then ZeroFirst(old(virus_name[..]))
      else if signature.name != [] then signature.name + old(virus_name[|signature.name|..])
      else if MatchesAt(content, signature.sig, 0) then old(virus_name[..])
      else ZeroFirst(old(virus_name[..]))
  {
    var limit := size - SIG_SIZE;
    found := false;
    var i := 0;
    while i < limit
      invariant 0 <= i && (i <= limit || i == 0)
      invariant forall j :: 0 <= j < i ==> !MatchesAt(content, signature.sig, j)
      invariant virus_name[..] == if i == 0 then old(virus_name[..]) else ZeroFirst(old(virus_name[..]))
    {
      var file_temp := new Byte[SIG_SIZE];
      Strncpy(file_temp, mem[i..], SIG_SIZE);
      assert file_temp[..] == Window(content, i);
      var cmp_result := SigCompare(file_temp[..], signature.sig);
      if cmp_result == 0 {
        assert MatchesAt(content, signature.sig, i);
        found := true;
        CopyName(virus_name, signature.name);
        return;
      } else {
        virus_name[0] := NUL;
      }
      i := i + 1;
    }
  }

  method CopyName(virus_name: array<Byte>, name: seq<Byte>)
    requires |name| <= virus_name.Length && NUL !in name
    modifies virus_name
    ensures virus_name[..] == name + old(virus_name[|name|..])
  {
    assert StrLen(name) == |name| by {
      assert forall k :: 0 <= k < |name| ==> name[k] in name;
    }
    assert name[..|name|] == name;
    Strncpy(virus_name, name, |name|);
  }

  /** One turn of the database loop: parse line n, compare it with every window. */
  method ScanLine(size: int, mem: seq<Byte>, line: seq<Byte>, virus_name: array<Byte>,
                  ghost content: seq<Byte>, ghost lines: seq<seq<Byte>>, ghost n: nat, ghost buf: seq<Byte>)
    returns (found: bool)
    requires mem == content + [NUL] && size == |mem|
    requires WellFormed(lines) && n < |lines| && lines[n] == line && n <= FirstHit(content, lines)
    requires |buf| == virus_name.Length == MAX_NAME_LEN && virus_name[..] == Unmatched(content, n, buf)
    modifies virus_name
    ensures found ==> virus_name[..] == NameAfterScan(content, lines, buf)
    ensures !found ==> n + 1 <= FirstHit(content, lines) && virus_name[..] == Unmatched(content, n + 1, buf)
  {
    assert lines[n] in lines;
    var signature := ExtractSignature(Terminated(line));
    found := CompareWindows(size, mem, signature, virus_name, content);
    if found {
      ReportAtFirstHit(content, lines, n, buf, virus_name[..]);
    }
  }

  method Scan(fd: Source, db: Stream, virus_name: array<Byte>) returns (r: int)
    requires db.Valid() && virus_name.Length == MAX_NAME_LEN
    requires WellFormed(Lines(db.Rest()))
    modifies db, virus_name
    ensures db.Valid()
    ensures r == if fd.loadable then SUCCESS else FAIL
    ensures db.pos == if fd.loadable then 0 else old(db.pos)
    ensures virus_name[..] ==
      if fd.loadable then NameAfterScan(fd.content, old(Lines(db.Rest())), old(virus_name[..]))
      else old(virus_name[..])
  {
    var size, mem := LoadFile(fd);
    if size == FAIL { return FAIL; }
    ghost var lines := Lines(db.Rest());
    ghost var n := 0;
    var found := false;
    var line := db.Getline();
    assert lines[0..] == lines;
    while line.Some?
      invariant db.Valid() && n <= |lines|
      invariant line.None? ==> n == |lines|
      invariant line.Some? ==> lines[n..] == [line.value] + Lines(db.Rest())
      invariant !found ==> n <= FirstHit(fd.content, lines)
      invariant !found ==> virus_name[..] == Unmatched(fd.content, n, old(virus_name[..]))
      invariant found ==> virus_name[..] == NameAfterScan(fd.content, lines, old(virus_name[..]))
      decreases |lines| - n, line.Some?
    {
      if found { break; }
      assert line.value == lines[n..][0];
      found := ScanLine(size, mem, line.value, virus_name, fd.content, lines, n, old(virus_name[..]));
      ghost var rest := Lines(db.Rest());
      assert rest == lines[n..][1..] == lines[n + 1..];
      n := n + 1;
      line := db.Getline();
    }
    db.SeekStart();
    r := SUCCESS;
  }
}
