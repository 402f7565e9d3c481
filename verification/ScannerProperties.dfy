/** What a match means, what the verdict depends on, and how it varies with the database. */
module ScannerProperties {
  import opened CString
  import opened Stdio
  import opened Signature
  import opened Scanner

  // ---- The meaning of a window match ----

  /** Only the bytes under the window matter. */
  lemma WindowIsCutSlice(content: seq<Byte>, i: nat)
    requires i + SIG_SIZE <= |content|
    ensures Window(content, i) == StrncpyBytes(content[i..i + SIG_SIZE], SIG_SIZE)
  {
    var src, w := (content + [NUL])[i..], content[i..i + SIG_SIZE];
    assert forall k :: 0 <= k < SIG_SIZE ==> src[k] == w[k];
    if StrLen(src) < SIG_SIZE {
      SpanUnique(w, {NUL}, StrLen(src));
    } else {
      SpanUnique(w, {NUL}, SIG_SIZE);
    }
  }

  /** After its first NUL the signature holds nothing but NULs. */
  predicate ZeroTailed(sig: seq<Byte>) {
    forall k :: StrLen(sig) <= k < |sig| ==> sig[k] == NUL
  }

  /** Cutting a window at its first NUL gives the signature exactly when the signature is text
      followed only by NULs, the window begins with that text, and, if the signature has a NUL,
      the window has one right after the text. */
  lemma CutEquals(w: seq<Byte>, sig: seq<Byte>)
    requires |w| == |sig| == SIG_SIZE
    ensures StrncpyBytes(w, SIG_SIZE) == sig <==>
      ZeroTailed(sig) && (forall k :: 0 <= k < StrLen(sig) ==> w[k] == sig[k]) &&
      (StrLen(sig) < SIG_SIZE ==> w[StrLen(sig)] == NUL)
  {
    var p, cut, q := StrLen(sig), StrncpyBytes(w, SIG_SIZE), StrLen(w);
    assert forall k :: q <= k < SIG_SIZE ==> cut[k] == NUL;
    assert forall k :: 0 <= k < q ==> cut[k] == w[k];
    if cut == sig {
      SpanUnique(sig, {NUL}, q);
    }
    if ZeroTailed(sig) && (forall k :: 0 <= k < p ==> w[k] == sig[k]) && (p < SIG_SIZE ==> w[p] == NUL) {
      SpanUnique(w, {NUL}, p);
      assert cut == sig;
    }
  }

  /** A window matches exactly when the signature is text followed only by NULs, the window
      begins with that text, and a NUL follows the text in the window if one does in the signature. */
  lemma MatchMeaning(content: seq<Byte>, sig: seq<Byte>, i: nat)
    requires |sig| == SIG_SIZE && i + SIG_SIZE <= |content|
    ensures MatchesAt(content, sig, i) <==>
      ZeroTailed(sig) &&
      content[i..i + StrLen(sig)] == sig[..StrLen(sig)] &&
      (StrLen(sig) < SIG_SIZE ==> content[i + StrLen(sig)] == NUL)
  {
    WindowIsCutSlice(content, i);
    var w, p := content[i..i + SIG_SIZE], StrLen(sig);
    CutEquals(w, sig);
    var text := content[i..i + p];
    assert forall k :: 0 <= k < p ==> text[k] == w[k];
    assert text == sig[..p] <==> forall k :: 0 <= k < p ==> text[k] == sig[k];
  }

  /** No NUL before the last byte: the signature is compared literally. */
  predicate Literal(sig: seq<Byte>) {
    forall k :: 0 <= k < |sig| - 1 ==> sig[k] != NUL
  }

  lemma LiteralWindow(content: seq<Byte>, sig: seq<Byte>, i: nat)
    requires |sig| == SIG_SIZE && Literal(sig)
    ensures MatchesAt(content, sig, i) <==> OccursAt(content, sig, i)
  {
    if i + SIG_SIZE <= |content| {
      MatchMeaning(content, sig, i);
      var p, w := StrLen(sig), content[i..i + SIG_SIZE];
      assert p >= SIG_SIZE - 1;
      assert content[i..i + p] == w[..p];
      if w[..p] == sig[..p] && (p < SIG_SIZE ==> w[p] == NUL) {
        assert w == w[..p] + w[p..] && sig == sig[..p] + sig[p..];
      }
    }
  }

  /** A file on which the engine and the plain substring search disagree. */
  ghost function Disagreement(sig: seq<Byte>): (content: seq<Byte>)
    requires |sig| == SIG_SIZE && !Literal(sig)
    ensures |content| == SIG_SIZE
  {
    if ZeroTailed(sig) then sig[SIG_SIZE - 1 := 1] else sig
  }

  lemma DisagreementWitness(sig: seq<Byte>)
    requires |sig| == SIG_SIZE && !Literal(sig)
    ensures !(Hits(Disagreement(sig), sig) <==> Occurs(Disagreement(sig), sig))
  {
    var c, p := Disagreement(sig), StrLen(sig);
    assert c[0..SIG_SIZE] == c;
    MatchMeaning(c, sig, 0);
    if ZeroTailed(sig) {
      assert c[0..p] == sig[..p];
      assert MatchesAt(c, sig, 0);
      assert forall i :: OccursAt(c, sig, i) ==> i == 0;
      assert c[SIG_SIZE - 1] != sig[SIG_SIZE - 1];
    } else {
      assert OccursAt(c, sig, 0);
      assert forall i :: MatchesAt(c, sig, i) ==> i == 0;
    }
  }

  /** The scanner's documented meaning, "the signature's bytes occur in the file", holds for
      every file exactly when the first 19 bytes of the signature are free of NUL. */
  lemma SubstringMeaningIff(sig: seq<Byte>)
    requires |sig| == SIG_SIZE
    ensures (forall content :: Hits(content, sig) <==> Occurs(content, sig)) <==> Literal(sig)
  {
    if Literal(sig) {
      forall content ensures Hits(content, sig) <==> Occurs(content, sig) {
        forall i: nat ensures MatchesAt(content, sig, i) <==> OccursAt(content, sig, i) {
          LiteralWindow(content, sig, i);
        }
      }
    } else {
      DisagreementWitness(sig);
    }
  }

  /** A signature can report some file exactly when nothing but NULs follows its first NUL. */
  lemma DeadSignatureIff(sig: seq<Byte>)
    requires |sig| == SIG_SIZE
    ensures (forall content :: !Hits(content, sig)) <==> !ZeroTailed(sig)
  {
    if ZeroTailed(sig) {
      var p := StrLen(sig);
      MatchMeaning(sig, sig, 0);
      assert sig[0..p] == sig[..p];
      assert MatchesAt(sig, sig, 0) && Hits(sig, sig);
    } else {
      forall content ensures !Hits(content, sig) {
        forall i: nat ensures !MatchesAt(content, sig, i) {
          if i + SIG_SIZE <= |content| { MatchMeaning(content, sig, i); }
        }
      }
    }
  }

  // The entries test-4, whitelist-test and pdf-1 of the shipped database.
  const TEST_4: seq<Byte> :=
    [0x2e, 0x36, 0x00, 0x70, 0x75, 0x74, 0x73, 0x00, 0x5f, 0x5f,
     0x6c, 0x69, 0x62, 0x63, 0x5f, 0x73, 0x74, 0x61, 0x72, 0x74]
  const WHITELIST_TEST: seq<Byte> :=
    [0x89, 0x50, 0x4e, 0x47, 0x0d, 0x0a, 0x1a, 0x0a, 0x00, 0x00,
     0x00, 0x0d, 0x49, 0x48, 0x44, 0x52, 0x00, 0x00, 0x02, 0x0b]
  const PDF_1: seq<Byte> :=
    [0x93, 0x90, 0x00, 0xb5, 0x85, 0x84, 0x30, 0xb0, 0xed, 0xad,
     0xfb, 0x43, 0x97, 0x87, 0x0c, 0x56, 0x99, 0xd3, 0x7e, 0xfe]

  lemma ShippedNotZeroTailed()
    ensures !ZeroTailed(TEST_4) && !ZeroTailed(WHITELIST_TEST) && !ZeroTailed(PDF_1)
  {
    SpanUnique(TEST_4, {NUL}, 2);
    SpanUnique(WHITELIST_TEST, {NUL}, 8);
    SpanUnique(PDF_1, {NUL}, 2);
    assert TEST_4[3] != NUL && WHITELIST_TEST[11] != NUL && PDF_1[3] != NUL;
  }

  /** An entry with such a signature, under whatever name and with whatever after it on its line,
      matches no file. */
  lemma DeadEntry(content: seq<Byte>, name: seq<Byte>, tail: seq<Byte>, sig: seq<Byte>)
    requires NUL !in name && COMMA !in name && |sig| == SIG_SIZE && !ZeroTailed(sig)
    ensures !LineHits(content, PrintLine(name, sig) + tail)
  {
    ParseInvertsPrint(name, sig, tail + [NUL]);
    assert Terminated(PrintLine(name, sig) + tail) == PrintLine(name, sig) + (tail + [NUL]);
    DeadSignatureIff(sig);
  }

  /** Half of the shipped database can never report a file. */
  lemma {:induction false} ShippedDeadEntries(content: seq<Byte>, name: seq<Byte>, tail: seq<Byte>)
    requires NUL !in name && COMMA !in name
    ensures !LineHits(content, PrintLine(name, TEST_4) + tail)
    ensures !LineHits(content, PrintLine(name, WHITELIST_TEST) + tail)
    ensures !LineHits(content, PrintLine(name, PDF_1) + tail)
  {
    ShippedNotZeroTailed();
    DeadEntry(content, name, tail, TEST_4);
    DeadEntry(content, name, tail, WHITELIST_TEST);
    DeadEntry(content, name, tail, PDF_1);
  }

  // ---- The verdict ----

  lemma DetectedIffFirstHit(content: seq<Byte>, lines: seq<seq<Byte>>)
    ensures Detected(content, lines) <==> FirstHit(content, lines) < |lines|
  {
    if FirstHit(content, lines) < |lines| {
      assert lines[FirstHit(content, lines)] in lines;
    }
  }

  /** The verdict of one scan: the buffer's first byte is set exactly when some line matches;
      the buffer then starts with the name of the earliest such line and keeps its other bytes. */
  lemma VerdictCorrect(content: seq<Byte>, lines: seq<seq<Byte>>, buf: seq<Byte>)
    requires WellFormed(lines) && Named(lines) && |buf| == MAX_NAME_LEN
    requires |content| >= SIG_SIZE && lines != []
    ensures NameAfterScan(content, lines, buf)[0] != NUL <==> Detected(content, lines)
    ensures !Detected(content, lines) ==> NameAfterScan(content, lines, buf)[1..] == buf[1..]
    ensures Detected(content, lines) ==>
      exists k :: 0 <= k < |lines| && LineHits(content, lines[k]) &&
        (forall j :: 0 <= j < k ==> !LineHits(content, lines[j])) &&
        NameAfterScan(content, lines, buf) ==
          Parse(Terminated(lines[k])).name + buf[|Parse(Terminated(lines[k])).name|..]
  {
    DetectedIffFirstHit(content, lines);
    var k := FirstHit(content, lines);
    if k < |lines| {
      assert lines[k] in lines;
      var name := Parse(Terminated(lines[k])).name;
      assert name[0] in name;
    }
  }

  /** The verdict does not depend on what the buffer held before. */
  ghost predicate HistoryIndependent(content: seq<Byte>, lines: seq<seq<Byte>>)
    requires WellFormed(lines)
  {
    forall a, b :: |a| == MAX_NAME_LEN && |b| == MAX_NAME_LEN ==>
      (NameAfterScan(content, lines, a)[0] == NUL <==> NameAfterScan(content, lines, b)[0] == NUL)
  }

  /** The first comparison of the scan succeeds on an entry without a name. */
  ghost predicate NamelessFirstMatch(content: seq<Byte>, lines: seq<seq<Byte>>)
    requires WellFormed(lines) && lines != []
  {
    assert lines[0] in lines;
    var entry := Parse(Terminated(lines[0]));
    entry.name == [] && MatchesAt(content, entry.sig, 0)
  }

  /** A stale name survives the scan exactly when no window is compared or the first
      comparison matches a nameless entry; in every other case the verdict is the file's own. */
  lemma HistoryIndependentIff(content: seq<Byte>, lines: seq<seq<Byte>>)
    requires WellFormed(lines)
    ensures HistoryIndependent(content, lines) <==>
      |content| >= SIG_SIZE && lines != [] && !NamelessFirstMatch(content, lines)
  {
    var a, b := Zeros(MAX_NAME_LEN), Zeros(MAX_NAME_LEN)[0 := 1];
    var k := FirstHit(content, lines);
    if |content| < SIG_SIZE || lines == [] {
      assert NameAfterScan(content, lines, a)[0] == NUL && NameAfterScan(content, lines, b)[0] != NUL;
    } else if NamelessFirstMatch(content, lines) {
      assert Hits(content, Parse(Terminated(lines[0])).sig);
      assert NameAfterScan(content, lines, a) == a && NameAfterScan(content, lines, b) == b;
    } else if k < |lines| {
      assert lines[k] in lines;
    }
  }

  // ---- Database algebra ----

  /** The verdict depends only on which lines the database has, so it survives any reordering. */
  lemma {:induction false} VerdictIgnoresOrder(
      content: seq<Byte>, lines: seq<seq<Byte>>, reordered: seq<seq<Byte>>, buf: seq<Byte>)
    requires multiset(lines) == multiset(reordered)
    requires WellFormed(lines) && Named(lines) && |buf| == MAX_NAME_LEN
    ensures WellFormed(reordered)
    ensures NameAfterScan(content, lines, buf)[0] == NUL <==> NameAfterScan(content, reordered, buf)[0] == NUL
  {
    forall l ensures l in lines <==> l in reordered {
      assert l in lines <==> l in multiset(lines);
      assert l in reordered <==> l in multiset(reordered);
    }
    assert |lines| == |multiset(lines)| == |reordered|;
    if |content| >= SIG_SIZE && lines != [] {
      VerdictCorrect(content, lines, buf);
      VerdictCorrect(content, reordered, buf);
    }
  }

  /** Appending entries to the database file never changes the report on a detected file. */
  lemma {:induction false} AppendKeepsReport(content: seq<Byte>, db: seq<Byte>, more: seq<Byte>, buf: seq<Byte>)
    requires db == [] || db[|db| - 1] == NEWLINE
    requires WellFormed(Lines(db)) && WellFormed(Lines(more)) && |buf| == MAX_NAME_LEN
    requires Detected(content, Lines(db))
    ensures WellFormed(Lines(db + more)) && Detected(content, Lines(db + more))
    ensures NameAfterScan(content, Lines(db + more), buf) == NameAfterScan(content, Lines(db), buf)
  {
    LinesAppend(db, more);
    var lines := Lines(db);
    DetectedIffFirstHit(content, lines);
    FirstHitOfPrefix(content, lines, Lines(more));
  }

  lemma {:induction false} FirstHitOfPrefix(content: seq<Byte>, lines: seq<seq<Byte>>, more: seq<seq<Byte>>)
    requires FirstHit(content, lines) < |lines|
    ensures FirstHit(content, lines + more) == FirstHit(content, lines)
  {
    assert (lines + more)[0] == lines[0];
    if !LineHits(content, lines[0]) {
      assert (lines + more)[1..] == lines[1..] + more;
      FirstHitOfPrefix(content, lines[1..], more);
    }
  }
}
