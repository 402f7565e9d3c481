/** The part of stdio the scanner uses: an open stream with a cursor, read by getline and fgets. */
module Stdio {
  import opened CString

  /** Length of the first line of s, its newline included. */
  function LineLength(s: seq<Byte>): (n: nat)
    ensures n <= |s| && (n == 0 <==> s == [])
    ensures forall k :: 0 <= k < n - 1 ==> s[k] != NEWLINE
    ensures n < |s| ==> s[n - 1] == NEWLINE
  {
    var k := Span(s, {NEWLINE});
    if k < |s| then k + 1 else k
  }

  /** The lines of a stream, each with its newline (the last one may lack it). */
  function Lines(s: seq<Byte>): (ls: seq<seq<Byte>>)
    ensures s == [] <==> ls == []
  {
    if s == [] then [] else [s[..LineLength(s)]] + Lines(s[LineLength(s)..])
  }

  /** How many bytes one fgets with a buffer of m + 1 bytes takes. */
  function ChunkLength(s: seq<Byte>, m: nat): nat {
    if LineLength(s) <= m then LineLength(s) else m
  }

  function Flatten(ls: seq<seq<Byte>>): seq<Byte> {
    if ls == [] then [] else ls[0] + Flatten(ls[1..])
  }

  lemma FlattenCons(head: seq<Byte>, rest: seq<seq<Byte>>)
    ensures Flatten([head] + rest) == head + Flatten(rest)
  {
    assert ([head] + rest)[1..] == rest;
  }

  /** Splitting into lines loses nothing. */
  lemma {:induction false} LinesCoverStream(s: seq<Byte>)
    ensures Flatten(Lines(s)) == s
    decreases |s|
  {
    if s != [] {
      var n := LineLength(s);
      var head, rest := s[..n], s[n..];
      assert s == head + rest;
      LinesCoverStream(rest);
      FlattenCons(head, Lines(rest));
    }
  }

  lemma {:induction false} LinesUnfold(head: seq<Byte>, rest: seq<Byte>)
    requires head != [] && head[|head| - 1] == NEWLINE
    requires forall k :: 0 <= k < |head| - 1 ==> head[k] != NEWLINE
    ensures Lines(head + rest) == [head] + Lines(rest)
  {
    var s, n := head + rest, |head|;
    assert forall k :: 0 <= k < n ==> s[k] == head[k];
    SpanUnique(s, {NEWLINE}, n - 1);
    assert s[..n] == head && s[n..] == rest;
  }

  lemma Associative<T>(a: seq<T>, b: seq<T>, c: seq<T>)
    ensures (a + b) + c == a + (b + c)
  {
  }

  lemma AppendStep(head: seq<Byte>, rest: seq<Byte>, b: seq<Byte>)
    requires head != [] && head[|head| - 1] == NEWLINE
    requires forall k :: 0 <= k < |head| - 1 ==> head[k] != NEWLINE
    requires Lines(rest + b) == Lines(rest) + Lines(b)
    ensures Lines((head + rest) + b) == Lines(head + rest) + Lines(b)
  {
    LinesUnfold(head, rest);
    LinesUnfold(head, rest + b);
    Associative(head, rest, b);
    Associative([head], Lines(rest), Lines(b));
  }

  lemma FirstLine(a: seq<Byte>) returns (head: seq<Byte>, rest: seq<Byte>)
    requires a != [] && a[|a| - 1] == NEWLINE
    ensures a == head + rest && head != [] && head[|head| - 1] == NEWLINE
    ensures forall k :: 0 <= k < |head| - 1 ==> head[k] != NEWLINE
    ensures rest == [] || rest[|rest| - 1] == NEWLINE
  {
    var n := LineLength(a);
    head, rest := a[..n], a[n..];
  }

  /** Data appended to a stream that ends in a newline arrives as further lines. */
  lemma {:induction false} LinesAppend(a: seq<Byte>, b: seq<Byte>)
    requires a == [] || a[|a| - 1] == NEWLINE
    ensures Lines(a + b) == Lines(a) + Lines(b)
    decreases |a|
  {
    if a == [] {
      assert a + b == b;
    } else {
      var head, rest := FirstLine(a);
      LinesAppend(rest, b);
      AppendStep(head, rest, b);
    }
  }

  lemma ChunkLengthIs(s: seq<Byte>, m: nat, n: nat)
    requires n <= m && n <= |s| && s != []
    requires forall k :: 0 <= k < n - 1 ==> s[k] != NEWLINE
    requires n == m || n == |s| || (n > 0 && s[n - 1] == NEWLINE)
    ensures ChunkLength(s, m) == n
  {
    var k := Span(s, {NEWLINE});
    if n > 0 && s[n - 1] == NEWLINE {
      SpanUnique(s, {NEWLINE}, n - 1);
    } else if n == |s| {
      SpanUnique(s, {NEWLINE}, n);
    } else {
      assert k < |s| ==> k >= n;
    }
  }

  /** A stream opened for reading. */
  class Stream {
    const data: seq<Byte>
    var pos: nat

    constructor (data: seq<Byte>)
      ensures this.data == data && pos == 0
    {
      this.data := data;
      pos := 0;
    }

    ghost predicate Valid()
      reads this
    {
      pos <= |data|
    }

    ghost function Rest(): seq<Byte>
      requires Valid()
      reads this
    {
      data[pos..]
    }

    method Getline() returns (line: Option<seq<Byte>>)
      requires Valid()
      modifies this
      ensures Valid()
      ensures old(Rest()) == [] ==> line == None && pos == old(pos)
      ensures old(Rest()) != [] ==> line.Some? && Lines(old(Rest())) == [line.value] + Lines(Rest())
    {
      line := Fgets(|data| - pos + 1);
    }

    /** fgets with a buffer of size bytes: at most size - 1 bytes, none past a newline. */
    method Fgets(size: nat) returns (chunk: Option<seq<Byte>>)
      requires Valid() && size >= 1
      modifies this
      ensures Valid()
      ensures old(Rest()) == [] ==> chunk == None && pos == old(pos)
      ensures old(Rest()) != [] ==>
        chunk == Some(old(Rest())[..ChunkLength(old(Rest()), size - 1)]) &&
        Rest() == old(Rest())[ChunkLength(old(Rest()), size - 1)..]
    {
      if pos == |data| { return None; }
      ghost var rest := data[pos..];
      var n := 0;
      while n < size - 1 && pos + n < |data| && (n == 0 || data[pos + n - 1] != NEWLINE)
        invariant n <= size - 1 && pos + n <= |data|
        invariant forall k :: 0 <= k < n - 1 ==> rest[k] != NEWLINE
        decreases |data| - pos - n
      {
        n := n + 1;
      }
      ChunkLengthIs(rest, size - 1, n);
      chunk := Some(data[pos..pos + n]);
      assert data[pos..pos + n] == rest[..n];
      pos := pos + n;
    }

    method SeekStart()
      modifies this
      ensures pos == 0
    {
      pos := 0;
    }
  }
}
