/** Byte strings and the few C library string routines the scanner relies on
    (section 7.24 of ISO C11), stated on sequences and carried out on arrays. */
module CString {
  datatype Option<+T> = None | Some(value: T)

  type Byte = b: int | 0 <= b < 256

  const NUL: Byte := 0
  const NEWLINE: Byte := 10
  const SPACE: Byte := 32
  const COMMA: Byte := 44

  /** How many bytes precede the first byte of s that lies in stop; all of s if none does. */
  function Span(s: seq<Byte>, stop: set<Byte>): (n: nat)
    ensures n <= |s|
    ensures forall k :: 0 <= k < n ==> s[k] !in stop
    ensures n < |s| ==> s[n] in stop
  {
    if s == [] || s[0] in stop then 0 else 1 + Span(s[1..], stop)
  }

  /** Span is the only number with its three properties. */
  lemma SpanUnique(s: seq<Byte>, stop: set<Byte>, n: nat)
    requires n <= |s| && (forall k :: 0 <= k < n ==> s[k] !in stop)
    requires n < |s| ==> s[n] in stop
    ensures Span(s, stop) == n
  {
    assert forall m :: 0 <= m < n ==> s[m] !in stop;
  }

  function StrLen(s: seq<Byte>): nat {
    Span(s, {NUL})
  }

  /** The bytes as a C string. */
  function Terminated(s: seq<Byte>): seq<Byte> {
    s + [NUL]
  }

  function Zeros(n: nat): (z: seq<Byte>)
    ensures |z| == n && forall k :: 0 <= k < n ==> z[k] == NUL
  {
    seq(n, _ => NUL)
  }

  /** The n bytes strncpy leaves in its destination: the source up to its first NUL,
      then zeros (section 7.24.2.4). The source must hold n bytes or a NUL. */
  function StrncpyBytes(src: seq<Byte>, n: nat): (r: seq<Byte>)
    requires n <= |src| || StrLen(src) < |src|
    ensures |r| == n
  {
    var k := StrLen(src);
    if n <= k then src[..n] else src[..k] + Zeros(n - k)
  }

  method Strncpy(dest: array<Byte>, src: seq<Byte>, n: nat)
    requires n <= |src| || StrLen(src) < |src|
    requires n <= dest.Length
    modifies dest
    ensures dest[..] == StrncpyBytes(src, n) + old(dest[n..])
  {
    var i := 0;
    while i < n && src[i] != NUL
      invariant i <= n && i <= StrLen(src)
      invariant dest[..i] == src[..i] && dest[n..] == old(dest[n..])
    {
      dest[i] := src[i];
      i := i + 1;
    }
    SpanUnique(src[..i], {NUL}, i);
    ghost var k := i;
    assert i < n ==> k == StrLen(src);
    while i < n
      invariant k <= i <= n && dest[n..] == old(dest[n..])
      invariant dest[..k] == src[..k] && forall j :: k <= j < i ==> dest[j] == NUL
    {
      dest[i] := NUL;
      i := i + 1;
    }
    assert dest[..n] == StrncpyBytes(src, n);
    assert dest[..] == dest[..n] + dest[n..];
  }

  /** strcpy: the string and its terminator, the rest of the destination untouched. */
  method Strcpy(dest: array<Byte>, src: seq<Byte>)
    requires StrLen(src) < |src| && StrLen(src) < dest.Length
    modifies dest
    ensures dest[..] == src[..StrLen(src)] + [NUL] + old(dest[StrLen(src) + 1..])
  {
    var i := 0;
    ghost var n := StrLen(src);
    while src[i] != NUL
      invariant i <= n
      invariant dest[..i] == src[..i] && dest[n + 1..] == old(dest[n + 1..])
      decreases n - i
    {
      dest[i] := src[i];
      i := i + 1;
    }
    dest[i] := NUL;
    assert dest[..] == dest[..n] + [dest[n]] + dest[n + 1..];
  }

  /** strncmp(a, b, n) == 0. */
  predicate StrncmpEqual(a: seq<Byte>, b: seq<Byte>, n: nat)
    requires StrLen(a) < |a| && StrLen(b) < |b|
    decreases n
  {
    n == 0 || (a[0] == b[0] && (a[0] == NUL || StrncmpEqual(a[1..], b[1..], n - 1)))
  }

  /** The string s holds, cut to its first n bytes. */
  function Cut(s: seq<Byte>, n: nat): seq<Byte> {
    s[..if StrLen(s) < n then StrLen(s) else n]
  }

  lemma CutCons(s: seq<Byte>, n: nat)
    requires s != [] && s[0] != NUL && n > 0
    ensures Cut(s, n) == [s[0]] + Cut(s[1..], n - 1)
  {
  }

  /** strncmp succeeds exactly when the two strings are the same as far as n bytes of them go. */
  lemma {:induction false} StrncmpMeaning(a: seq<Byte>, b: seq<Byte>, n: nat)
    requires StrLen(a) < |a| && StrLen(b) < |b|
    ensures StrncmpEqual(a, b, n) <==> Cut(a, n) == Cut(b, n)
    decreases n
  {
    if n > 0 {
      if a[0] != NUL { CutCons(a, n); }
      if b[0] != NUL { CutCons(b, n); }
      if a[0] == b[0] && a[0] != NUL {
        StrncmpMeaning(a[1..], b[1..], n - 1);
        assert Cut(a, n)[1..] == Cut(a[1..], n - 1) && Cut(b, n)[1..] == Cut(b[1..], n - 1);
      } else if a[0] != b[0] {
        assert Cut(a, n) != [] ==> Cut(a, n)[0] == a[0];
        assert Cut(b, n) != [] ==> Cut(b, n)[0] == b[0];
      }
    }
  }
}
