/** Database lines: how extrac_signature reads one, and that it inverts the printed format. */
module Signature {
  import opened CString

  const SIG_SIZE := 20

  datatype Signature = Signature(name: seq<Byte>, sig: seq<Byte>)

  // ---- strtol(temp, _, 16) on a buffer of exactly two characters ----

  predicate IsBlank(c: Byte) {
    c == SPACE || 9 <= c <= 13
  }

  /** The value of a hexadecimal digit character, or -1. */
  function DigitValue(c: Byte): (v: int)
    ensures -1 <= v < 16
  {
    if 48 <= c <= 57 then c - 48
    else if 97 <= c <= 102 then c - 87
    else if 65 <= c <= 70 then c - 55
    else -1
  }

  function OneDigit(c: Byte): (v: int)
    ensures 0 <= v < 16
  {
    if DigitValue(c) < 0 then 0 else DigitValue(c)
  }

  /** Leading blanks are skipped, a sign is taken, parsing stops at the first non-digit. */
  function Strtol16(a: Byte, b: Byte): (v: int)
    ensures -16 < v < 256
  {
    if IsBlank(a) || a == 43 then OneDigit(b)
    else if a == 45 then -OneDigit(b)
    else if DigitValue(a) < 0 then 0
    else if DigitValue(b) < 0 then DigitValue(a)
    else 16 * DigitValue(a) + DigitValue(b)
  }

  /** strtol with base 16 on a whole string (section 7.22.1.4 of ISO C11): blanks, a sign, an
      optional 0x before a digit, then digits up to the first other character. */
  function Strtol(s: seq<Byte>): int {
    if s == [] then 0
    else if IsBlank(s[0]) then Strtol(s[1..])
    else if s[0] == 45 then -Digits(SkipPrefix(s[1..]), 0)
    else if s[0] == 43 then Digits(SkipPrefix(s[1..]), 0)
    else Digits(SkipPrefix(s), 0)
  }

  function SkipPrefix(s: seq<Byte>): seq<Byte> {
    if |s| >= 3 && s[0] == 48 && (s[1] == 120 || s[1] == 88) && DigitValue(s[2]) >= 0 then s[2..] else s
  }

  function Digits(s: seq<Byte>, acc: int): int {
    if s == [] || DigitValue(s[0]) < 0 then acc else Digits(s[1..], 16 * acc + DigitValue(s[0]))
  }

  lemma LastDigit(b: Byte, acc: int)
    ensures Digits([b], acc) == if DigitValue(b) < 0 then acc else 16 * acc + DigitValue(b)
  {
    assert Digits([], 16 * acc + DigitValue(b)) == 16 * acc + DigitValue(b);
  }

  /** On two characters the general rule is the case distinction above. */
  lemma TwoCharacterStrtol(a: Byte, b: Byte)
    ensures Strtol16(a, b) == Strtol([a, b])
  {
    assert [a, b][1..] == [b] && [b][1..] == [];
    LastDigit(b, 0);
    if IsBlank(a) {
      assert SkipPrefix([b]) == [b] && SkipPrefix([]) == [];
      assert Strtol([b]) == OneDigit(b);
    } else if DigitValue(a) >= 0 {
      LastDigit(b, DigitValue(a));
      assert SkipPrefix([a, b]) == [a, b];
      assert Digits([a, b], 0) == Digits([b], DigitValue(a));
    }
  }

  /** The cast to char, as an unsigned byte. */
  function ToChar(v: int): Byte {
    v % 256
  }

  const LOWER := "0123456789abcdef"
  const UPPER := "0123456789ABCDEF"

  /** The digits are the sixteen characters in either case, with their positions as values. */
  lemma DigitMeaning(c: Byte)
    ensures forall v :: 0 <= v < 16 && (c == LOWER[v] as int || c == UPPER[v] as int) ==> DigitValue(c) == v
    ensures DigitValue(c) == -1 <==> forall v :: 0 <= v < 16 ==> c != LOWER[v] as int && c != UPPER[v] as int
  {
    var v := DigitValue(c);
    if v >= 0 {
      assert c == LOWER[v] as int || c == UPPER[v] as int;
    }
  }

  /** The byte stored for two characters: two digits spell it; a blank or a plus sign stands for a
      leading zero, a minus sign negates modulo 256, a second character that is no digit is ignored,
      and anything else is 0. */
  lemma StoredByte(a: Byte, b: Byte)
    ensures
      var v, w, r := DigitValue(a), DigitValue(b), ToChar(Strtol16(a, b));
      if v >= 0 then r == (if w >= 0 then 16 * v + w else v)
      else if w < 0 then r == 0
      else if a in {9, 10, 11, 12, 13, 32, 43} then r == w
      else if a == 45 then (r + w) % 256 == 0
      else r == 0
  {
  }

  // ---- Reading a line ----

  function NameLength(read: seq<Byte>): nat {
    Span(read, {NUL, COMMA})
  }

  /** Where the k-th signature byte is spelled, counted from the first hexadecimal digit. */
  function HexOffset(k: nat): nat {
    5 * (k / 2) + 2 * (k % 2)
  }

  /** The buffer reaches as far as the parser reads: 3 + 49 characters after the name. */
  predicate Readable(read: seq<Byte>) {
    NameLength(read) + 51 < |read|
  }

  /** The k-th byte spelled by a hexadecimal field. */
  function HexByte(hex: seq<Byte>, k: nat): Byte
    requires HexOffset(k) + 1 < |hex|
  {
    ToChar(Strtol16(hex[HexOffset(k)], hex[HexOffset(k) + 1]))
  }

  function HexBytes(hex: seq<Byte>): (sig: seq<Byte>)
    requires |hex| >= 49
    ensures |sig| == SIG_SIZE
  {
    seq(SIG_SIZE, k requires 0 <= k < SIG_SIZE => HexByte(hex, k))
  }

  function Parse(read: seq<Byte>): (s: Signature)
    requires Readable(read)
    ensures |s.sig| == SIG_SIZE && NUL !in s.name && COMMA !in s.name
    ensures |s.name| == NameLength(read)
  {
    Signature(read[..NameLength(read)], HexBytes(read[NameLength(read) + 3..]))
  }

  /** The loop over the hexadecimal field: two bytes a turn, five characters apart. */
  method ReadHex(hex: seq<Byte>) returns (sig: array<Byte>)
    requires |hex| >= 49
    ensures fresh(sig) && sig[..] == HexBytes(hex)
  {
    sig := new Byte[SIG_SIZE];
    var i := 0;
    var i_s := 0;
    while i_s < SIG_SIZE
      invariant i_s % 2 == 0 && i_s <= SIG_SIZE && i == 5 * (i_s / 2)
      invariant forall k :: 0 <= k < i_s ==> sig[k] == HexBytes(hex)[k]
      decreases SIG_SIZE - i_s
    {
      assert HexOffset(i_s) == i && HexOffset(i_s + 1) == i + 2;
      var a := hex[i];
      i := i + 1;
      var b := hex[i];
      i := i + 1;
      sig[i_s] := ToChar(Strtol16(a, b));
      assert sig[i_s] == HexByte(hex, i_s);
      i_s := i_s + 1;

      a := hex[i];
      i := i + 1;
      b := hex[i];
      i := i + 1;
      sig[i_s] := ToChar(Strtol16(a, b));
      assert sig[i_s] == HexByte(hex, i_s);
      i_s := i_s + 1;

      i := i + 1;
    }
  }

  method ExtractSignature(read: seq<Byte>) returns (s: Signature)
    requires Readable(read)
    ensures s == Parse(read)
  {
    var index := 0;
    while read[index] != NUL && read[index] != COMMA
      invariant index <= NameLength(read)
      decreases NameLength(read) - index
    {
      index := index + 1;
    }
    SpanUnique(read, {NUL, COMMA}, index);

    var name := new Byte[index];
    var j := 0;
    while j < index
      invariant j <= index && name[..j] == read[..j]
    {
      name[j] := read[j];
      j := j + 1;
    }
    assert name[..] == name[..index];
    var sig := ReadHex(read[index + 3..]);
    s := Signature(name[..], sig[..]);
  }

  // ---- The printed format of rsrc/db.txt ----

  function HexDigit(v: int): (c: Byte)
    requires 0 <= v < 16
    ensures DigitValue(c) == v && !IsBlank(c) && c != 43 && c != 45
  {
    if v < 10 then 48 + v else 87 + v
  }

  function PrintGroup(a: Byte, b: Byte): seq<Byte> {
    [HexDigit(a / 16), HexDigit(a % 16), HexDigit(b / 16), HexDigit(b % 16)]
  }

  /** Groups of two bytes, a single space between groups. */
  function PrintGroups(sig: seq<Byte>): seq<Byte>
    requires |sig| % 2 == 0
  {
    if sig == [] then []
    else if |sig| == 2 then PrintGroup(sig[0], sig[1])
    else PrintGroup(sig[0], sig[1]) + [SPACE] + PrintGroups(sig[2..])
  }

  function PrintLine(name: seq<Byte>, sig: seq<Byte>): seq<Byte>
    requires |sig| == SIG_SIZE
  {
    name + [COMMA, SPACE, SPACE] + PrintGroups(sig)
  }

  lemma {:induction false} PrintedLength(sig: seq<Byte>)
    requires |sig| % 2 == 0
    ensures |PrintGroups(sig)| == if sig == [] then 0 else 5 * (|sig| / 2) - 1
  {
    if |sig| > 2 { PrintedLength(sig[2..]); }
  }

  lemma {:induction false} PrintedDigits(sig: seq<Byte>, k: nat)
    requires |sig| % 2 == 0 && k < |sig|
    ensures HexOffset(k) + 1 < |PrintGroups(sig)|
    ensures PrintGroups(sig)[HexOffset(k)] == HexDigit(sig[k] / 16)
    ensures PrintGroups(sig)[HexOffset(k) + 1] == HexDigit(sig[k] % 16)
  {
    if k >= 2 {
      assert HexOffset(k) == HexOffset(k - 2) + 5;
      PrintedDigits(sig[2..], k - 2);
    } else {
      PrintedLength(sig);
    }
  }

  lemma PrintedNameLength(name: seq<Byte>, sig: seq<Byte>, tail: seq<Byte>)
    requires |sig| == SIG_SIZE && NUL !in name && COMMA !in name
    ensures NameLength(PrintLine(name, sig) + tail) == |name|
  {
    var read := PrintLine(name, sig) + tail;
    assert forall k :: 0 <= k < |name| ==> read[k] == name[k] && read[k] in name;
    SpanUnique(read, {NUL, COMMA}, |name|);
  }

  /** The hexadecimal field gives back the bytes, whatever follows it. */
  lemma BytesInvertPrint(sig: seq<Byte>, tail: seq<Byte>)
    requires |sig| == SIG_SIZE && |PrintGroups(sig)| == 49
    ensures HexBytes(PrintGroups(sig) + tail) == sig
  {
    var g := PrintGroups(sig);
    forall k: nat | k < SIG_SIZE
      ensures HexByte(g + tail, k) == sig[k]
    {
      PrintedDigits(sig, k);
    }
  }

  /** Whatever follows the printed entry on its line (a newline, trailing blanks, the
      terminator), the parser returns exactly the name and the signature that were printed. */
  lemma ParseInvertsPrint(name: seq<Byte>, sig: seq<Byte>, tail: seq<Byte>)
    requires |sig| == SIG_SIZE && NUL !in name && COMMA !in name
    requires tail != []
    ensures Readable(PrintLine(name, sig) + tail)
    ensures Parse(PrintLine(name, sig) + tail) == Signature(name, sig)
  {
    var read := PrintLine(name, sig) + tail;
    PrintedLength(sig);
    PrintedNameLength(name, sig, tail);
    assert read[|name| + 3..] == PrintGroups(sig) + tail;
    BytesInvertPrint(sig, tail);
    assert read[..|name|] == name;
  }

  /** Two different entries never print alike: the format is unambiguous. */
  lemma PrintIsInjective(a: Signature, b: Signature)
    requires |a.sig| == SIG_SIZE && NUL !in a.name && COMMA !in a.name
    requires |b.sig| == SIG_SIZE && NUL !in b.name && COMMA !in b.name
    ensures PrintLine(a.name, a.sig) == PrintLine(b.name, b.sig) ==> a == b
  {
    ParseInvertsPrint(a.name, a.sig, [NUL]);
    ParseInvertsPrint(b.name, b.sig, [NUL]);
  }
}
