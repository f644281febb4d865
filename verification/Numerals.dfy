/**
  Conversion of numbers to text: itoa, the in-place strrev it ends with, and the %d and %#x
  conversions of printf.
 */
module Numerals {
  import opened Common
  import opened CStrings

  const ZERO: byte := 48
  const MINUS: byte := 45

  /** Character i of the lookup table "0..9A..Z". */
  function Digit(i: nat): byte
    requires i < 36
  {
    if i < 10 then ZERO + i else 65 + (i - 10)
  }

  function DigitValue(c: byte): int {
    if c <= 57 then c - ZERO else c - 65 + 10
  }

  /** The number a string of digits denotes. */
  function Value(s: seq<byte>, radix: nat): int {
    if s == [] then 0 else Value(s[..|s| - 1], radix) * radix + DigitValue(s[|s| - 1])
  }

  /** A numeral: digits below the radix, and no leading zero except for zero itself. */
  predicate Canonical(s: seq<byte>, radix: nat) {
    && s != []
    && (forall k :: 0 <= k < |s| ==> 0 <= DigitValue(s[k]) < Min(radix, 36) && Digit(DigitValue(s[k])) == s[k])
    && (|s| > 1 ==> s[0] != ZERO)
  }

  /** Division as repeated subtraction. */
  function Quotient(v: nat, radix: nat): (q: nat)
    requires 2 <= radix
    ensures v < radix ==> q == 0
    ensures v >= radix ==> 0 < q < v
  {
    if v < radix then 0 else 1 + Quotient(v - radix, radix)
  }

  function Remainder(v: nat, radix: nat): (m: nat)
    requires 2 <= radix
    ensures m < radix
    ensures v < radix ==> m == v
  {
    if v < radix then v else Remainder(v - radix, radix)
  }

  function Numeral(v: nat, radix: nat): (s: seq<byte>)
    requires 2 <= radix <= 36
    ensures s != [] && NUL !in s
  {
    if v < radix then [Digit(v)] else Numeral(Quotient(v, radix), radix) + [Digit(Remainder(v, radix))]
  }

  lemma {:induction false} DivMod(v: nat, radix: nat)
    requires 2 <= radix
    ensures v == Quotient(v, radix) * radix + Remainder(v, radix)
  {
    if v >= radix {
      DivMod(v - radix, radix);
      assert Quotient(v, radix) * radix == Quotient(v - radix, radix) * radix + radix;
    }
  }

  lemma SmallMultiple(x: int, radix: nat)
    requires 2 <= radix
    ensures x > 0 ==> x * radix >= radix
    ensures x < 0 ==> x * radix <= 0 - radix
  {
  }

  lemma OnlyQuotient(w: int, d: nat, q: int, m: nat, radix: nat)
    requires 2 <= radix && w * radix + d == q * radix + m && d < radix && m < radix
    ensures w == q && d == m
  {
    SmallMultiple(q - w, radix);
    assert (q - w) * radix == q * radix - w * radix;
  }

  /** The machine's division gives the same. */
  lemma MachineDivision(v: nat, radix: nat)
    requires 2 <= radix
    ensures v / radix == Quotient(v, radix) && v % radix == Remainder(v, radix)
  {
    DivMod(v, radix);
    assert v == v / radix * radix + v % radix;
    OnlyQuotient(v / radix, v % radix, Quotient(v, radix), Remainder(v, radix), radix);
  }

  lemma ValueOfLast(s: seq<byte>, c: byte, radix: nat)
    ensures Value(s + [c], radix) == Value(s, radix) * radix + DigitValue(c)
  {
    assert (s + [c])[..|s|] == s;
  }

  lemma CanonicalLast(s: seq<byte>, d: nat, radix: nat)
    requires Canonical(s, radix) && s[0] != ZERO && d < Min(radix, 36)
    ensures Canonical(s + [Digit(d)], radix)
  {
  }

  /** Reading back what was written. */
  lemma {:induction false} ValueOfNumeral(v: nat, radix: nat)
    requires 2 <= radix <= 36
    ensures Value(Numeral(v, radix), radix) == v
    ensures Canonical(Numeral(v, radix), radix)
    ensures Numeral(v, radix)[0] == ZERO ==> v == 0
  {
    if v < radix {
      ValueOfLast([], Digit(v), radix);
      assert [] + [Digit(v)] == [Digit(v)];
    } else {
      var q, m := Quotient(v, radix), Remainder(v, radix);
      DivMod(v, radix);
      ValueOfNumeral(q, radix);
      ValueOfLast(Numeral(q, radix), Digit(m), radix);
      CanonicalLast(Numeral(q, radix), m, radix);
    }
  }

  /** Writing what was read back: a numeral is the only one of its number. */
  lemma {:induction false} NumeralOfValue(s: seq<byte>, radix: nat)
    requires 2 <= radix <= 36 && Canonical(s, radix)
    ensures Value(s, radix) >= 0 && Numeral(Value(s, radix), radix) == s
    ensures Value(s, radix) == 0 ==> s == [ZERO]
  {
    var n := |s| - 1;
    var d := DigitValue(s[n]);
    var front := s[..n];
    assert s == front + [s[n]];
    ValueOfLast(front, s[n], radix);
    if n == 0 {
      assert Value(front, radix) == 0;
    } else {
      assert front[0] == s[0];
      NumeralOfValue(front, radix);
      QuotientRemainder(Value(front, radix), radix, d);
    }
  }

  lemma DigitIs(i: nat)
    requires i < 36
    ensures Digit(i) == Text("0123456789ABCDEFGHIJKLMNOPQRSTUVWXYZ")[i]
  {
  }

  lemma QuotientRemainder(w: nat, radix: nat, d: nat)
    requires 0 < w && 2 <= radix && d < radix
    ensures w * radix + d >= radix
    ensures Quotient(w * radix + d, radix) == w && Remainder(w * radix + d, radix) == d
  {
    var v := w * radix + d;
    SmallMultiple(w, radix);
    DivMod(v, radix);
    OnlyQuotient(w, d, Quotient(v, radix), Remainder(v, radix), radix);
  }

  lemma {:induction false} LeadingZeros(n: nat, s: seq<byte>, radix: nat)
    ensures Value(seq(n, i => ZERO) + s, radix) == Value(s, radix)
  {
    var z := seq(n, i => ZERO);
    if s == [] {
      assert z + s == z;
      if n > 0 {
        assert z[..n - 1] == seq(n - 1, i => ZERO) + [];
        LeadingZeros(n - 1, [], radix);
      }
    } else {
      assert (z + s)[..|z + s| - 1] == z + s[..|s| - 1];
      LeadingZeros(n, s[..|s| - 1], radix);
    }
  }

  function Power(b: nat, e: nat): nat {
    if e == 0 then 1 else b * Power(b, e - 1)
  }

  lemma {:induction false} NumeralLength(v: nat, radix: nat, n: nat)
    requires 2 <= radix <= 36 && 0 < n && v < Power(radix, n)
    ensures |Numeral(v, radix)| <= n
  {
    if v >= radix {
      var q, m := Quotient(v, radix), Remainder(v, radix);
      DivMod(v, radix);
      SmallerQuotient(v, q, m, radix, Power(radix, n - 1));
      NumeralLength(q, radix, n - 1);
    }
  }

  lemma SmallerQuotient(v: nat, q: nat, m: nat, radix: nat, p: nat)
    requires 2 <= radix && v == q * radix + m && v < radix * p
    ensures q < p
  {
    SmallMultiple(q - p, radix);
    assert (q - p) * radix == q * radix - radix * p;
  }

  lemma HexFits(v: uint32)
    ensures |Numeral(v, 16)| <= 8
  {
    assert Power(16, 4) == 0x1_0000;
    assert Power(16, 6) == 0x100_0000;
    assert Power(16, 8) == 0x1_0000_0000;
    NumeralLength(v, 16, 8);
  }

  lemma DecimalFits(v: uint32)
    ensures |Numeral(v, 10)| <= 10
  {
    assert Power(10, 4) == 10_000;
    assert Power(10, 6) == 1_000_000;
    assert Power(10, 8) == 100_000_000;
    assert Power(10, 10) == 10_000_000_000;
    NumeralLength(v, 10, 10);
  }

  // ---------- strrev ----------

  function Reversed(s: seq<byte>): (r: seq<byte>)
    ensures |r| == |s|
  {
    if s == [] then [] else Reversed(s[1..]) + [s[0]]
  }

  lemma {:induction false} ReversedAt(s: seq<byte>, k: nat)
    requires k < |s|
    ensures Reversed(s)[k] == s[|s| - 1 - k]
  {
    if k < |s| - 1 {
      ReversedAt(s[1..], k);
    }
  }

  /** Reversing twice gives the string back, and keeps it a string. */
  lemma ReversedTwice(s: seq<byte>)
    ensures Reversed(Reversed(s)) == s
    ensures NUL in Reversed(s) <==> NUL in s
  {
    forall k | 0 <= k < |s| ensures Reversed(Reversed(s))[k] == s[k] && Reversed(s)[|s| - 1 - k] == s[k] {
      ReversedAt(Reversed(s), k);
      ReversedAt(s, |s| - 1 - k);
    }
    forall k | 0 <= k < |s| ensures Reversed(s)[k] == s[|s| - 1 - k] {
      ReversedAt(s, k);
    }
  }

  /** r is s with its outer b characters on both sides already exchanged. */
  ghost predicate Exchanged(s: seq<byte>, b: nat, r: seq<byte>) {
    && |r| == |s|
    && forall i {:trigger r[i]} :: 0 <= i < |s| ==> r[i] == if i < b || i >= |s| - b then s[|s| - 1 - i] else s[i]
  }

  lemma ExchangeOne(s: seq<byte>, b: nat, r: seq<byte>)
    requires 2 * b + 1 < |s| && Exchanged(s, b, r)
    ensures r[b] == s[b] && r[|s| - 1 - b] == s[|s| - 1 - b]
    ensures Exchanged(s, b + 1, r[|s| - 1 - b := r[b]][b := r[|s| - 1 - b]])
  {
  }

  lemma AllExchanged(s: seq<byte>, b: nat, r: seq<byte>)
    requires |s| <= 2 * b + 1 && Exchanged(s, b, r)
    ensures r == Reversed(s)
  {
    forall i | 0 <= i < |s| ensures r[i] == Reversed(s)[i] {
      ReversedAt(s, i);
    }
  }

  method Strrev(s: array<byte>, at: nat, ghost text: seq<byte>)
    requires IsCString(s[..], at, text)
    modifies s
    ensures s[..] == Splice(old(s[..]), at, Reversed(text))
    ensures IsCString(s[..], at, Reversed(text))
  {
    ghost var s0 := s[..];
    var len := Strlen(s, at, text);
    CStringIff(s0, at, text);
    SpliceIff(s0, at, text, s0);
    ReverseRange(s, at, len, text);
    ReversedTwice(text);
    SpliceIff(s0, at, Reversed(text), s[..]);
    CStringIff(s[..], at, Reversed(text));
  }

  /** The exchanging loop of strrev. */
  method ReverseRange(s: array<byte>, at: nat, len: nat, ghost text: seq<byte>)
    requires at + len <= s.Length && |text| == len && s[..] == Splice(s[..], at, text)
    modifies s
    ensures s[..] == Splice(old(s[..]), at, Reversed(text))
  {
    ghost var t := text;
    var beg: nat, end := 0, len - 1;
    while beg < end
      invariant end == len - 1 - beg
      invariant beg <= end + 2
      invariant Exchanged(text, beg, t) && s[..] == Splice(old(s[..]), at, t)
    {
      SwapStep(old(s[..]), at, t, beg, end);
      ExchangeOne(text, beg, t);
      t := t[end := t[beg]][beg := t[end]];
      var tmp := s[at + end];
      s[at + end] := s[at + beg];
      s[at + beg] := tmp;
      beg := beg + 1;
      end := end - 1;
    }
    AllExchanged(text, beg, t);
  }

  lemma SwapStep(s: seq<byte>, at: nat, t: seq<byte>, beg: nat, end: nat)
    requires at + |t| <= |s| && beg < end < |t|
    ensures var r := Splice(s, at, t);
      && r[at + end] == t[end] && r[at + beg] == t[beg]
      && r[at + end := t[beg]][at + beg := t[end]] == Splice(s, at, t[end := t[beg]][beg := t[end]])
  {
    SpliceUpdate(s, at, t, end, t[beg]);
    SpliceUpdate(s, at, t, beg, t[beg]);
    SpliceUpdate(s, at, t[end := t[beg]], beg, t[end]);
  }

  // ---------- itoa ----------

  /** The digits in the order in which the loop of itoa finds them. */
  function LowFirst(v: nat, radix: nat): seq<byte>
    requires 2 <= radix <= 36
  {
    if v == 0 then [] else [Digit(Remainder(v, radix))] + LowFirst(Quotient(v, radix), radix)
  }

  lemma {:induction false} ReversedDigits(v: nat, radix: nat)
    requires 2 <= radix <= 36 && v > 0
    ensures Reversed(LowFirst(v, radix)) == Numeral(v, radix)
  {
    assert LowFirst(v, radix)[1..] == LowFirst(Quotient(v, radix), radix);
    if v >= radix {
      ReversedDigits(Quotient(v, radix), radix);
    } else {
      assert LowFirst(v, radix) == [Digit(v)];
    }
  }

  lemma LowFirstStep(digits: seq<byte>, n: nat, v: nat, radix: nat)
    requires 2 <= radix <= 36 && v > 0 && n <= |digits| && digits[n..] == LowFirst(v, radix)
    ensures n < |digits| && digits[n] == Digit(v % radix) && digits[n + 1..] == LowFirst(v / radix, radix)
  {
    MachineDivision(v, radix);
    assert digits[n..][0] == digits[n] && digits[n..][1..] == digits[n + 1..];
  }

  /** The loop of itoa and the NUL after it. */
  method WriteLowFirst(value: uint32, buf: array<byte>, at: nat, radix: nat)
    requires 2 <= radix <= 36 && at + |LowFirst(value, radix)| < buf.Length
    modifies buf
    ensures buf[..] == Splice(old(buf[..]), at, LowFirst(value, radix) + [NUL])
  {
    ghost var digits := LowFirst(value, radix);
    var newbuf, newval: nat := at, value;
    while newval > 0
      invariant at <= newbuf <= at + |digits| && digits[newbuf - at..] == LowFirst(newval, radix)
      invariant forall k :: 0 <= k < newbuf - at ==> buf[at + k] == digits[k]
      invariant forall k :: 0 <= k < buf.Length && !(at <= k < newbuf) ==> buf[k] == old(buf[k])
      decreases at + |digits| - newbuf
    {
      LowFirstStep(digits, newbuf - at, newval, radix);
      var i := newval % radix;
      buf[newbuf] := Digit(i);
      newbuf := newbuf + 1;
      newval := newval / radix;
    }
    buf[newbuf] := NUL;
    SplicedWhere(old(buf[..]), at, digits + [NUL], buf[..]);
  }

  method Itoa(value: uint32, buf: array<byte>, at: nat, radix: nat)
    requires 2 <= radix <= 36
    requires at + |Numeral(value, radix)| < buf.Length
    modifies buf
    ensures IsCString(buf[..], at, Numeral(value, radix))
    ensures buf[..] == Splice(old(buf[..]), at, Numeral(value, radix) + [NUL])
  {
    ghost var b0 := buf[..];
    if value == 0 {
      buf[at] := ZERO;
      buf[at + 1] := NUL;
      assert buf[..] == Splice(b0, at, [ZERO] + [NUL]);
      SplicedIsCString(b0, at, [ZERO]);
      return;
    }
    ghost var digits := LowFirst(value, radix);
    ReversedDigits(value, radix);
    ReversedTwice(digits);
    WriteLowFirst(value, buf, at, radix);
    ghost var low := buf[..];
    SplicedIsCString(b0, at, digits);
    Strrev(buf, at, digits);
    ResplicedTail(b0, at, digits, Numeral(value, radix), low, buf[..]);
  }

  lemma ResplicedTail(before: seq<byte>, at: nat, a: seq<byte>, b: seq<byte>, mid: seq<byte>, after: seq<byte>)
    requires |a| == |b| && at + |a| < |before|
    requires mid == Splice(before, at, a + [NUL]) && after == Splice(mid, at, b)
    ensures after == Splice(before, at, b + [NUL])
  {
  }

  // ---------- printf ----------

  function SignedValue(s: seq<byte>): int {
    if s != [] && s[0] == MINUS then -Value(s[1..], 10) else Value(s, 10)
  }

  lemma SignIs(s: seq<byte>)
    ensures SignedValue(Text("-") + s) == -Value(s, 10)
    ensures s == [] || s[0] != '-' as byte ==> SignedValue(s) == Value(s, 10)
  {
    assert (Text("-") + s)[1..] == s;
  }

  /** The %d conversion: the buffer holds the decimal text of the value. */
  method FormatSigned(value: int) returns (convBuf: array<byte>)
    requires -0x8000_0000 <= value < 0x8000_0000
    ensures var text := FieldText(convBuf[..]);
      && IsCString(convBuf[..], 0, text) && SignedValue(text) == value
      && (value < 0 ==> text[0] == MINUS && Canonical(text[1..], 10))
      && (value >= 0 ==> Canonical(text, 10))
  {
    convBuf := new byte[36];
    if value < 0 {
      DecimalFits(-value);
      convBuf[0] := MINUS;
      Itoa(-value, convBuf, 1, 10);
      SignedText(convBuf[..], -value);
    } else {
      DecimalFits(value);
      ValueOfNumeral(value, 10);
      Itoa(value, convBuf, 0, 10);
    }
    assert convBuf[..][0..] == convBuf[..];
  }

  lemma SignedText(buf: seq<byte>, v: nat)
    requires |Numeral(v, 10)| + 1 < |buf| && buf[0] == MINUS && IsCString(buf, 1, Numeral(v, 10))
    ensures var text := [MINUS] + Numeral(v, 10);
      && IsCString(buf, 0, text) && SignedValue(text) == 0 - v
      && text[1..] == Numeral(v, 10) && Canonical(text[1..], 10)
  {
    var digits := Numeral(v, 10);
    var text := [MINUS] + digits;
    ValueOfNumeral(v, 10);
    assert text[1..] == digits;
    CStringIff(buf, 1, digits);
    assert buf[0..|text|] == [buf[0]] + buf[1..1 + |digits|] == text;
    CStringIff(buf, 0, text);
  }

  /** The %#x conversion: the text that is printed starts inside the conversion buffer. */
  method FormatHex8(value: uint32) returns (convBuf: array<byte>, start: nat)
    ensures start <= convBuf.Length
    ensures var text := FieldText(convBuf[start..]);
      && IsCString(convBuf[..], start, text) && |text| == 8 && Value(text, 16) == value
      && forall k :: 0 <= k < 8 ==> 0 <= DigitValue(text[k]) < 16 && Digit(DigitValue(text[k])) == text[k]
  {
    convBuf := new byte[64];
    HexFits(value);
    Itoa(value, convBuf, 8, 16);
    start := Strlen(convBuf, 8, Numeral(value, 16));
    ghost var tail := convBuf[8..];
    assert convBuf[..][8..] == tail;
    var i := start;
    while i < 8
      invariant start <= i <= 8
      invariant convBuf[8..] == tail
      invariant forall k :: start <= k < i ==> convBuf[k] == ZERO
    {
      convBuf[i] := ZERO;
      i := i + 1;
    }
    PaddedHexDenotes(value);
    assert convBuf[..][8..] == tail;
    HexInBuffer(convBuf[..], value);
    assert convBuf[..][start..] == convBuf[start..];
  }

  lemma HexInBuffer(buf: seq<byte>, value: uint32)
    requires |buf| == 64 && IsCString(buf, 8, Numeral(value, 16))
    requires forall k :: |Numeral(value, 16)| <= k < 8 ==> buf[k] == ZERO
    ensures IsCString(buf, |Numeral(value, 16)|, PaddedHex(value))
  {
    var digits, start := Numeral(value, 16), |Numeral(value, 16)|;
    HexFits(value);
    PaddedHexDenotes(value);
    CStringIff(buf, 8, digits);
    assert buf[start..8] == seq(8 - start, k => ZERO);
    assert buf[start..start + 8] == buf[start..8] + buf[8..8 + start];
    CStringIff(buf, start, PaddedHex(value));
  }

  ghost function PaddedHex(value: uint32): (text: seq<byte>)
  {
    var digits := Numeral(value, 16);
    HexFits(value);
    seq(8 - |digits|, k => ZERO) + digits
  }

  lemma PaddedHexDenotes(value: uint32)
    ensures |PaddedHex(value)| == 8 && Value(PaddedHex(value), 16) == value && NUL !in PaddedHex(value)
    ensures forall k :: 0 <= k < 8 ==>
              var c := PaddedHex(value)[k];
              0 <= DigitValue(c) < 16 && Digit(DigitValue(c)) == c
  {
    HexFits(value);
    ValueOfNumeral(value, 16);
    LeadingZeros(8 - |Numeral(value, 16)|, Numeral(value, 16), 16);
  }
}
