// Printing and parsing of nonnegative integers, character by character, in base
// ten and base sixteen: what `int(o)`, `f"{a}"`, `f"{a:02x}"` and `int(s, 16)` do.
module Digits {
  import opened Basics

  datatype Radix = Ten | Sixteen

  function Of(base: Radix): nat {
    if base == Ten then 10 else 16
  }

  // Multiplication by the base, and the quotient and remainder of division by it.
  function Shift(base: Radix, n: nat): nat {
    if base == Ten then 10 * n else 16 * n
  }

  function High(base: Radix, n: nat): nat {
    if base == Ten then n / 10 else n / 16
  }

  function Low(base: Radix, n: nat): nat {
    if base == Ten then n % 10 else n % 16
  }

  function DigitChar(d: nat): char
    requires d < 16
  {
    if d < 10 then '0' + d as char else 'a' + (d - 10) as char
  }

  function DigitValue(c: char): (d: nat)
    ensures d <= 16
  {
    if '0' <= c <= '9' then (c - '0') as nat
    else if 'a' <= c <= 'f' then (c - 'a') as nat + 10
    else 16
  }

  predicate IsDigit(base: Radix, c: char) {
    DigitValue(c) < Of(base)
  }

  // A nonempty string of digits of the base.
  predicate IsNumeral(base: Radix, s: string) {
    s != "" && forall i :: 0 <= i < |s| ==> IsDigit(base, s[i])
  }

  // Most significant digit first, no leading zeros.
  function Print(base: Radix, n: nat): string
    decreases n
  {
    if n < Of(base) then [DigitChar(n)] else Print(base, High(base, n)) + [DigitChar(Low(base, n))]
  }

  // The numeral padded with zeros to at least two characters.
  function PrintPadded(base: Radix, n: nat): string
  {
    var s := Print(base, n);
    if |s| < 2 then "0" + s else s
  }

  function Value(base: Radix, s: string): nat {
    if s == "" then 0 else Shift(base, Value(base, s[..|s|-1])) + DigitValue(s[|s|-1])
  }

  // int(s, base) on plain numerals; anything else is a ValueError.
  function Parse(base: Radix, s: string): Option<nat> {
    if IsNumeral(base, s) then Some(Value(base, s)) else None
  }

  lemma DigitRoundTrip(d: nat)
    requires d < 16
    ensures DigitValue(DigitChar(d)) == d
  {}

  lemma DigitCharOf(c: char)
    requires DigitValue(c) < 16
    ensures DigitChar(DigitValue(c)) == c
  {}

  lemma {:induction false} PrintThenParse(base: Radix, n: nat)
    ensures Parse(base, Print(base, n)) == Some(n)
  {
    if n < Of(base) {
      DigitRoundTrip(n);
      assert Value(base, Print(base, n)[..0]) == 0;
    } else {
      PrintThenParse(base, High(base, n));
      DigitRoundTrip(Low(base, n));
      var front := Print(base, High(base, n));
      assert Print(base, n)[..|front|] == front;
    }
  }

  // The spelling a numeral must have to survive parsing and printing.
  predicate IsCanonical(base: Radix, s: string) {
    IsNumeral(base, s) && (s[0] == '0' ==> |s| == 1)
  }

  lemma {:induction false} PrintIsCanonical(base: Radix, n: nat)
    ensures IsCanonical(base, Print(base, n))
    ensures n > 0 ==> Print(base, n)[0] != '0'
  {
    PrintThenParse(base, n);
    if n >= Of(base) { PrintIsCanonical(base, High(base, n)); }
  }

  lemma {:induction false} ValuePositive(base: Radix, s: string)
    requires IsNumeral(base, s) && s[0] != '0'
    ensures Value(base, s) > 0
  {
    if |s| > 1 {
      ValuePositive(base, s[..|s|-1]);
    } else {
      assert s[..0] == "";
    }
  }

  lemma {:induction false} ParseThenPrint(base: Radix, s: string)
    requires IsNumeral(base, s)
    ensures Print(base, Value(base, s)) == s <==> IsCanonical(base, s)
  {
    if IsCanonical(base, s) {
      if |s| == 1 {
        assert s[..0] == "";
        DigitCharOf(s[0]);
      } else {
        var front := s[..|s|-1];
        ParseThenPrint(base, front);
        ValuePositive(base, front);
        DigitCharOf(s[|s|-1]);
        Quotient(base, Value(base, front), DigitValue(s[|s|-1]));
        assert s == front + [s[|s|-1]];
      }
    } else if Print(base, Value(base, s)) == s {
      PrintIsCanonical(base, Value(base, s));
    }
  }

  lemma Quotient(base: Radix, q: nat, d: nat)
    requires q > 0 && d < Of(base)
    ensures Shift(base, q) + d >= Of(base)
    ensures High(base, Shift(base, q) + d) == q && Low(base, Shift(base, q) + d) == d
  {}

  // Two hexadecimal digits for every value below 256, whatever its size.
  lemma TwoHexDigits(n: nat)
    requires n < 256
    ensures PrintPadded(Sixteen, n) == [DigitChar(n / 16), DigitChar(n % 16)]
  {
    assert n / 16 < 16;
    if n >= 16 { assert Print(Sixteen, n / 16) == [DigitChar(n / 16)]; }
  }

  lemma AppendHexByte(s: string, n: nat)
    requires n < 256 && (s == "" || IsNumeral(Sixteen, s))
    ensures IsNumeral(Sixteen, s + PrintPadded(Sixteen, n))
    ensures Value(Sixteen, s + PrintPadded(Sixteen, n)) == Value(Sixteen, s) * 256 + n
  {
    TwoHexDigits(n);
    var h, l := DigitChar(n / 16), DigitChar(n % 16);
    DigitRoundTrip(n / 16);
    DigitRoundTrip(n % 16);
    var t := s + [h, l];
    assert t[..|t|-1] == s + [h];
    assert (s + [h])[..|s|] == s;
  }

  // ---- what a decimal numeral stands for ----------------------------------

  predicate IsDecimal(s: string) {
    s != "" && forall i :: 0 <= i < |s| ==> '0' <= s[i] <= '9'
  }

  function PowerOfTen(n: nat): nat {
    if n == 0 then 1 else 10 * PowerOfTen(n - 1)
  }

  function DecimalDigit(c: char): nat
    requires '0' <= c <= '9'
  {
    c as nat - '0' as nat
  }

  function Times(a: nat, b: nat): nat {
    a * b
  }

  // Each digit times the power of ten of its place.
  function Decimal(s: string): nat
    requires forall i :: 0 <= i < |s| ==> '0' <= s[i] <= '9'
  {
    if s == "" then 0 else Times(DecimalDigit(s[0]), PowerOfTen(|s| - 1)) + Decimal(s[1..])
  }

  lemma {:induction false} OneMoreDigit(s: string)
    requires IsDecimal(s)
    ensures Decimal(s) == 10 * Decimal(s[..|s|-1]) + DecimalDigit(s[|s|-1])
  {
    if |s| > 1 {
      OneMoreDigit(s[1..]);
      var front := s[..|s|-1];
      assert s[1..][..|s|-2] == front[1..];
      TenTimes(DecimalDigit(s[0]), PowerOfTen(|s| - 2));
    } else {
      assert Decimal(s[1..]) == 0 && s[..0] == "";
    }
  }

  lemma TenTimes(d: nat, p: nat)
    ensures Times(d, 10 * p) == 10 * Times(d, p)
  {}

  lemma {:induction false} ValueIsDecimal(s: string)
    requires forall i :: 0 <= i < |s| ==> '0' <= s[i] <= '9'
    ensures Value(Ten, s) == Decimal(s)
  {
    if s != "" {
      ValueIsDecimal(s[..|s|-1]);
      OneMoreDigit(s);
    }
  }

  // Parsing takes exactly the nonempty strings of decimal digits, and gives the number
  // they stand for.
  lemma ParseMeaning(s: string)
    ensures Parse(Ten, s) == if IsDecimal(s) then Some(Decimal(s)) else None
  {
    if IsDecimal(s) {
      ValueIsDecimal(s);
    } else if s != "" {
      var i :| 0 <= i < |s| && !('0' <= s[i] <= '9');
      assert !IsDigit(Ten, s[i]);
    }
  }

  // Zeros in front do not matter.
  lemma LeadingZero(s: string)
    requires IsDecimal(s)
    ensures Parse(Ten, "0" + s) == Parse(Ten, s)
  {
    ParseMeaning(s);
    ParseMeaning("0" + s);
    assert ("0" + s)[1..] == s;
  }

  // Printing gives digits that stand for the number, without zeros in front.
  lemma PrintMeaning(n: nat)
    ensures IsDecimal(Print(Ten, n)) && Decimal(Print(Ten, n)) == n
    ensures Print(Ten, n)[0] == '0' <==> n == 0
    ensures n == 0 ==> Print(Ten, n) == "0"
  {
    PrintThenParse(Ten, n);
    ParseMeaning(Print(Ten, n));
    PrintIsCanonical(Ten, n);
  }
}
