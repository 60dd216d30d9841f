/**
 * Decimal numerals: how a template literal renders an integer, and the
 * value of a string of digits (which decides whether an object key counts
 * as an array index).
 */
module Decimal {

  predicate IsDigit(c: char)
  {
    '0' <= c <= '9'
  }

  predicate AllDigits(s: string)
  {
    forall i :: 0 <= i < |s| ==> IsDigit(s[i])
  }

  function DigitValue(c: char): nat
    requires IsDigit(c)
  {
    (c as int) - ('0' as int)
  }

  function DigitChar(d: nat): (c: char)
    requires d < 10
    ensures IsDigit(c) && DigitValue(c) == d
  {
    (('0' as int) + d) as char
  }

  /** The number a string of decimal digits denotes. */
  function DigitsValue(s: string): nat
    requires AllDigits(s)
  {
    if s == [] then 0 else 10 * DigitsValue(s[..|s| - 1]) + DigitValue(s[|s| - 1])
  }

  /** A numeral without leading zeros: the form `String(n)` produces. */
  predicate Canonical(s: string)
  {
    |s| >= 1 && AllDigits(s) && (s[0] != '0' || |s| == 1)
  }

  /** `String(n)` for a non-negative integer: the canonical numeral of n. */
  function NatToString(n: nat): (s: string)
    ensures Canonical(s)
    ensures DigitsValue(s) == n
  {
    if n < 10 then [DigitChar(n)]
    else
      var init := NatToString(n / 10);
      var s := init + [DigitChar(n % 10)];
      assert s[..|s| - 1] == init;
      assert init != "0";
      s
  }

  /** `String(i)` for any integer: a minus sign before the numeral of a negative one. */
  function IntToString(i: int): (s: string)
    ensures i >= 0 ==> Canonical(s) && DigitsValue(s) == i
    ensures i < 0 ==> |s| >= 2 && s[0] == '-' && Canonical(s[1..]) && DigitsValue(s[1..]) == -i
  {
    if i < 0 then
      var s := "-" + NatToString(-i);
      assert s[1..] == NatToString(-i);
      s
    else NatToString(i)
  }

  lemma {:induction false} LeadingDigitPositive(s: string)
    requires |s| >= 1 && AllDigits(s) && s[0] != '0'
    ensures DigitsValue(s) >= 1
  {
    if |s| > 1 {
      LeadingDigitPositive(s[..|s| - 1]);
    }
  }

  lemma DivideByTen(q: nat, r: nat)
    requires r < 10
    ensures (10 * q + r) / 10 == q && (10 * q + r) % 10 == r
  {
  }

  /** Reading a canonical numeral and writing the number back gives the same string. */
  lemma {:induction false} CanonicalRoundTrip(s: string)
    requires Canonical(s)
    ensures NatToString(DigitsValue(s)) == s
  {
    var last := s[|s| - 1];
    if |s| > 1 {
      var init := s[..|s| - 1];
      LeadingDigitPositive(init);
      CanonicalRoundTrip(init);
      var v := DigitsValue(s);
      assert v == 10 * DigitsValue(init) + DigitValue(last);
      DivideByTen(DigitsValue(init), DigitValue(last));
      assert v >= 10;
      assert NatToString(v) == NatToString(DigitsValue(init)) + [DigitChar(DigitValue(last))];
      assert DigitChar(DigitValue(last)) == last;
      assert s == init + [last];
    } else {
      assert DigitChar(DigitValue(last)) == last;
    }
  }

  /** Distinct canonical numerals denote distinct numbers. */
  lemma CanonicalInjective(a: string, b: string)
    requires Canonical(a) && Canonical(b)
    requires DigitsValue(a) == DigitsValue(b)
    ensures a == b
  {
    CanonicalRoundTrip(a);
    CanonicalRoundTrip(b);
  }
}
