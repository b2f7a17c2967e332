/** Decimal rendering of integers, as JavaScript's `String(n)` / template
    interpolation produces it for whole numbers, together with a parser that
    reads such a rendering back. The parser is the partner that shows the
    rendering loses nothing. */
module Decimal {
  import opened Wrappers

  predicate IsDigit(c: char) {
    '0' <= c <= '9'
  }

  predicate AllDigits(s: string) {
    forall i :: 0 <= i < |s| ==> IsDigit(s[i])
  }

  function DigitChar(d: nat): (c: char)
    requires d < 10
    ensures IsDigit(c) && DigitValue(c) == d
  {
    (48 + d) as char
  }

  function DigitValue(c: char): (d: nat)
    requires IsDigit(c)
    ensures d < 10
  {
    c as int - 48
  }

  /** The decimal digits of `n`, most significant first, without leading zeros. */
  function NatToString(n: nat): (s: string)
    ensures |s| > 0 && AllDigits(s)
    ensures n >= 10 ==> s[0] != '0'
  {
    if n < 10 then [DigitChar(n)] else NatToString(n / 10) + [DigitChar(n % 10)]
  }

  /** JavaScript's rendering of a whole number: a minus sign for negatives. */
  function IntToString(i: int): string {
    if i < 0 then "-" + NatToString(-i) else NatToString(i)
  }

  /** The value of a string of digits read most significant first. */
  function DigitsValue(s: string): nat
    requires AllDigits(s)
  {
    if |s| == 0 then 0 else DigitsValue(s[..|s| - 1]) * 10 + DigitValue(s[|s| - 1])
  }

  /** The length of the longest all-digit prefix of `s`. */
  function LeadingDigits(s: string): (k: nat)
    ensures k <= |s|
    ensures AllDigits(s[..k])
    ensures k < |s| ==> !IsDigit(s[k])
  {
    if |s| == 0 || !IsDigit(s[0]) then 0
    else
      var k := 1 + LeadingDigits(s[1..]);
      assert s[..k] == [s[0]] + s[1..][..k - 1];
      k
  }

  /** Reads a leading run of digits; fails when `s` does not start with one. */
  function ParseNat(s: string): Option<(nat, string)> {
    var k := LeadingDigits(s);
    if k == 0 then None else Some((DigitsValue(s[..k]), s[k..]))
  }

  /** Reads a whole string as an optionally negative decimal integer. */
  function ParseInt(s: string): Option<int> {
    if |s| > 0 && s[0] == '-' then
      match ParseNat(s[1..])
      case Some((n, rest)) => if rest == "" then Some(0 - n as int) else None
      case None => None
    else
      match ParseNat(s)
      case Some((n, rest)) => if rest == "" then Some(n) else None
      case None => None
  }

  /** True when `rest` cannot extend a run of digits written before it. */
  predicate DigitBoundary(rest: string) {
    rest == [] || !IsDigit(rest[0])
  }

  lemma {:induction false} DigitsValueOfNatToString(n: nat)
    ensures DigitsValue(NatToString(n)) == n
  {
    if n >= 10 {
      var s := NatToString(n);
      var p := NatToString(n / 10);
      assert s == p + [DigitChar(n % 10)];
      assert s[..|s| - 1] == p;
      DigitsValueOfNatToString(n / 10);
    }
  }

  lemma {:induction false} LeadingDigitsOfConcat(digits: string, rest: string)
    requires AllDigits(digits)
    requires DigitBoundary(rest)
    ensures LeadingDigits(digits + rest) == |digits|
  {
    if |digits| > 0 {
      assert (digits + rest)[1..] == digits[1..] + rest;
      LeadingDigitsOfConcat(digits[1..], rest);
    }
  }

  /** Reading back a rendered number recovers it and leaves the suffix alone. */
  lemma ParseNatOfNatToString(n: nat, rest: string)
    requires DigitBoundary(rest)
    ensures ParseNat(NatToString(n) + rest) == Some((n, rest))
  {
    var s := NatToString(n);
    LeadingDigitsOfConcat(s, rest);
    assert (s + rest)[..|s|] == s;
    assert (s + rest)[|s|..] == rest;
    DigitsValueOfNatToString(n);
  }

  /** The rendering of a whole number parses back to that number. */
  lemma ParseIntOfIntToString(i: int)
    ensures ParseInt(IntToString(i)) == Some(i)
  {
    if i < 0 {
      var s := IntToString(i);
      assert s[1..] == NatToString(-i) + "";
      ParseNatOfNatToString(-i, "");
    } else {
      assert IntToString(i) == NatToString(i) + "";
      ParseNatOfNatToString(i, "");
    }
  }

  /** Distinct numbers render to distinct strings. */
  lemma NatToStringInjective(a: nat, b: nat)
    ensures NatToString(a) == NatToString(b) <==> a == b
  {
    DigitsValueOfNatToString(a);
    DigitsValueOfNatToString(b);
  }
}
