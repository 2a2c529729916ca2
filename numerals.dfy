/** Decimal numerals as the C library and SQLite write and read them:
    itoa (and SQLite's text form of an integer column) and atoi. */
module Numerals {
  import opened StringHelpers

  predicate IsDigit(c: char) {
    '0' <= c <= '9'
  }

  function DigitChar(d: nat): (c: char)
    requires d < 10
    ensures IsDigit(c) && c as int - '0' as int == d
  {
    (d + '0' as int) as char
  }

  function DigitValue(c: char): nat
    requires IsDigit(c)
  {
    c as int - '0' as int
  }

  /** The decimal digits of `n`, most significant first, without leading
      zeros. */
  function NatToString(n: nat): string {
    if n < 10 then [DigitChar(n)] else NatToString(n / 10) + [DigitChar(n % 10)]
  }

  /** The decimal text of a natural number is a non-empty run of digits. */
  lemma {:induction false} NatToStringDigits(n: nat)
    ensures NatToString(n) != [] && forall i :: 0 <= i < |NatToString(n)| ==> IsDigit(NatToString(n)[i])
  {
    if n >= 10 {
      NatToStringDigits(n / 10);
    }
  }

  /** itoa(i, buf, 10): a minus sign for negative values, then the digits
      of the magnitude. */
  function IntToString(i: int): (r: string)
    ensures r != [] && (r[0] == '-' <==> i < 0)
  {
    NatToStringDigits(if i < 0 then -i else i);
    if i < 0 then "-" + NatToString(-i) else NatToString(i)
  }

  /** The value of a run of decimal digits; 0 for the empty run. */
  function DigitsValue(ds: string): nat
    requires forall i :: 0 <= i < |ds| ==> IsDigit(ds[i])
  {
    if ds == [] then 0 else 10 * DigitsValue(ds[..|ds| - 1]) + DigitValue(ds[|ds| - 1])
  }

  /** The longest prefix of `s` made of digits. */
  function LeadingDigits(s: string): (p: string)
    ensures |p| <= |s| && p == s[..|p|]
    ensures forall i :: 0 <= i < |p| ==> IsDigit(p[i])
    ensures |p| < |s| ==> !IsDigit(s[|p|])
  {
    if s != [] && IsDigit(s[0]) then [s[0]] + LeadingDigits(s[1..]) else []
  }

  /** atoi: skips leading whitespace, reads an optional sign and then the
      longest run of digits; a string without such digits reads as 0. */
  function Atoi(s: string): (r: int)
    ensures r < 0 ==> LTrimmed(s) != [] && LTrimmed(s)[0] == '-'
    ensures LTrimmed(s) == [] || (LTrimmed(s)[0] != '-' && LTrimmed(s)[0] != '+' && !IsDigit(LTrimmed(s)[0]))
      ==> r == 0
  {
    var t := LTrimmed(s);
    if t != [] && (t[0] == '-' || t[0] == '+') then
      var v: int := DigitsValue(LeadingDigits(t[1..]));
      if t[0] == '-' then -v else v
    else
      DigitsValue(LeadingDigits(t))
  }

  /** Reading back the digits of a natural number gives the number. */
  lemma {:induction false} DigitsValueOfNat(n: nat)
    ensures var s := NatToString(n); (forall i :: 0 <= i < |s| ==> IsDigit(s[i])) && DigitsValue(s) == n
  {
    NatToStringDigits(n);
    if n >= 10 {
      DigitsValueOfNat(n / 10);
      var s := NatToString(n);
      assert s[..|s| - 1] == NatToString(n / 10);
    }
  }

  /** A string that does not start with white space is what atoi starts
      reading from. */
  lemma LTrimmedKeeps(s: string)
    requires s != [] && !IsSpace(s[0])
    ensures LTrimmed(s) == s
  {
    assert |LTrimmed(s)| == |s|;
    LTrimmedIsSuffix(s);
  }

  /** The leading digits of a run of digits followed by a non-digit (or
      by nothing) are that run. */
  lemma {:induction false} LeadingDigitsOf(ds: string, rest: string)
    requires forall i :: 0 <= i < |ds| ==> IsDigit(ds[i])
    requires rest == [] || !IsDigit(rest[0])
    ensures LeadingDigits(ds + rest) == ds
  {
    if ds == [] {
      assert ds + rest == rest;
    } else {
      assert (ds + rest)[1..] == ds[1..] + rest;
      LeadingDigitsOf(ds[1..], rest);
    }
  }

  /** atoi reads back the digits of a natural number followed by anything
      that does not start with a digit. */
  lemma AtoiOfDigitsThen(n: nat, rest: string)
    requires rest == [] || !IsDigit(rest[0])
    ensures Atoi(NatToString(n) + rest) == n
  {
    var digits := NatToString(n);
    DigitsValueOfNat(n);
    LeadingDigitsOf(digits, rest);
    var s := digits + rest;
    assert s[0] == digits[0];
    LTrimmedKeeps(s);
  }

  /** The same after a minus sign. */
  lemma AtoiOfNegativeThen(n: nat, rest: string)
    requires rest == [] || !IsDigit(rest[0])
    ensures Atoi("-" + NatToString(n) + rest) == 0 - n
  {
    var digits := NatToString(n);
    DigitsValueOfNat(n);
    LeadingDigitsOf(digits, rest);
    var s := "-" + digits + rest;
    assert s[0] == '-' && s[1..] == digits + rest;
    LTrimmedKeeps(s);
    assert Atoi(s) == 0 - DigitsValue(LeadingDigits(s[1..]));
  }

  /** atoi stops at the first character after the number: reading the
      itoa text of `i` followed by anything that does not start with a
      digit gives back `i`. */
  lemma AtoiOfIntToStringThen(i: int, rest: string)
    requires rest == [] || !IsDigit(rest[0])
    ensures Atoi(IntToString(i) + rest) == i
  {
    if i < 0 {
      AtoiOfNegativeThen(-i, rest);
    } else {
      AtoiOfDigitsThen(i, rest);
    }
  }

  /** atoi undoes itoa: a version number written with itoa and read back
      with atoi is unchanged. */
  lemma AtoiOfIntToString(i: int)
    ensures Atoi(IntToString(i)) == i
  {
    AtoiOfIntToStringThen(i, []);
    assert IntToString(i) + [] == IntToString(i);
  }
}
