/** Decimal text of integers as the scripts write it (`str(n)`, the `'{:d}'` format)
    and read it back (Python 2's `int(s)` on a string). */
module Numerals {
  import opened Basics

  predicate IsDigit(c: char)
  {
    '0' <= c <= '9'
  }

  predicate AllDigits(s: string)
  {
    forall i :: 0 <= i < |s| ==> IsDigit(s[i])
  }

  function DigitChar(d: nat): (c: char)
    requires d < 10
    ensures IsDigit(c) && c as int - '0' as int == d
  {
    (('0' as int) + d) as char
  }

  /** The value of a string of decimal digits, most significant first. */
  function DigitsValue(s: string): nat
    requires AllDigits(s)
  {
    if s == [] then 0
    else DigitsValue(s[..|s| - 1]) * 10 + (s[|s| - 1] as int - '0' as int)
  }

  /** `str(n)` for `n >= 0`: no leading zeros, at least one digit. */
  function NatToString(n: nat): (r: string)
    ensures |r| >= 1 && AllDigits(r)
    decreases n
  {
    if n < 10 then [DigitChar(n)] else NatToString(n / 10) + [DigitChar(n % 10)]
  }

  /** `str(n)`: a minus sign before the digits of a negative number. */
  function IntToString(n: int): (r: string)
    ensures |r| >= 1
  {
    if n < 0 then "-" + NatToString(-n) else NatToString(n)
  }

  /** `str(n)` holds only digits and a minus sign, and starts and ends with no space. */
  lemma NumeralChars(n: int)
    ensures var r := IntToString(n);
      && !IsSpace(r[0]) && !IsSpace(r[|r| - 1])
      && forall i :: 0 <= i < |r| ==> IsDigit(r[i]) || r[i] == '-'
  {
  }

  /** The digits-only part of `int(s)`: a non-empty run of decimal digits. */
  function ParseNat(s: string): Option<nat>
  {
    if |s| > 0 && AllDigits(s) then Some(DigitsValue(s)) else None
  }

  /** Python 2's `int(s)` on a string: surrounding whitespace is skipped, an optional
      sign may precede the digits, with whitespace allowed again between the sign and
      the digits (`int("- 5") == -5`); anything else raises, modelled as `None`. A
      blank string is always rejected. */
  function ParseInt(s: string): (r: Option<int>)
    ensures r.Some? ==> Strip(s) != []
  {
    var t := Strip(s);
    if |t| > 0 && (t[0] == '-' || t[0] == '+') then
      match ParseNat(StripLeft(t[1..]))
      case Some(n) =>
        var v: int := if t[0] == '-' then -(n as int) else n;
        Some(v)
      case None => None
    else
      match ParseNat(t)
      case Some(n) => Some(n)
      case None => None
  }

  lemma {:induction false} DigitsValueOfNatToString(n: nat)
    ensures DigitsValue(NatToString(n)) == n
    decreases n
  {
    if n >= 10 {
      var s := NatToString(n);
      assert s[..|s| - 1] == NatToString(n / 10);
      DigitsValueOfNatToString(n / 10);
    }
  }

  /** `int()` reads back what `str()` wrote, whatever whitespace (padding, the line's
      trailing newline) surrounds it. */
  lemma {:induction false} ParseIntRoundTrip(n: int, pre: string, post: string)
    requires AllSpace(pre) && AllSpace(post)
    ensures ParseInt(pre + IntToString(n) + post) == Some(n)
  {
    var s := IntToString(n);
    NumeralChars(n);
    StripAround(pre, s, post);
    assert Strip(pre + s + post) == s;
    if n < 0 {
      assert s[1..] == NatToString(-n);
      assert !IsSpace(s[1]) && StripLeft(s[1..]) == s[1..];
      DigitsValueOfNatToString(-n);
      assert s[0] == '-' && ParseNat(StripLeft(s[1..])) == Some(-n);
    } else {
      assert s[0] != '-' && s[0] != '+';
      DigitsValueOfNatToString(n);
      assert ParseNat(s) == Some(n);
    }
  }

  /** The sign may be separated from the digits by whitespace, but a sign alone and
      two numbers are rejected. */
  lemma SignedExamples()
    ensures ParseInt("- 5") == Some(-5) && ParseInt("+ 7") == Some(7)
    ensures ParseInt("-") == None && ParseInt("5 5") == None
  {
    assert StripLeft(" 5") == "5" && StripLeft(" 7") == "7";
  }
}
