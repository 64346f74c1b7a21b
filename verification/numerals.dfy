/**
 * Decimal numerals: Python's `str(n)` for a non-negative int and `int(s)` for a string.
 * `int(s)` accepts surrounding whitespace, an optional sign and ASCII digits; anything
 * else is a `ValueError`, modelled as `None`.
 */
module Numerals {
  import opened Wrappers
  import Strings

  predicate IsDigit(c: char)
  {
    '0' <= c <= '9'
  }

  predicate AllDigits(s: string)
  {
    forall i :: 0 <= i < |s| ==> IsDigit(s[i])
  }

  function DigitValue(c: char): nat
    requires IsDigit(c)
  {
    c as int - '0' as int
  }

  function DigitChar(d: nat): (c: char)
    requires d < 10
    ensures IsDigit(c) && DigitValue(c) == d
  {
    ('0' as int + d) as char
  }

  /** The number a string of decimal digits denotes (leading zeros allowed). */
  function DigitsValue(s: string): nat
    requires AllDigits(s)
    decreases |s|
  {
    if |s| == 0 then 0 else DigitsValue(s[..|s| - 1]) * 10 + DigitValue(s[|s| - 1])
  }

  /** Python's `str(n)` for `n >= 0`: the shortest decimal numeral of `n`. */
  function NatToString(n: nat): (r: string)
    ensures |r| > 0 && AllDigits(r)
    ensures DigitsValue(r) == n
    ensures |r| > 1 ==> r[0] != '0'
    decreases n
  {
    if n < 10 then [DigitChar(n)]
    else
      var r := NatToString(n / 10) + [DigitChar(n % 10)];
      assert r[..|r| - 1] == NatToString(n / 10);
      r
  }

  /** Different numbers have different numerals. */
  lemma NatToStringInjective(m: nat, n: nat)
    requires NatToString(m) == NatToString(n)
    ensures m == n
  {
  }

  /** Python's `int(s)`. */
  function ParseInt(s: string): Option<int>
  {
    var t := Strings.Strip(s);
    if |t| > 0 && (t[0] == '+' || t[0] == '-') then
      var d := t[1..];
      if |d| > 0 && AllDigits(d) then
        var v: int := DigitsValue(d);
        Some(if t[0] == '-' then -v else v)
      else None
    else if |t| > 0 && AllDigits(t) then Some(DigitsValue(t))
    else None
  }

  /** `int(s)` accepts exactly the stripped texts that are digits with an optional sign, and negates after `-`. */
  lemma ParseIntAccepts(s: string)
    ensures var t := Strings.Strip(s);
      ParseInt(s).Some? <==>
        || (|t| > 0 && AllDigits(t))
        || (|t| > 1 && (t[0] == '+' || t[0] == '-') && AllDigits(t[1..]))
    ensures var t := Strings.Strip(s);
      ParseInt(s).Some? && |t| > 0 && t[0] == '-' ==> ParseInt(s).value == -(DigitsValue(t[1..]) as int)
    ensures var t := Strings.Strip(s);
      |t| > 0 && AllDigits(t) ==> ParseInt(s) == Some(DigitsValue(t) as int)
    ensures var t := Strings.Strip(s);
      |t| > 1 && t[0] == '+' && AllDigits(t[1..]) ==> ParseInt(s) == Some(DigitsValue(t[1..]) as int)
  {
  }

  /** A non-empty run of digits parses to the number it denotes. */
  lemma ParseDigits(d: string)
    requires |d| > 0 && AllDigits(d)
    ensures ParseInt(d) == Some(DigitsValue(d) as int)
  {
    DigitNotSpace(d[0]);
    DigitNotSpace(d[|d| - 1]);
    Strings.StripSpec(d);
  }

  lemma DigitNotSpace(c: char)
    requires IsDigit(c)
    ensures !Strings.IsSpace(c)
  {
  }

  /** `int(str(n)) == n`. */
  lemma ParseNatToString(n: nat)
    ensures ParseInt(NatToString(n)) == Some(n as int)
  {
    ParseDigits(NatToString(n));
  }
}
