/** Conversions between strings and numbers. JavaScript's `Number(v)` is
    modelled on plain decimal strings only: an optional minus sign, one or more
    digits, and optionally a point followed by one or more digits. Anything
    else parses to None, which stands for NaN. Integer formatting is the
    decimal form a template literal produces for an integer. */
module Numbers {
  import opened Common

  predicate IsDigit(c: char) {
    '0' <= c <= '9'
  }

  predicate AllDigits(s: string) {
    forall i :: 0 <= i < |s| ==> IsDigit(s[i])
  }

  function DigitValue(c: char): (d: nat)
    requires IsDigit(c)
    ensures d < 10
  {
    c as int - '0' as int
  }

  function DigitChar(d: nat): (c: char)
    requires d < 10
    ensures IsDigit(c) && DigitValue(c) == d
  {
    ('0' as int + d) as char
  }

  /** The value of a string of decimal digits, most significant first. */
  function DigitsValue(s: string): nat
    requires AllDigits(s)
  {
    if s == [] then 0 else DigitsValue(s[..|s| - 1]) * 10 + DigitValue(s[|s| - 1])
  }

  function Pow10(n: nat): (p: nat)
    ensures p >= 1
  {
    if n == 0 then 1 else 10 * Pow10(n - 1)
  }

  /** The first index at or after `start` holding `c`, or `|s|`. */
  function IndexFrom(s: string, c: char, start: nat): (k: nat)
    requires start <= |s|
    ensures start <= k <= |s|
    ensures k < |s| ==> s[k] == c
    ensures forall j :: start <= j < k ==> s[j] != c
    decreases |s| - start
  {
    if start == |s| || s[start] == c then start else IndexFrom(s, c, start + 1)
  }

  /** `Number(v)` restricted to plain decimal strings; None is NaN. */
  function Parse(s: string): (r: Option<real>)
    ensures r.Some? ==> s != [] && s != "-"
    ensures AllDigits(s) && s != [] ==> r == Some(DigitsValue(s) as real)
  {
    if |s| > 0 && s[0] == '-' then
      match ParseUnsigned(s[1..])
      case Some(v) => Some(-v)
      case None => None
    else ParseUnsigned(s)
  }

  /** The number with whole part `whole` and `n` fractional digits `frac`. */
  function DecimalValue(whole: nat, frac: nat, n: nat): (v: real)
    ensures v >= 0.0
  {
    whole as real + frac as real / Pow10(n) as real
  }

  /** Digits, optionally followed by a point and more digits. */
  function ParseUnsigned(s: string): (r: Option<real>)
    ensures r.Some? ==> s != [] && r.value >= 0.0
    ensures AllDigits(s) && s != [] ==> r == Some(DigitsValue(s) as real)
  {
    var k := IndexFrom(s, '.', 0);
    var whole := s[..k];
    if whole == [] || !AllDigits(whole) then None
    else if k == |s| then (assert whole == s; Some(DigitsValue(whole) as real))
    else
      var frac := s[k + 1..];
      if frac == [] || !AllDigits(frac) then None
      else Some(DecimalValue(DigitsValue(whole), DigitsValue(frac), |frac|))
  }

  /** A decimal read from its whole and fractional digits. */
  lemma ParseDecimal(whole: string, frac: string)
    requires whole != [] && AllDigits(whole) && frac != [] && AllDigits(frac)
    ensures Parse(whole + "." + frac)
      == Some(DecimalValue(DigitsValue(whole), DigitsValue(frac), |frac|))
  {
    ParseUnsignedDecimal(whole, frac);
    assert (whole + "." + frac)[0] == whole[0];
  }

  lemma ParseUnsignedDecimal(whole: string, frac: string)
    requires whole != [] && AllDigits(whole) && frac != [] && AllDigits(frac)
    ensures ParseUnsigned(whole + "." + frac)
      == Some(DecimalValue(DigitsValue(whole), DigitsValue(frac), |frac|))
  {
    var s := whole + "." + frac;
    PointAfterDigits(whole, frac);
    assert s[..|whole|] == whole;
    assert s[|whole| + 1..] == frac;
  }


  /** The first point of a decimal is the one after its whole digits. */
  lemma PointAfterDigits(whole: string, frac: string)
    requires AllDigits(whole)
    ensures IndexFrom(whole + "." + frac, '.', 0) == |whole|
  {
    var s := whole + "." + frac;
    assert s[|whole|] == '.';
    assert forall j :: 0 <= j < |whole| ==> s[j] == whole[j];
  }

  /** The decimal form of a natural number, without leading zeros. */
  function NatToString(n: nat): (s: string)
    ensures s != [] && AllDigits(s)
  {
    if n < 10 then [DigitChar(n)] else NatToString(n / 10) + [DigitChar(n % 10)]
  }

  /** The decimal form of an integer, with a minus sign when negative. */
  function IntToString(n: int): string {
    if n < 0 then "-" + NatToString(-n) else NatToString(n)
  }

  /** Reading back a formatted natural number gives the number. */
  lemma {:induction false} NatToStringValue(n: nat)
    ensures DigitsValue(NatToString(n)) == n
  {
    if n >= 10 {
      NatToStringValue(n / 10);
      var s := NatToString(n);
      assert s[..|s| - 1] == NatToString(n / 10);
    }
  }

  /** Formatting and parsing are inverse on integers. */
  lemma ParseIntToString(n: int)
    ensures Parse(IntToString(n)) == Some(n as real)
  {
    if n < 0 {
      var t := NatToString(-n);
      NatToStringValue(-n);
      assert ("-" + t)[1..] == t;
      assert ParseUnsigned(t) == Some((-n) as real);
    } else {
      NatToStringValue(n);
    }
  }
}
