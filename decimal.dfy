/** Decimal numerals: reading them (JavaScript `parseInt(s, 10)` on a digit
    run, Python `int(s)` on a stripped cell) and writing them (Python `str(n)`). */
module Decimal {
  import opened Wrappers

  predicate IsDigit(c: char) { '0' <= c <= '9' }

  predicate AllDigits(s: string) { forall i :: 0 <= i < |s| ==> IsDigit(s[i]) }

  function DigitValue(c: char): nat
    requires IsDigit(c)
  {
    c as nat - '0' as nat
  }

  function DigitChar(d: nat): char
    requires d < 10
  {
    ('0' as nat + d) as char
  }

  /** The value of a run of decimal digits, most significant digit first. */
  function DecimalValue(s: string): nat
    requires AllDigits(s)
    decreases |s|
  {
    if s == [] then 0 else 10 * DecimalValue(s[..|s| - 1]) + DigitValue(s[|s| - 1])
  }

  /** The canonical numeral of `n`: digits only, no leading zero. */
  function NatToDecimal(n: nat): (r: string)
    ensures |r| > 0 && AllDigits(r)
    ensures n > 0 ==> r[0] != '0'
  {
    if n < 10 then [DigitChar(n)] else NatToDecimal(n / 10) + [DigitChar(n % 10)]
  }

  /** Reading back a written numeral gives the number. */
  lemma {:induction false} DecimalRoundTrip(n: nat)
    ensures DecimalValue(NatToDecimal(n)) == n
  {
    if n >= 10 {
      var r := NatToDecimal(n);
      assert r[..|r| - 1] == NatToDecimal(n / 10);
      DecimalRoundTrip(n / 10);
    }
  }

  /** Python `str(n)` for an int: a minus sign, then the digits of |n|. */
  function IntToDecimal(n: int): (r: string)
    ensures |r| > 0 && IsDigit(r[|r| - 1])
    ensures r[0] == '-' <==> n < 0
  {
    if n < 0 then "-" + NatToDecimal(-n) else NatToDecimal(n)
  }

  /** An optional `+` or `-` followed by one or more ASCII digits. */
  predicate SignedNumeral(s: string)
  {
    s != [] && if s[0] == '+' || s[0] == '-' then |s| > 1 && AllDigits(s[1..]) else AllDigits(s)
  }

  /** Python `int(s)` on an already stripped string, restricted to ASCII: an
      optional `+` or `-`, then one or more digits; anything else raises
      `ValueError`, which is `None` here. */
  function ParseInt(s: string): (r: Option<int>)
    ensures s == [] ==> r == None
    ensures AllDigits(s) && s != [] ==> r == Some(DecimalValue(s))
    ensures r.Some? <==> SignedNumeral(s)
    ensures SignedNumeral(s) ==> r == Some(
      if s[0] == '-' then -(DecimalValue(s[1..]) as int)
      else if s[0] == '+' then DecimalValue(s[1..])
      else DecimalValue(s))
  {
    if s == [] then None
    else if s[0] == '+' || s[0] == '-' then
      if |s| > 1 && AllDigits(s[1..]) then
        Some(if s[0] == '-' then 0 - DecimalValue(s[1..]) as int else DecimalValue(s[1..]))
      else None
    else if AllDigits(s) then Some(DecimalValue(s))
    else None
  }

  /** `int(str(n)) == n`. */
  lemma ParseIntRoundTrip(n: int)
    ensures ParseInt(IntToDecimal(n)) == Some(n)
  {
    if n < 0 {
      DecimalRoundTrip(-n);
      assert IntToDecimal(n)[1..] == NatToDecimal(-n);
    } else {
      DecimalRoundTrip(n);
    }
  }
}
