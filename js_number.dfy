/**
 * The two conversions the logger's session cursor goes through: `String(timestamp)` when it is
 * written and `Number(text)` when it is read back. Only decimal integers are modelled: every text
 * that is not an optional `-` followed by decimal digits reads as NaN.
 */
module JsNumber {
  import opened Options

  predicate IsDigit(c: char) {
    '0' <= c <= '9'
  }

  predicate AllDigits(s: string) {
    forall i :: 0 <= i < |s| ==> IsDigit(s[i])
  }

  function DigitChar(d: nat): (c: char)
    requires d < 10
    ensures IsDigit(c) && c as int - '0' as int == d
  {
    ('0' as int + d) as char
  }

  /** The decimal digits of `n`, most significant first, without leading zeros. */
  function NatToString(n: nat): (s: string)
    decreases n
  {
    if n < 10 then [DigitChar(n)] else NatToString(n / 10) + [DigitChar(n % 10)]
  }

  /** `String(t)` for an integral number. */
  function IntToString(t: int): string {
    if t < 0 then "-" + NatToString(-t) else NatToString(t)
  }

  /** The value of a string of decimal digits (leading zeros allowed); the empty string is 0. */
  function DigitsValue(s: string): (n: nat)
    requires AllDigits(s)
  {
    if |s| == 0 then 0
    else DigitsValue(s[..|s| - 1]) * 10 + (s[|s| - 1] as int - '0' as int)
  }

  /** `Number(s)`, or `None` where JavaScript gives NaN. `Number('')` is 0. */
  function ParseNumber(s: string): (r: Option<int>)
    ensures s == "" ==> r == Some(0)
    ensures r.Some? && r.value < 0 ==> s[0] == '-'
  {
    if AllDigits(s) then Some(DigitsValue(s))
    else if |s| > 1 && s[0] == '-' && AllDigits(s[1..]) then Some(-(DigitsValue(s[1..]) as int))
    else None
  }

  lemma {:induction false} NatToStringDigits(n: nat)
    ensures |NatToString(n)| > 0 && AllDigits(NatToString(n))
    ensures DigitsValue(NatToString(n)) == n
    decreases n
  {
    if n >= 10 {
      NatToStringDigits(n / 10);
      var s := NatToString(n);
      assert s[..|s| - 1] == NatToString(n / 10);
    }
  }

  /** Writing an integer with `String` and reading it back with `Number` gives the integer. */
  lemma RoundTrip(t: int)
    ensures ParseNumber(IntToString(t)) == Some(t)
  {
    if t < 0 {
      NatToStringDigits(-t);
      var s := IntToString(t);
      assert s[1..] == NatToString(-t);
      assert !AllDigits(s) by { assert !IsDigit(s[0]); }
    } else {
      NatToStringDigits(t);
    }
  }
}
