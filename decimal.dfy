/**
 * Decimal digits: the characters a SIP numeric parameter value is made of,
 * the number a run of digits denotes, and the canonical decimal rendering of
 * an unsigned value (what writing an unsigned integer to an output stream
 * produces).
 */
module Decimal {

  predicate IsDigit(c: char) {
    '0' <= c <= '9'
  }

  predicate AllDigits(s: string) {
    forall i :: 0 <= i < |s| ==> IsDigit(s[i])
  }

  function DigitValue(c: char): (d: nat)
    requires IsDigit(c)
    ensures d < 10
  {
    c as int - '0' as int
  }

  function DigitChar(d: nat): (c: char)
    requires d < 10
    ensures IsDigit(c) && DigitValue(c) == d
  {
    ('0' as int + d) as char
  }

  /** The value of a run of decimal digits, most significant digit first. */
  function DigitsValue(s: string): nat
    requires AllDigits(s)
  {
    if s == [] then 0 else DigitsValue(s[..|s| - 1]) * 10 + DigitValue(s[|s| - 1])
  }

  /**
   * The decimal rendering of v: at least one digit, no leading zero except
   * in the rendering "0" of the value 0 itself, and reading the digits back
   * gives v.
   */
  function ToDecimal(v: nat): (s: string)
    ensures 1 <= |s| && AllDigits(s)
    ensures s[0] == '0' ==> s == "0"
    ensures DigitsValue(s) == v
  {
    if v < 10 then [DigitChar(v)]
    else
      var high := ToDecimal(v / 10);
      var s := high + [DigitChar(v % 10)];
      assert s[..|s| - 1] == high;
      s
  }

  /** Appending a digit shifts the value of a digit run by one decimal place. */
  lemma DigitsValueAppend(s: string, c: char)
    requires AllDigits(s) && IsDigit(c)
    ensures AllDigits(s + [c])
    ensures DigitsValue(s + [c]) == DigitsValue(s) * 10 + DigitValue(c)
  {
  }
}
