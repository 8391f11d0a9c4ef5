/** Decimal rendering of integers, as Python's `str(int)` produces it inside
    an f-string (used for the timeout in the timeout error message). */
module Decimal {

  predicate IsDigit(c: char) {
    '0' <= c <= '9'
  }

  function DigitChar(d: nat): (c: char)
    requires d < 10
    ensures IsDigit(c) && DigitValue(c) == d
  {
    "0123456789"[d]
  }

  function DigitValue(c: char): (v: nat)
    requires IsDigit(c)
    ensures v < 10
  {
    c as int - '0' as int
  }

  /** The number a string of decimal digits denotes (most significant digit first). */
  function DigitsValue(s: string): (v: nat)
    requires forall i :: 0 <= i < |s| ==> IsDigit(s[i])
  {
    if s == [] then 0
    else 10 * DigitsValue(s[..|s| - 1]) + DigitValue(s[|s| - 1])
  }

  /** The shortest decimal spelling of `n`: digits only, no leading zero. */
  function NatToDecimal(n: nat): (s: string)
    ensures |s| >= 1
    ensures forall i :: 0 <= i < |s| ==> IsDigit(s[i])
    ensures |s| > 1 ==> s[0] != '0'
  {
    if n < 10 then [DigitChar(n)] else NatToDecimal(n / 10) + [DigitChar(n % 10)]
  }

  /** Reading the spelling back gives the number. */
  lemma {:induction false} NatToDecimalRoundTrip(n: nat)
    ensures DigitsValue(NatToDecimal(n)) == n
  {
    var s := NatToDecimal(n);
    if n >= 10 {
      NatToDecimalRoundTrip(n / 10);
      assert s[..|s| - 1] == NatToDecimal(n / 10);
    }
  }

  /** `str(i)`: a minus sign before the spelling of |i| when i is negative. */
  function IntToDecimal(i: int): (s: string)
    ensures |s| >= 1
    ensures i < 0 <==> s[0] == '-'
    ensures i >= 0 ==> forall k :: 0 <= k < |s| ==> IsDigit(s[k])
    ensures i >= 0 ==> DigitsValue(s) == i
    ensures i < 0 ==> forall k :: 1 <= k < |s| ==> IsDigit(s[k])
    ensures i < 0 ==> |s| >= 2 && DigitsValue(s[1..]) == -i
  {
    NatToDecimalRoundTrip(if i < 0 then -i else i);
    if i < 0 then "-" + NatToDecimal(-i) else NatToDecimal(i)
  }

  /** `str(i)` is the canonical spelling: no leading zero, neither on a
      non-negative number other than 0 nor after the minus sign. */
  lemma IntToDecimalCanonical(i: int)
    ensures i >= 0 && IntToDecimal(i)[0] == '0' ==> IntToDecimal(i) == "0"
    ensures i < 0 ==> IntToDecimal(i)[1] != '0'
  {
  }
}
