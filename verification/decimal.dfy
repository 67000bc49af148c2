/**
 * Decimal digit strings: `Number.prototype.toString` on integers and the
 * inverse reading of a digit string, used by the code generator and the
 * countdown formatter.
 */
module Decimal {

  /** Mirrors the regular-expression class `\d`: ASCII digits only. */
  predicate IsDigit(c: char) {
    '0' <= c <= '9'
  }

  predicate AllDigits(s: string) {
    forall i :: 0 <= i < |s| ==> IsDigit(s[i])
  }

  function DigitChar(d: nat): (c: char)
    requires d < 10
    ensures IsDigit(c)
  {
    ('0' as int + d) as char
  }

  function DigitValue(c: char): (d: nat)
    requires IsDigit(c)
    ensures d < 10
  {
    c as int - '0' as int
  }

  function Pow10(k: nat): (p: nat)
    ensures p >= 1
  {
    if k == 0 then 1 else 10 * Pow10(k - 1)
  }

  /** The decimal rendering of `n`, with no leading zero unless `n` is zero. */
  function NatToString(n: nat): (s: string)
    ensures |s| >= 1 && AllDigits(s)
    ensures s[0] == '0' <==> n == 0
    decreases n
  {
    if n < 10 then [DigitChar(n)] else NatToString(n / 10) + [DigitChar(n % 10)]
  }

  /** `String(i)` for an integer: a minus sign in front of the magnitude when negative. */
  function IntToString(i: int): (s: string)
    ensures |s| >= 1
    ensures i >= 0 ==> s == NatToString(i)
    ensures i < 0 ==> s[0] == '-' && s[1..] == NatToString(-i)
  {
    if i < 0 then "-" + NatToString(-i) else NatToString(i)
  }

  /** The number a string of decimal digits denotes, most significant digit first. */
  function DigitsValue(s: string): nat
    requires AllDigits(s)
  {
    if |s| == 0 then 0 else DigitsValue(s[..|s| - 1]) * 10 + DigitValue(s[|s| - 1])
  }

  lemma {:induction false} NatToStringRoundTrip(n: nat)
    ensures DigitsValue(NatToString(n)) == n
    decreases n
  {
    if n >= 10 {
      var s := NatToString(n);
      assert s[..|s| - 1] == NatToString(n / 10);
      NatToStringRoundTrip(n / 10);
    }
  }

  /** `n` needs at most `k + 1` digits exactly when it is below 10^(k+1). */
  lemma {:induction false} NatToStringLengthBound(n: nat, k: nat)
    ensures |NatToString(n)| <= k + 1 <==> n < Pow10(k + 1)
    decreases n
  {
    if n >= 10 && k > 0 {
      NatToStringLengthBound(n / 10, k - 1);
    }
  }

  /** Every integer in [100000, 999999] renders as exactly six digits. */
  lemma SixDigitLength(n: nat)
    requires 100000 <= n <= 999999
    ensures |NatToString(n)| == 6
  {
    NatToStringLengthBound(n, 5);
    NatToStringLengthBound(n, 4);
  }
}
