/** `snprintf(msg, 16, "%d", n)`: the decimal text the report step publishes. */
module Decimal {

  predicate IsDigit(c: char) { '0' <= c <= '9' }

  function DigitChar(d: nat): (c: char)
    requires d < 10
    ensures IsDigit(c) && c as int - '0' as int == d
  {
    ['0', '1', '2', '3', '4', '5', '6', '7', '8', '9'][d]
  }

  /** The value of a string of decimal digits, most significant first. */
  function DigitsValue(s: string): nat
    requires forall i :: 0 <= i < |s| ==> IsDigit(s[i])
  {
    if s == [] then 0
    else
      assert IsDigit(s[|s| - 1]);
      10 * DigitsValue(s[..|s| - 1]) + (s[|s| - 1] as int - '0' as int)
  }

  /** The digits of a natural number, without leading zeros. */
  function FormatNat(n: nat): (s: string)
    ensures s != [] && forall i :: 0 <= i < |s| ==> IsDigit(s[i])
    ensures s[0] == '0' ==> s == "0"
    ensures DigitsValue(s) == n
    decreases n
  {
    if n < 10 then [DigitChar(n)]
    else
      var s := FormatNat(n / 10) + [DigitChar(n % 10)];
      assert s[..|s| - 1] == FormatNat(n / 10);
      s
  }

  /** `%d` of a C int: a minus sign before the digits of a negative value. */
  function FormatInt(n: int): (s: string)
    ensures s != [] && (s[0] == '-' <==> n < 0)
  {
    if n < 0 then "-" + FormatNat(-n) else FormatNat(n)
  }

  /** Reads back what FormatInt writes. */
  function ParseInt(s: string): (r: Parsed)
  {
    if s != [] && s[0] == '-' && |s| > 1 && forall i :: 1 <= i < |s| ==> IsDigit(s[i]) then
      Value(-(DigitsValue(s[1..]) as int))
    else if s != [] && forall i :: 0 <= i < |s| ==> IsDigit(s[i]) then
      Value(DigitsValue(s))
    else
      Malformed
  }

  datatype Parsed = Value(n: int) | Malformed

  /** Formatting loses nothing: the published text denotes the pin value. */
  lemma FormatIntRoundTrip(n: int)
    ensures ParseInt(FormatInt(n)) == Value(n)
  {
  }

  /** The two values a GPIO read yields are published as `0` and `1`. */
  lemma FormatPinValues()
    ensures FormatInt(0) == "0" && FormatInt(1) == "1"
  {
  }

  /** The 16-byte buffer never truncates a 32-bit int: at most 11 characters. */
  lemma {:induction false} FormatFitsBuffer(n: int)
    requires -0x8000_0000 <= n < 0x8000_0000
    ensures |FormatInt(n)| + 1 <= 16
  {
    var m: nat := if n < 0 then -n else n;
    NatDigitsBound(m, 10);
  }

  lemma {:induction false} NatDigitsBound(n: nat, k: nat)
    requires n < Pow10(k)
    ensures |FormatNat(n)| <= if k == 0 then 1 else k
    decreases k
  {
    if n >= 10 && k >= 2 {
      NatDigitsBound(n / 10, k - 1);
    }
  }

  function Pow10(k: nat): (r: nat)
    ensures r >= 1
  {
    if k == 0 then 1 else 10 * Pow10(k - 1)
  }
}
