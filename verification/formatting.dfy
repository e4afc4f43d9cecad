/**
 * Decimal rendering of integers as `String.format` does it for the
 * conversions `%d` and `%02d` (ASCII digits), and the matching read-back.
 */
module Formatting {

  predicate IsDigit(c: char) {
    '0' <= c <= '9'
  }

  predicate AllDigits(s: string) {
    forall i :: 0 <= i < |s| ==> IsDigit(s[i])
  }

  function DigitChar(d: nat): char
    requires d < 10
  {
    ('0' as int + d) as char
  }

  /** The decimal digits of `n`, most significant first, without leading zeros. */
  function NatToDigits(n: nat): (s: string)
    ensures |s| >= 1 && AllDigits(s)
    ensures s[0] == '0' ==> n == 0
    ensures n < 10 <==> |s| == 1
    decreases n
  {
    if n < 10 then [DigitChar(n)] else NatToDigits(n / 10) + [DigitChar(n % 10)]
  }

  /** The number a string of decimal digits denotes. */
  function DigitsValue(s: string): nat
    requires AllDigits(s)
    decreases |s|
  {
    if s == [] then 0 else DigitsValue(s[..|s| - 1]) * 10 + (s[|s| - 1] as int - '0' as int)
  }

  /** Reads back an optionally negative decimal numeral. */
  function ParseInt(s: string): int
    requires |s| > 0
    requires AllDigits(if s[0] == '-' then s[1..] else s)
  {
    if s[0] == '-' then -(DigitsValue(s[1..]) as int) else DigitsValue(s)
  }

  /** `%d`: a minus sign for negative values, then the digits of the magnitude. */
  function FormatInt(n: int): string {
    if n < 0 then "-" + NatToDigits(-n) else NatToDigits(n)
  }

  /**
   * `%02d`: like `%d`, but zero-padded to a width of two. A negative value
   * already has two characters, so only 0..9 get a leading zero.
   */
  function FormatInt02(n: int): string {
    if 0 <= n < 10 then "0" + NatToDigits(n) else FormatInt(n)
  }

  lemma {:induction false} DigitsRoundTrip(n: nat)
    ensures DigitsValue(NatToDigits(n)) == n
    decreases n
  {
    if n >= 10 {
      DigitsRoundTrip(n / 10);
      var s := NatToDigits(n);
      assert s[..|s| - 1] == NatToDigits(n / 10);
    }
  }

  /** `%d` is read back exactly, for every sign. */
  lemma FormatIntRoundTrip(n: int)
    ensures |FormatInt(n)| > 0
    ensures AllDigits(if FormatInt(n)[0] == '-' then FormatInt(n)[1..] else FormatInt(n))
    ensures ParseInt(FormatInt(n)) == n
    ensures n >= 0 <==> AllDigits(FormatInt(n))
  {
    var s := FormatInt(n);
    if n < 0 {
      assert s[1..] == NatToDigits(-n);
      DigitsRoundTrip(-n);
      assert !IsDigit(s[0]);
    } else {
      DigitsRoundTrip(n);
    }
  }

  /** `%02d` of a value in 0..99 is exactly two digits denoting that value. */
  lemma FormatInt02TwoDigits(n: int)
    requires 0 <= n < 100
    ensures |FormatInt02(n)| == 2 && AllDigits(FormatInt02(n))
    ensures DigitsValue(FormatInt02(n)) == n
  {
    var s := FormatInt02(n);
    if n < 10 {
      assert s == ['0', DigitChar(n)];
      assert s[..1] == "0";
      assert DigitsValue("0") == 0 by { assert "0"[..0] == []; }
    } else {
      assert NatToDigits(n / 10) == [DigitChar(n / 10)];
      DigitsRoundTrip(n);
    }
  }

  /** `%02d` never drops information: every value is read back, and the width is at least two. */
  lemma FormatInt02RoundTrip(n: int)
    ensures |FormatInt02(n)| >= 2
    ensures AllDigits(if FormatInt02(n)[0] == '-' then FormatInt02(n)[1..] else FormatInt02(n))
    ensures ParseInt(FormatInt02(n)) == n
  {
    if 0 <= n < 10 {
      FormatInt02TwoDigits(n);
    } else {
      FormatIntRoundTrip(n);
      if n < 0 {
        assert |NatToDigits(-n)| >= 1;
      }
    }
  }
}
