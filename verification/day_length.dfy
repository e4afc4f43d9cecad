/**
 * The day length shown after a calculation (`getDayLength`): the difference
 * of two instants in milliseconds, as 64-bit integers, rendered as whole
 * hours and the remaining whole minutes, "%dh %02dm".
 */
module DayLengths {
  import opened Formatting

  const LONG_MIN: int := -0x8000_0000_0000_0000
  const LONG_MAX: int := 0x7FFF_FFFF_FFFF_FFFF
  const MILLIS_PER_HOUR: int := 1000 * 60 * 60
  const MILLIS_PER_MINUTE: int := 1000 * 60

  predicate IsLong(x: int) {
    LONG_MIN <= x <= LONG_MAX
  }

  /** Subtraction of two 64-bit integers, wrapping around on overflow. */
  function LongSub(a: int, b: int): (r: int)
    requires IsLong(a) && IsLong(b)
    ensures IsLong(r)
    ensures IsLong(a - b) ==> r == a - b
    ensures (a - b - r) % 0x1_0000_0000_0000_0000 == 0
  {
    var d := a - b;
    if d > LONG_MAX then d - 0x1_0000_0000_0000_0000
    else if d < LONG_MIN then d + 0x1_0000_0000_0000_0000
    else d
  }

  /** Integer division rounding toward zero, as the JVM's `/` on longs. */
  function Quot(a: int, b: int): int
    requires b > 0
  {
    if a >= 0 then a / b else -((-a) / b)
  }

  /** The remainder that goes with `Quot`, as the JVM's `%` on longs. */
  function Rem(a: int, b: int): int
    requires b > 0
  {
    a - Quot(a, b) * b
  }

  /**
   * The two defining facts of truncating division: the remainder is smaller
   * than the divisor in magnitude and takes the sign of the dividend; on
   * non-negative dividends it agrees with Euclidean division.
   */
  lemma TruncatingDivision(a: int, b: int)
    requires b > 0
    ensures a == Quot(a, b) * b + Rem(a, b)
    ensures a >= 0 ==> 0 <= Rem(a, b) < b && Quot(a, b) == a / b && Rem(a, b) == a % b
    ensures a < 0 ==> -b < Rem(a, b) <= 0 && Quot(a, b) == -Quot(-a, b) && Rem(a, b) == -Rem(-a, b)
  {
  }

  /** Whole hours of a duration. */
  function Hours(diff: int): int {
    Quot(diff, MILLIS_PER_HOUR)
  }

  /** Whole minutes past the whole hours. */
  function Minutes(diff: int): int {
    Rem(Quot(diff, MILLIS_PER_MINUTE), 60)
  }

  /** The day length between a sunrise and a sunset, given in epoch milliseconds. */
  function DayLength(sunriseMillis: int, sunsetMillis: int): (r: string)
    requires IsLong(sunriseMillis) && IsLong(sunsetMillis)
    ensures var k := |FormatInt(Hours(LongSub(sunsetMillis, sunriseMillis)))|;
            k < |r| - 2 && r[k..k + 2] == "h " && r[|r| - 1] == 'm'
  {
    var diff := LongSub(sunsetMillis, sunriseMillis);
    FormatInt(Hours(diff)) + "h " + FormatInt02(Minutes(diff)) + "m"
  }

  /** Splitting whole minutes into hours and minutes loses nothing and keeps the minutes in [0, 59]. */
  lemma {:induction false} NonNegativeParts(diff: int)
    requires diff >= 0
    ensures 0 <= Minutes(diff) <= 59
    ensures Hours(diff) == diff / MILLIS_PER_HOUR
    ensures Hours(diff) * 60 + Minutes(diff) == diff / MILLIS_PER_MINUTE
  {
    var m := diff / MILLIS_PER_MINUTE;
    TruncatingDivision(diff, MILLIS_PER_MINUTE);
    TruncatingDivision(m, 60);
    TruncatingDivision(diff, MILLIS_PER_HOUR);
    assert m / 60 == diff / MILLIS_PER_HOUR;
  }

  /**
   * For every sign of the difference, hours and minutes recombine to the
   * whole minutes truncated toward zero, the minutes stay within (-60, 60),
   * and a negative difference (sunset before sunrise, which nothing checks)
   * gives non-positive hours and minutes.
   */
  lemma PartsAnySign(diff: int)
    ensures Hours(diff) * 60 + Minutes(diff) == Quot(diff, MILLIS_PER_MINUTE)
    ensures -60 < Minutes(diff) < 60
    ensures diff >= 0 ==> Hours(diff) >= 0 && Minutes(diff) >= 0
    ensures diff < 0 ==> Hours(diff) <= 0 && Minutes(diff) <= 0
  {
  }

  /** The shape of "%dh %02dm" for non-negative hours and minutes below 60, and its read-back. */
  lemma {:induction false} TextReadBack(h: nat, m: nat)
    requires m < 60
    ensures var s := FormatInt(h) + "h " + FormatInt02(m) + "m";
            |s| >= 6 && s[|s| - 5..|s| - 3] == "h " && s[|s| - 1] == 'm' &&
            AllDigits(s[..|s| - 5]) && AllDigits(s[|s| - 3..|s| - 1]) &&
            DigitsValue(s[..|s| - 5]) == h && DigitsValue(s[|s| - 3..|s| - 1]) == m
  {
    var hh := FormatInt(h);
    var mm := FormatInt02(m);
    FormatInt02TwoDigits(m);
    DigitsRoundTrip(h);
    var s := hh + "h " + mm + "m";
    assert s[..|s| - 5] == hh;
    assert s[|s| - 5..|s| - 3] == "h ";
    assert s[|s| - 3..|s| - 1] == mm;
  }

  /**
   * When the sunset does not precede the sunrise and the difference fits in
   * 64 bits, the text is the hours' digits, "h ", exactly two minute digits
   * and "m", and reading it back gives diff / 3,600,000 and (diff / 60,000) % 60.
   */
  lemma DayLengthReadBack(sunriseMillis: int, sunsetMillis: int)
    requires IsLong(sunriseMillis) && IsLong(sunsetMillis)
    requires sunriseMillis <= sunsetMillis && IsLong(sunsetMillis - sunriseMillis)
    ensures var s := DayLength(sunriseMillis, sunsetMillis);
            var diff := sunsetMillis - sunriseMillis;
            |s| >= 6 && s[|s| - 5..|s| - 3] == "h " && s[|s| - 1] == 'm' &&
            AllDigits(s[..|s| - 5]) && AllDigits(s[|s| - 3..|s| - 1]) &&
            DigitsValue(s[..|s| - 5]) == diff / MILLIS_PER_HOUR &&
            DigitsValue(s[|s| - 3..|s| - 1]) == (diff / MILLIS_PER_MINUTE) % 60
  {
    var diff := sunsetMillis - sunriseMillis;
    assert LongSub(sunsetMillis, sunriseMillis) == diff;
    NonNegativeParts(diff);
    TruncatingDivision(diff / MILLIS_PER_MINUTE, 60);
    assert Minutes(diff) == (diff / MILLIS_PER_MINUTE) % 60;
    assert Hours(diff) == diff / MILLIS_PER_HOUR;
    TextReadBack(Hours(diff), Minutes(diff));
  }

  /** Equal instants give "0h 00m". */
  lemma ZeroLength(t: int)
    requires IsLong(t)
    ensures DayLength(t, t) == "0h 00m"
  {
  }

  /** One hour, one minute and one second give "1h 01m": the seconds are dropped. */
  lemma OneHourOneMinuteOneSecond(t: int)
    requires IsLong(t) && IsLong(t + 3661000)
    ensures DayLength(t, t + 3661000) == "1h 01m"
  {
  }

  /** A sunset 61 seconds before the sunrise gives "0h -1m". */
  lemma SunsetBeforeSunrise(t: int)
    requires IsLong(t) && IsLong(t + 61000)
    ensures DayLength(t + 61000, t) == "0h -1m"
  {
  }
}
