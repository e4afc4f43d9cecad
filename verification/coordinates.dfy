/**
 * Turning the validated form into a location (`createLocationFromInput`):
 * each axis is degrees + minutes/60 + seconds/3600, negated for the southern
 * or the western hemisphere. Arithmetic is exact (`real`).
 */
module Coordinates {
  import opened Wrappers
  import opened Validation

  /** One axis as typed: degrees, minutes and seconds. */
  datatype Dms = Dms(degrees: real, minutes: real, seconds: real)

  /** Signed decimal degrees, as handed to the sunrise/sunset calculator. */
  datatype Location = Location(latitude: real, longitude: real)

  /** The unsigned sum of the three parts, in degrees. */
  function DecimalDegrees(c: Dms): real {
    c.degrees + c.minutes / 60.0 + c.seconds / 3600.0
  }

  /** The axis in decimal degrees, negated when its hemisphere is the negative one. */
  function Signed(c: Dms, negative: bool): real {
    if negative then -DecimalDegrees(c) else DecimalDegrees(c)
  }

  function LatitudeDms(f: Form): Dms
    requires AllParsed(f)
  {
    Dms(f.latDegrees.value, f.latMinutes.value, f.latSeconds.value)
  }

  function LongitudeDms(f: Form): Dms
    requires AllParsed(f)
  {
    Dms(f.lonDegrees.value, f.lonMinutes.value, f.lonSeconds.value)
  }

  /** Only the exact selection "S" turns the latitude south, only "W" the longitude west. */
  predicate IsSouth(f: Form) { f.nsHemisphere == "S" }
  predicate IsWest(f: Form) { f.ewHemisphere == "W" }

  /**
   * Builds the location from the form. The caller has validated the form, so
   * every field parses.
   */
  method CreateLocation(f: Form) returns (loc: Location)
    requires AllParsed(f)
    ensures loc.latitude == Signed(LatitudeDms(f), IsSouth(f))
    ensures loc.longitude == Signed(LongitudeDms(f), IsWest(f))
  {
    var latitude := f.latDegrees.value + f.latMinutes.value / 60.0 + f.latSeconds.value / 3600.0;
    var longitude := f.lonDegrees.value + f.lonMinutes.value / 60.0 + f.lonSeconds.value / 3600.0;
    if f.nsHemisphere == "S" {
      latitude := -latitude;
    }
    if f.ewHemisphere == "W" {
      longitude := -longitude;
    }
    loc := Location(latitude, longitude);
  }

  /** 0° 0′ 0″ is 0 whichever hemisphere is selected. */
  lemma OriginIsZero(negative: bool)
    ensures Signed(Dms(0.0, 0.0, 0.0), negative) == 0.0
  {
    assert DecimalDegrees(Dms(0.0, 0.0, 0.0)) == 0.0;
  }

  /**
   * With minutes and seconds in [0, 60), the minutes and seconds add less
   * than 61/60 of a degree: the value lies in [d, d + 61/60). (Fractional
   * minutes are accepted, so it can exceed d + 1.)
   */
  lemma MinutesSecondsContribution(c: Dms)
    requires MinutesOrSecondsInRange(c.minutes) && MinutesOrSecondsInRange(c.seconds)
    ensures c.degrees <= DecimalDegrees(c) < c.degrees + 61.0 / 60.0
  {
  }

  /**
   * Sign consistency: for non-negative degrees, the southern/western
   * hemisphere gives a value <= 0 and the other one a value >= 0, both
   * strict unless the axis is 0° 0′ 0″.
   */
  lemma SignFollowsHemisphere(c: Dms)
    requires c.degrees >= 0.0
    requires MinutesOrSecondsInRange(c.minutes) && MinutesOrSecondsInRange(c.seconds)
    ensures Signed(c, true) <= 0.0 <= Signed(c, false)
    ensures Signed(c, true) == -Signed(c, false)
    ensures c != Dms(0.0, 0.0, 0.0) ==> Signed(c, true) < 0.0 < Signed(c, false)
  {
  }

  /**
   * What validation guarantees about an accepted location: only the degrees
   * are bounded, so each axis can exceed its nominal range by less than 61/60
   * of a degree, and by no more.
   */
  lemma AcceptedLocationBounds(f: Form)
    requires Validate(f) == Accepted
    ensures -90.0 - 61.0 / 60.0 < Signed(LatitudeDms(f), IsSouth(f)) < 90.0 + 61.0 / 60.0
    ensures -180.0 - 61.0 / 60.0 < Signed(LongitudeDms(f), IsWest(f)) < 180.0 + 61.0 / 60.0
  {
  }

  /** Validation bounds only the degrees: 90° 30′ north is accepted and is 90.5. */
  lemma LatitudeBeyondNinetyAccepted()
    ensures Validate(SampleForm(90.0, 30.0)) == Accepted
    ensures Signed(LatitudeDms(SampleForm(90.0, 30.0)), IsSouth(SampleForm(90.0, 30.0))) == 90.5
  {
  }

  /** Negative degrees still add their minutes: -10° 30′ is -9.5, not -10.5; "S" then gives +9.5. */
  lemma NegativeDegreesAddMinutes()
    ensures Signed(Dms(-10.0, 30.0, 0.0), false) == -9.5
    ensures Signed(Dms(-10.0, 30.0, 0.0), true) == 9.5
  {
  }

  /** 19° 25′ 42″ N, 99° 8′ 0″ W is (11657/600, -1487/15), about (19.4283, -99.1333). */
  lemma MexicoCityExample()
    ensures Signed(Dms(19.0, 25.0, 42.0), false) == 11657.0 / 600.0
    ensures Signed(Dms(99.0, 8.0, 0.0), true) == -1487.0 / 15.0
  {
  }
}
