/**
 * The submit-time validation of the activity's form (`validateInput`): a date
 * must have been picked, the six coordinate fields must be numbers, and the
 * degrees, minutes and seconds must lie in their ranges. The checks run in a
 * fixed order and the first failing one decides the rejection.
 */
module Validation {
  import opened Wrappers

  /** What the date button shows until a date has been picked. */
  const DATE_PLACEHOLDER: string := "Choose Date"

  /**
   * The form as read on submit. Each coordinate field is the outcome of
   * parsing its text as a number: `None` when the parse throws.
   * The hemisphere fields are the spinners' selected texts.
   */
  datatype Form = Form(
    dateLabel: string,
    latDegrees: Option<real>, latMinutes: Option<real>, latSeconds: Option<real>,
    lonDegrees: Option<real>, lonMinutes: Option<real>, lonSeconds: Option<real>,
    nsHemisphere: string, ewHemisphere: string)

  /** The outcome of validation: acceptance, or the first check that failed. */
  datatype Verdict =
    | Accepted
    | DateMissing
    | NotANumber
    | LatitudeOutOfRange
    | LongitudeOutOfRange
    | MinutesSecondsOutOfRange

  /** Case folding of a single character, over the ASCII letters. */
  function AsciiLower(c: char): char {
    if 'A' <= c <= 'Z' then (c as int + 32) as char else c
  }

  /** String equality ignoring case. */
  predicate EqualsIgnoreCase(a: string, b: string) {
    |a| == |b| && forall i :: 0 <= i < |a| ==> AsciiLower(a[i]) == AsciiLower(b[i])
  }

  predicate DateMissingLabel(text: string) {
    EqualsIgnoreCase(text, DATE_PLACEHOLDER)
  }

  predicate AllParsed(f: Form) {
    f.latDegrees.Some? && f.latMinutes.Some? && f.latSeconds.Some? &&
    f.lonDegrees.Some? && f.lonMinutes.Some? && f.lonSeconds.Some?
  }

  predicate LatitudeDegreesInRange(d: real) {
    -90.0 <= d <= 90.0
  }

  predicate LongitudeDegreesInRange(d: real) {
    -180.0 <= d <= 180.0
  }

  /** Minutes and seconds lie in the half-open range [0, 60). */
  predicate MinutesOrSecondsInRange(x: real) {
    0.0 <= x < 60.0
  }

  predicate MinutesSecondsInRange(f: Form)
    requires AllParsed(f)
  {
    MinutesOrSecondsInRange(f.latMinutes.value) && MinutesOrSecondsInRange(f.lonMinutes.value) &&
    MinutesOrSecondsInRange(f.latSeconds.value) && MinutesOrSecondsInRange(f.lonSeconds.value)
  }

  /** Every check passes: the specification of a form the activity accepts. */
  predicate WellFormed(f: Form) {
    !DateMissingLabel(f.dateLabel) && AllParsed(f) &&
    LatitudeDegreesInRange(f.latDegrees.value) &&
    LongitudeDegreesInRange(f.lonDegrees.value) &&
    MinutesSecondsInRange(f)
  }

  function Validate(f: Form): (v: Verdict)
    ensures v == Accepted <==> WellFormed(f)
    ensures v == DateMissing <==> DateMissingLabel(f.dateLabel)
    ensures v == NotANumber <==> !DateMissingLabel(f.dateLabel) && !AllParsed(f)
    ensures v == LatitudeOutOfRange ==> AllParsed(f) && !LatitudeDegreesInRange(f.latDegrees.value)
    ensures v == LongitudeOutOfRange ==> AllParsed(f) && !LongitudeDegreesInRange(f.lonDegrees.value)
    ensures v == MinutesSecondsOutOfRange ==> AllParsed(f) && !MinutesSecondsInRange(f)
  {
    if DateMissingLabel(f.dateLabel) then DateMissing
    else if !AllParsed(f) then NotANumber
    else if !LatitudeDegreesInRange(f.latDegrees.value) then LatitudeOutOfRange
    else if !LongitudeDegreesInRange(f.lonDegrees.value) then LongitudeOutOfRange
    else if !MinutesSecondsInRange(f) then MinutesSecondsOutOfRange
    else Accepted
  }

  /** The short notice shown for each rejection. */
  function Notice(v: Verdict): string
    requires v != Accepted
  {
    match v
    case DateMissing => "Please select a date"
    case NotANumber => "Please enter valid numbers for latitude and longitude"
    case LatitudeOutOfRange => "Latitude degrees must be between -90 and 90"
    case LongitudeOutOfRange => "Longitude degrees must be between -180 and 180"
    case MinutesSecondsOutOfRange => "Minutes and seconds must be between 0 and 59"
  }

  /**
   * Parsing comes before every range check: a field that is not a number
   * rejects the form as such even when another field is out of range.
   */
  lemma UnparsedFieldBeatsRange(f: Form)
    requires !DateMissingLabel(f.dateLabel)
    requires f.latDegrees == Some(91.0) && f.lonSeconds.None?
    ensures Validate(f) == NotANumber
  {
  }

  /** Once the fields parse, latitude degrees pass exactly on the closed range [-90, 90]. */
  lemma LatitudeDegreesDecide(f: Form)
    requires !DateMissingLabel(f.dateLabel) && AllParsed(f)
    ensures Validate(f) == LatitudeOutOfRange <==> !(-90.0 <= f.latDegrees.value <= 90.0)
  {
  }

  /**
   * Longitude degrees pass exactly on the closed range [-180, 180], and are
   * only looked at once the latitude degrees passed.
   */
  lemma LongitudeDegreesDecide(f: Form)
    requires !DateMissingLabel(f.dateLabel) && AllParsed(f)
    ensures Validate(f) == LongitudeOutOfRange <==>
              -90.0 <= f.latDegrees.value <= 90.0 && !(-180.0 <= f.lonDegrees.value <= 180.0)
  {
  }

  /** With the degrees in range, the form is accepted exactly when all four minutes and seconds lie in [0, 60). */
  lemma MinutesSecondsDecide(f: Form)
    requires !DateMissingLabel(f.dateLabel) && AllParsed(f)
    requires LatitudeDegreesInRange(f.latDegrees.value) && LongitudeDegreesInRange(f.lonDegrees.value)
    ensures Validate(f) == Accepted <==>
              0.0 <= f.latMinutes.value < 60.0 && 0.0 <= f.lonMinutes.value < 60.0 &&
              0.0 <= f.latSeconds.value < 60.0 && 0.0 <= f.lonSeconds.value < 60.0
    ensures Validate(f) != Accepted ==> Validate(f) == MinutesSecondsOutOfRange
  {
  }

  /** A form with a picked date and the given latitude degrees and minutes; everything else zero. */
  function SampleForm(latDegrees: real, latMinutes: real): Form {
    Form("21/3/2024", Some(latDegrees), Some(latMinutes), Some(0.0),
         Some(0.0), Some(0.0), Some(0.0), "N", "E")
  }

  /** The bounds at work: 90 and -90 degrees pass, 90.0001 does not; 59.999 minutes pass, 60 do not. */
  lemma BoundaryCases()
    ensures Validate(SampleForm(90.0, 0.0)) == Accepted
    ensures Validate(SampleForm(-90.0, 0.0)) == Accepted
    ensures Validate(SampleForm(90.0001, 0.0)) == LatitudeOutOfRange
    ensures Validate(SampleForm(0.0, 59.999)) == Accepted
    ensures Validate(SampleForm(0.0, 60.0)) == MinutesSecondsOutOfRange
  {
  }

  /** The placeholder is recognised whatever its letter case. */
  lemma PlaceholderIgnoresCase(f: Form)
    requires f.dateLabel == "CHOOSE DATE" || f.dateLabel == "choose date"
    ensures Validate(f) == DateMissing
  {
  }
}
