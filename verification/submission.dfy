/**
 * The submit button's handler, up to the call into the sunrise/sunset
 * calculator: validation gates everything; a rejection shows the check's
 * own notice followed by "Invalid input"; an accepted form yields the
 * location and the zone id the calculator is built with.
 */
module Submission {
  import opened Validation
  import opened Coordinates
  import opened TimeZones

  const INVALID_INPUT_NOTICE: string := "Invalid input"

  datatype Outcome =
    | Rejected(notices: seq<string>)
    | Calculate(location: Location, zoneId: string)

  method Submit(f: Form, selectedEntry: string) returns (out: Outcome)
    ensures out.Rejected? <==> !WellFormed(f)
    ensures out.Rejected? ==> out.notices == [Notice(Validate(f)), INVALID_INPUT_NOTICE]
    ensures out.Calculate? ==>
              AllParsed(f) &&
              out.location == Location(Signed(LatitudeDms(f), IsSouth(f)), Signed(LongitudeDms(f), IsWest(f))) &&
              out.zoneId == FirstField(selectedEntry)
  {
    var verdict := Validate(f);
    if verdict != Accepted {
      out := Rejected([Notice(verdict), INVALID_INPUT_NOTICE]);
      return;
    }
    var location := CreateLocation(f);
    out := Calculate(location, FirstField(selectedEntry));
  }
}
