/**
 * The time-zone list (`fillTimeZoneSpinnerDynamically`): each zone is shown
 * as "id (abbreviation)", the default entry is the first one that starts with
 * "America/Mexico_City", and on submit the zone id is read back as the text
 * before the first space of the selected entry.
 */
module TimeZones {

  const DEFAULT_ZONE_PREFIX: string := "America/Mexico_City"

  /** A platform time zone: its id and its short display name. */
  datatype Zone = Zone(id: string, abbreviation: string)

  /** The entry shown for a zone. */
  function Label(z: Zone): (r: string)
    ensures |r| == |z.id| + |z.abbreviation| + 3
    ensures z.id <= r && r[|z.id|] == ' '
    ensures r[|r| - 1] == ')'
  {
    z.id + " (" + z.abbreviation + ")"
  }

  /**
   * The first field of splitting `s` at " ": the longest prefix of `s` that
   * holds no space (all of `s` when it holds none).
   */
  function FirstField(s: string): (r: string)
    ensures r <= s
    ensures ' ' !in r
    ensures |r| < |s| ==> s[|r|] == ' '
  {
    if s == [] || s[0] == ' ' then [] else [s[0]] + FirstField(s[1..])
  }

  /** The id is recovered from its entry whenever it holds no space. */
  lemma LabelIdRoundTrip(z: Zone)
    requires ' ' !in z.id
    ensures FirstField(Label(z)) == z.id
  {
    var s := Label(z);
    assert s[|z.id|] == ' ';
  }

  /** An id that holds a space is cut at it: the calculator would get a strict prefix of it. */
  lemma SpacedIdIsCut(z: Zone)
    requires ' ' in z.id
    ensures FirstField(Label(z)) < z.id
  {
    var s := Label(z);
    var r := FirstField(s);
    var k :| 0 <= k < |z.id| && z.id[k] == ' ';
    assert s[k] == ' ';
    assert r == z.id[..|r|];
  }

  /** When a space-free id's entry starts with the default prefix, so do the id and the id read back from the entry. */
  lemma DefaultEntryNamesDefaultZone(z: Zone)
    requires ' ' !in z.id
    requires DEFAULT_ZONE_PREFIX <= Label(z)
    ensures DEFAULT_ZONE_PREFIX <= z.id
    ensures DEFAULT_ZONE_PREFIX <= FirstField(Label(z))
  {
    LabelIdRoundTrip(z);
  }

  predicate IsDefaultEntry(entry: string) {
    DEFAULT_ZONE_PREFIX <= entry
  }

  /** The index of the first entry starting with the default prefix, or -1 when none does. */
  method IndexOfDefaultZone(entries: seq<string>) returns (idx: int)
    ensures -1 <= idx < |entries|
    ensures idx == -1 <==> forall j :: 0 <= j < |entries| ==> !IsDefaultEntry(entries[j])
    ensures idx >= 0 ==> IsDefaultEntry(entries[idx])
    ensures forall j :: 0 <= j < idx ==> !IsDefaultEntry(entries[j])
  {
    var i := 0;
    while i < |entries|
      invariant 0 <= i <= |entries|
      invariant forall j :: 0 <= j < i ==> !IsDefaultEntry(entries[j])
    {
      if IsDefaultEntry(entries[i]) {
        return i;
      }
      i := i + 1;
    }
    return -1;
  }

  /**
   * Fills the list from the platform's zones (already sorted by id) and moves
   * the selection to the default entry; with no default entry the selection
   * is left as it was.
   */
  method FillTimeZoneList(zones: seq<Zone>, selection: nat) returns (entries: seq<string>, selected: nat)
    ensures |entries| == |zones|
    ensures forall i :: 0 <= i < |zones| ==> entries[i] == Label(zones[i])
    ensures (forall j :: 0 <= j < |entries| ==> !IsDefaultEntry(entries[j])) ==> selected == selection
    ensures (exists j :: 0 <= j < |entries| && IsDefaultEntry(entries[j])) ==>
              selected < |entries| && IsDefaultEntry(entries[selected]) &&
              forall j :: 0 <= j < selected ==> !IsDefaultEntry(entries[j])
  {
    entries := seq(|zones|, i requires 0 <= i < |zones| => Label(zones[i]));
    var idx := IndexOfDefaultZone(entries);
    if idx >= 0 {
      selected := idx;
    } else {
      selected := selection;
    }
  }
}
