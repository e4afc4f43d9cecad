# Sunrise/sunset form: validation, coordinates, day length, time zones

A model of the logic of the Android activity that collects a coordinate in
degrees, minutes and seconds with its hemispheres, a date and a time zone,
and shows the sunrise, the sunset and the day length for them. The
astronomy is done by the external `SunriseSunsetCalculator` library, which
is not part of this model; what is modelled is everything around it:

- `Validation` — the submit-time checks of `validateInput`, in their order:
  a date must have been picked (the button does not read "Choose Date",
  ignoring case), all six coordinate fields must be numbers, latitude
  degrees in [-90, 90], longitude degrees in [-180, 180], every minutes and
  seconds field in [0, 60). Each field is the already-parsed number or
  `None`; the result is `Accepted` or the first failing check, with its
  notice text.
- `Coordinates` — `createLocationFromInput` as a method: degrees +
  minutes/60 + seconds/3600 per axis, negated for "S" and "W", in exact
  `real` arithmetic.
- `DayLengths` (with `Formatting`) — `getDayLength`: the 64-bit difference
  of two instants in milliseconds, whole hours and remaining minutes with
  the JVM's truncating `/` and `%`, rendered as `"%dh %02dm"`.
- `TimeZones` — the entries `"id (abbreviation)"`, the search for the first
  entry starting with "America/Mexico_City" (a loop), the list fill that
  moves the selection there only if found, and the recovery of the id as
  the text before the first space.
- `Submission` — the submit handler up to the calculator: validation gates
  the location and zone id handed to the calculator.

The code bounds only the degrees fields, so 90° 30′ N is accepted and becomes
90.5 (`Coordinates.LatitudeBeyondNinetyAccepted`), and an accepted axis can
exceed its nominal range by up to (not including) 61/60 of a degree
(`Coordinates.AcceptedLocationBounds`). Negative degrees still add their
minutes and seconds (`Coordinates.NegativeDegreesAddMinutes`). Nothing
checks that the sunset follows the sunrise; a negative difference renders
as, e.g., "0h -1m" (`DayLengths.SunsetBeforeSunrise`).

## Model

| member | source | states |
|---|---|---|
| `Validation.Validate` | iti-271164_u1_hernandez_garcia_gabriel_source/MainActivity.kt:166-209 | accepted exactly when every check passes; the date rejection exactly when the label is the placeholder (whatever the other fields hold); the number rejection exactly when the date is set and some field does not parse; each range rejection only when its range fails |
| `Validation.UnparsedFieldBeatsRange` | iti-271164_u1_hernandez_garcia_gabriel_source/MainActivity.kt:174-204 | all fields are parsed before any range check: an unparsed field rejects as "not a number" even with latitude degrees 91 |
| `Validation.LatitudeDegreesDecide` | iti-271164_u1_hernandez_garcia_gabriel_source/MainActivity.kt:183-186 | with date set and all fields parsed, the latitude rejection happens if and only if the degrees lie outside the closed [-90, 90] |
| `Validation.LongitudeDegreesDecide` | iti-271164_u1_hernandez_garcia_gabriel_source/MainActivity.kt:183-192 | the longitude rejection happens if and only if latitude degrees passed and longitude degrees lie outside the closed [-180, 180] |
| `Validation.MinutesSecondsDecide` | iti-271164_u1_hernandez_garcia_gabriel_source/MainActivity.kt:195-208 | with degrees in range, acceptance holds if and only if all four minutes/seconds lie in the half-open [0, 60); otherwise the minutes/seconds rejection |
| `Validation.BoundaryCases` | iti-271164_u1_hernandez_garcia_gabriel_source/MainActivity.kt:183-199 | 90 and -90 degrees accepted, 90.0001 rejected; 59.999 minutes accepted, 60 rejected |
| `Validation.PlaceholderIgnoresCase` | iti-271164_u1_hernandez_garcia_gabriel_source/MainActivity.kt:168-171 | "CHOOSE DATE" and "choose date" are rejected as a missing date |
| `Coordinates.CreateLocation` | iti-271164_u1_hernandez_garcia_gabriel_source/MainActivity.kt:212-231 | each axis of the location is degrees + minutes/60 + seconds/3600, negated exactly when the selection is "S" (latitude) or "W" (longitude) |
| `Coordinates.OriginIsZero` | iti-271164_u1_hernandez_garcia_gabriel_source/MainActivity.kt:213-228 | 0° 0′ 0″ gives 0 for either hemisphere |
| `Coordinates.MinutesSecondsContribution` | iti-271164_u1_hernandez_garcia_gabriel_source/MainActivity.kt:213-218 | with minutes and seconds in [0, 60) the value lies in [d, d + 61/60) |
| `Coordinates.SignFollowsHemisphere` | iti-271164_u1_hernandez_garcia_gabriel_source/MainActivity.kt:220-228 | for non-negative degrees, "S"/"W" gives a value <= 0 and the other hemisphere >= 0, strictly unless the axis is zero; the two are negations of each other |
| `Coordinates.AcceptedLocationBounds` | iti-271164_u1_hernandez_garcia_gabriel_source/MainActivity.kt:183-199 | an accepted form's latitude lies strictly within 90 + 61/60 and its longitude within 180 + 61/60 in magnitude (only the degrees are bounded) |
| `Coordinates.LatitudeBeyondNinetyAccepted` | iti-271164_u1_hernandez_garcia_gabriel_source/MainActivity.kt:183-186 | 90° 30′ N passes validation and becomes latitude 90.5 |
| `Coordinates.NegativeDegreesAddMinutes` | iti-271164_u1_hernandez_garcia_gabriel_source/MainActivity.kt:213-215 | -10° 30′ is -9.5 (minutes added, not subtracted), and 9.5 with "S" |
| `Coordinates.MexicoCityExample` | iti-271164_u1_hernandez_garcia_gabriel_source/MainActivity.kt:213-228 | 19° 25′ 42″ N, 99° 8′ 0″ W is exactly (11657/600, -1487/15) |
| `DayLengths.LongSub` | iti-271164_u1_hernandez_garcia_gabriel_source/MainActivity.kt:156 | the difference stays a 64-bit value, equals the true difference when that fits, and is congruent to it modulo 2^64 |
| `DayLengths.TruncatingDivision` | iti-271164_u1_hernandez_garcia_gabriel_source/MainActivity.kt:157-158 | `/` and `%` on longs: quotient times divisor plus remainder gives the dividend, the remainder has the dividend's sign and is smaller than the divisor, and on non-negative values they agree with Euclidean division |
| `DayLengths.NonNegativeParts` | iti-271164_u1_hernandez_garcia_gabriel_source/MainActivity.kt:156-158 | for diff >= 0: minutes in [0, 59], hours = diff / 3,600,000, hours·60 + minutes = diff / 60,000 |
| `DayLengths.PartsAnySign` | iti-271164_u1_hernandez_garcia_gabriel_source/MainActivity.kt:156-158 | for every diff: hours·60 + minutes = whole minutes truncated toward zero, minutes in (-60, 60), both non-positive for a negative diff |
| `DayLengths.TextReadBack` | iti-271164_u1_hernandez_garcia_gabriel_source/MainActivity.kt:159 | "%dh %02dm" of hours h >= 0 and minutes m < 60 is h's digits, "h ", exactly two digits, "m", and reading the fields back gives h and m |
| `DayLengths.DayLength` | iti-271164_u1_hernandez_garcia_gabriel_source/MainActivity.kt:155-160 | the hours are followed by "h " and the text ends in "m"; its full contract is carried by `DayLengths.DayLengthReadBack` (read-back of hours and two-digit minutes), `DayLengths.PartsAnySign` and `DayLengths.NonNegativeParts` (hours and minutes recombine to the whole minutes) |
| `DayLengths.DayLengthReadBack` | iti-271164_u1_hernandez_garcia_gabriel_source/MainActivity.kt:155-160 | when the sunset does not precede the sunrise and the difference fits in 64 bits, the text reads back as diff / 3,600,000 hours and (diff / 60,000) % 60 two-digit minutes |
| `DayLengths.ZeroLength` | iti-271164_u1_hernandez_garcia_gabriel_source/MainActivity.kt:155-160 | equal instants give "0h 00m" |
| `DayLengths.OneHourOneMinuteOneSecond` | iti-271164_u1_hernandez_garcia_gabriel_source/MainActivity.kt:155-160 | 3,661,000 ms gives "1h 01m", the second dropped |
| `DayLengths.SunsetBeforeSunrise` | iti-271164_u1_hernandez_garcia_gabriel_source/MainActivity.kt:155-160 | a sunset 61 s before the sunrise gives "0h -1m" (no ordering check) |
| `Formatting.NatToDigits` | iti-271164_u1_hernandez_garcia_gabriel_source/MainActivity.kt:159 | the rendering of a natural number is a non-empty digit string with no leading zero, one digit exactly below 10 |
| `Formatting.DigitsRoundTrip` | iti-271164_u1_hernandez_garcia_gabriel_source/MainActivity.kt:159 | reading back the digits of n gives n |
| `Formatting.FormatIntRoundTrip` | iti-271164_u1_hernandez_garcia_gabriel_source/MainActivity.kt:159 | `%d` reads back to its value for every sign, and is all digits exactly for non-negative values |
| `Formatting.FormatInt02TwoDigits` | iti-271164_u1_hernandez_garcia_gabriel_source/MainActivity.kt:159 | `%02d` of 0..99 is exactly two digits denoting the value |
| `Formatting.FormatInt02RoundTrip` | iti-271164_u1_hernandez_garcia_gabriel_source/MainActivity.kt:159 | `%02d` is at least two characters and reads back to its value for every sign |
| `TimeZones.FirstField` | iti-271164_u1_hernandez_garcia_gabriel_source/MainActivity.kt:138 | `split(" ")[0]` is the prefix that holds no space and ends at the first space or at the end |
| `TimeZones.Label` | iti-271164_u1_hernandez_garcia_gabriel_source/MainActivity.kt:104 | the entry is three characters longer than id and abbreviation together, starts with the id followed by a space, and ends with ")"; `TimeZones.LabelIdRoundTrip` carries the read-back of the id |
| `TimeZones.LabelIdRoundTrip` | iti-271164_u1_hernandez_garcia_gabriel_source/MainActivity.kt:104 | the text before the first space of "id (abbr)" is the id when the id holds no space |
| `TimeZones.SpacedIdIsCut` | iti-271164_u1_hernandez_garcia_gabriel_source/MainActivity.kt:138 | an id holding a space comes back as a strict prefix of itself |
| `TimeZones.DefaultEntryNamesDefaultZone` | iti-271164_u1_hernandez_garcia_gabriel_source/MainActivity.kt:113 | when the entry of a space-free id starts with "America/Mexico_City", so do the id itself and the id read back from the entry |
| `TimeZones.IndexOfDefaultZone` | iti-271164_u1_hernandez_garcia_gabriel_source/MainActivity.kt:113 | `indexOfFirst`: -1 exactly when no entry starts with "America/Mexico_City", otherwise a matching index with no match before it |
| `TimeZones.FillTimeZoneList` | iti-271164_u1_hernandez_garcia_gabriel_source/MainActivity.kt:102-117 | entries are the zones' labels in order; the selection moves to the first default entry if one exists, else stays unchanged |
| `Submission.Submit` | iti-271164_u1_hernandez_garcia_gabriel_source/MainActivity.kt:129-138 | rejects exactly the forms failing some check, showing that check's notice then "Invalid input"; otherwise hands the calculator the signed location and the selected entry's first field as zone id |

## Left out

- The sunrise/sunset computation (`SunriseSunsetCalculator`, `Location`) is a foreign library; the day length takes its two instants as inputs, and the sunrise/sunset texts and the result text are not modelled.
- Number parsing (`toDouble`) and date parsing (`SimpleDateFormat`): each coordinate field is its parse result as an `Option<real>`; the date parse after the calculator is built is not modelled; on an unparseable label it throws `ParseException`, which escapes the click handler, and that failure is not modelled either.
- Validation: non-finite parse results ("NaN", "Infinity") are not modelled; the source's comparisons are all false on NaN, so such a field would pass every range check.
- Validation.EqualsIgnoreCase: folds only ASCII letters; the platform's case-insensitive comparison also folds some non-ASCII letters (such as U+017F, long s, onto 's').
- Coordinates.CreateLocation: exact `real` arithmetic; floating-point rounding of the conversion is not modelled.
- Formatting: ASCII digits are assumed; a default locale with other digits would render differently.
- `TimeZone.getAvailableIDs`, `getDisplayName` and `sorted()` are platform calls: the zones come in as an already-sorted sequence of (id, abbreviation) pairs.
- All UI: view lookup, input length filters, spinner and adapter setup, the date picker dialog, toasts as UI (they appear only as the notices of `Submission.Submit`), and setting the result text.
- `isDaylightSavingsSelected`: nothing calls it, so it has no observable behaviour.
