# Golden-hour photography calculator: decision and formatting rules

This project is a Dafny model of the rules in the golden-hour photography web app's two main components. Each rule is written as a pure function with a checked contract, and the properties the app relies on are proved.

- **Map panel** (`src/components/enhanced-interactive-map.tsx`):
  - the 24-entry hour selector, its forward/back buttons and the animation tick;
  - the 12-hour time display;
  - the light-intensity and shadow-length labels, the "Golden Hour" card and the altitude tip;
  - the azimuth quadrant label and direction tip;
  - the simplified day/night terminator;
  - the position of an hour on the sun-path timeline.
- **Page** (`src/app/page.tsx`):
  - the coordinate check;
  - the auto-detect decision with its single retry;
  - the guarded weather fetch;
  - the URL location-name fallback and the URL replacement decision;
  - the golden-hour countdown;
  - the calendar event and its Google Calendar timestamp.

The solar calculator, the location, weather and city-database services, and the clock are outside the model. Their answers are parameters: a value, or `Threw` when the call throws.

Modules:

- `Js` (`js.dfy`): JavaScript values the rules inspect. These are numbers that may be NaN or infinite, fields that may be null or undefined, and outcomes of calls that may throw.
- `Text` (`text.dfy`): decimal digits, `parseInt` on leading digits (base 16 after "0x"), and the decimal rendering of numbers in template literals, with its round trip.
- `Cycle` (`cycle.dfy`): `indexOf` and stepping forward and back with wrap-around through a list without repeats.
- `Timeline` (`timeline.dfy`): the hour selector, `formatTime` and the timeline position.
- `SunReadout` (`sun_readout.dfy`): the altitude bands, the azimuth quadrants and the terminator.
- `Location` (`location.dfy`): the coordinate check, auto-detect, the weather fetch and the URL rules.
- `GoldenHour` (`golden_hour.dfy`): the countdown, the calendar event and `formatGoogleDate`.

Altitude, azimuth and coordinates are `real`. Instants are integer millisecond counts.

## Model

| member | source | states |
|---|---|---|
| Cycle.IndexOf | src/components/enhanced-interactive-map.tsx:251 | `indexOf` gives -1 exactly when the element is absent; otherwise it gives the first position holding it |
| Cycle.Next | src/components/enhanced-interactive-map.tsx:250-254 | the step after `x` is always in the list; an unknown `x` goes to the first entry; in a list without repeats the position moves up by one, wrapping from the last entry to the first |
| Cycle.Prev | src/components/enhanced-interactive-map.tsx:244-248 | the step before `x` is always in the list; an unknown `x` goes to the last entry; in a list without repeats the position moves down by one, wrapping from the first entry to the last |
| Cycle.NextPrevInverse | src/components/enhanced-interactive-map.tsx:244-254 | in a list without repeats, back then forward, and forward then back, return to the same element |
| Cycle.Advance | src/components/enhanced-interactive-map.tsx:163-167 | one or more forward steps always land in the list |
| Cycle.AdvancePosition | src/components/enhanced-interactive-map.tsx:163-167 | `n` forward steps from position `i` reach position `(i + n) mod length` |
| Cycle.AdvanceFullCycles | src/components/enhanced-interactive-map.tsx:163-167 | a multiple of the list length in forward steps returns to the starting element |
| Timeline.TimeOptions | src/components/enhanced-interactive-map.tsx:132-137 | the selector lists exactly 24 times |
| Timeline.TimeOptionsListing | src/components/enhanced-interactive-map.tsx:132-137 | the list is "00:00", "01:00", …, "23:00" in order |
| Timeline.OptionsDistinct | src/components/enhanced-interactive-map.tsx:132-137 | no time is listed twice, so each one has its own position |
| Timeline.StepForward | src/components/enhanced-interactive-map.tsx:250-254 | the next button always selects a listed time; a listed time moves one hour later, with 23:00 wrapping to 00:00; an unlisted time goes to "00:00" |
| Timeline.StepBackward | src/components/enhanced-interactive-map.tsx:244-248 | the previous button always selects a listed time; a listed time moves one hour earlier, with 00:00 wrapping to 23:00; an unlisted time goes to "23:00" |
| Timeline.StepWrapsAround | src/components/enhanced-interactive-map.tsx:244-254 | "23:00" steps forward to "00:00" and "00:00" steps back to "23:00" |
| Timeline.StepsAreInverse | src/components/enhanced-interactive-map.tsx:244-254 | on every listed time, back-then-forward and forward-then-back are the identity |
| Timeline.Animate | src/components/enhanced-interactive-map.tsx:159-171 | after at least one tick, or starting from a listed time, the animation shows a listed time |
| Timeline.AnimateAdvances | src/components/enhanced-interactive-map.tsx:163-167 | `n` ticks from a listed time advance `n` hours modulo 24 |
| Timeline.AnimationCycle | src/components/enhanced-interactive-map.tsx:163-167 | 24 ticks, or any multiple of 24, return to the starting time |
| Timeline.TimelinePercent | src/components/enhanced-interactive-map.tsx:610 | a listed time sits between 0% and 100% of the timeline; an unlisted one sits at -100/23 % because `indexOf` is -1 |
| Timeline.TimelineEnds | src/components/enhanced-interactive-map.tsx:581-583 | "00:00" sits at 0% and "23:00" at 100% |
| Timeline.TimelineOrder | src/components/enhanced-interactive-map.tsx:581-583 | later hours sit strictly further right |
| Timeline.HoursText | src/components/enhanced-interactive-map.tsx:268 | the hour part (`split(":")[0]`) is the prefix of the time up to its first ':', or the whole time when it has none |
| Timeline.MinutesText | src/components/enhanced-interactive-map.tsx:268-272 | the minutes part (`split(":")[1]` in a template literal) is "undefined" when the time has no ':'; otherwise the time starts with hours, ':' and this colon-free part, followed by the end or another ':' |
| Timeline.DisplayHour | src/components/enhanced-interactive-map.tsx:271 | for hours 0..23 the shown hour is in 1..12 and agrees with the hour modulo 12 |
| Timeline.FormatTime | src/components/enhanced-interactive-map.tsx:267-273 | the display ends in " PM" exactly when the parsed hour is at least 12 and in " AM" otherwise; an unparsable hour shows as "NaN:" |
| Timeline.FormatTimeRoundTrip | src/components/enhanced-interactive-map.tsx:267-273 | for hours 0..23 the shown hour is in 1..12, and with the AM/PM flag the display reads back to the same 24-hour value and the same minutes text |
| Timeline.HexHourDisplays | src/components/enhanced-interactive-map.tsx:267-273 | the hour part "0x1A" is read in base 16 as 26, so "0x1A:00" shows as "14:00 PM" |
| Timeline.BareHexDisplays | src/components/enhanced-interactive-map.tsx:267-273 | a bare "0x" hour is NaN, so "0x:15" shows as "NaN:15 AM" |
| Timeline.FormatTimeDistinctOnOptions | src/components/enhanced-interactive-map.tsx:267-273 | different listed times get different 12-hour displays |
| Timeline.OptionHour | src/components/enhanced-interactive-map.tsx:132-137 | the entry at position h parses as hour h with minutes "00" |
| Text.ParseLeadingInt | src/components/enhanced-interactive-map.tsx:269 | after a "0x"/"0X" prefix `parseInt` is NaN exactly when no hexadecimal digit follows, and on hexadecimal digits it is their base-16 value; otherwise it is NaN exactly when the text does not start with a decimal digit, and on all-digit text it is the decimal value |
| Text.HexReadings | src/components/enhanced-interactive-map.tsx:269 | "0x" and "0xg" read as NaN, "0x1A" as 26, "0X1f" as 31 and "012" as 12 |
| Text.NatToStringRoundTrip | src/components/enhanced-interactive-map.tsx:272 | the decimal text of a number parses back to that number |
| Text.IntToStringRoundTrip | src/app/page.tsx:386 | the decimal text of an integer, sign included, parses back to that integer |
| Text.NatToStringInjective | src/components/enhanced-interactive-map.tsx:272 | different numbers render differently |
| SunReadout.Rank | src/components/enhanced-interactive-map.tsx:275-289 | the band count is 0 for altitude ≤ 0, 1 for (0, 10), 2 for [10, 30), 3 for [30, 60) and 4 for ≥ 60 |
| SunReadout.RankMonotone | src/components/enhanced-interactive-map.tsx:275-289 | a higher sun is in the same or a higher band |
| SunReadout.SunIntensity | src/components/enhanced-interactive-map.tsx:275-281 | the intensity label is the one for the altitude's band |
| SunReadout.ShadowLength | src/components/enhanced-interactive-map.tsx:283-289 | the shadow label is the one for the altitude's band |
| SunReadout.LabelsCorrespond | src/components/enhanced-interactive-map.tsx:275-289 | the two labels correspond band for band: "Below horizon" iff "No shadows", "Golden hour" iff "Very long" |
| SunReadout.LabelsMonotone | src/components/enhanced-interactive-map.tsx:275-289 | raising the sun never moves either label back down its list |
| SunReadout.GoldenHourCard | src/components/enhanced-interactive-map.tsx:673-677 | the card reads YES with "Perfect lighting" exactly when 0 < altitude < 30, and otherwise NO with "Wait for golden hour" |
| SunReadout.GoldenCardBands | src/components/enhanced-interactive-map.tsx:673 | YES exactly in the "Golden hour" and "Soft light" bands |
| SunReadout.AltitudeTips | src/components/enhanced-interactive-map.tsx:688-698 | exactly one altitude tip is shown, and it is the one for the altitude's band |
| SunReadout.TipMatchesIntensity | src/components/enhanced-interactive-map.tsx:688-698 | the shown tip and the intensity label always come from the same band |
| SunReadout.Quadrant | src/components/enhanced-interactive-map.tsx:637-643 | quadrant q < 3 covers [90q, 90q + 90); quadrant 3 covers negative azimuths and those ≥ 270 |
| SunReadout.AzimuthLabel | src/components/enhanced-interactive-map.tsx:637-643 | the label is NE, SE, SW or NW according to the azimuth's quadrant |
| SunReadout.DirectionTip | src/components/enhanced-interactive-map.tsx:701-707 | the direction tip is the one for the azimuth's quadrant |
| SunReadout.DirectionAgrees | src/components/enhanced-interactive-map.tsx:637-707 | the card label and the direction tip always name the same quadrant |
| SunReadout.DayNightTerminator | src/components/enhanced-interactive-map.tsx:203-213 | there are 19 points with latitudes -90, -80, …, 90 in order; all share the longitude `lng + (azimuth - 180) / 4` |
| Location.Rejected | src/app/page.tsx:292-296 | a location is rejected exactly when it is not (present, both coordinates finite numbers, \|lat\| ≤ 90, \|lon\| ≤ 180); the checks at 314-318 and 346-350 are the same text |
| Location.BoundsInclusive | src/app/page.tsx:292-296 | ±90 and ±180 are accepted, anything beyond is rejected, and so is a missing, NaN or infinite coordinate |
| Location.LocationText | src/app/page.tsx:332 | the location field shows the address, or "city, country" when the address is empty; it is never empty |
| Location.Detect | src/app/page.tsx:279-340 | a stored location always passes the check; a valid first result is used with one detection; otherwise the cache is cleared and exactly one retry is made; an invalid retry stores nothing and reports the default-location message; a throw reports the manual-entry message; the stored location is handed to `calculateNextGoldenHour`, which passes it to `updateURL` exactly when its flag is set (src/app/page.tsx:414-419) |
| Location.AutoDetect | src/app/page.tsx:322-333 | as written, both successful paths pass the flag as true, so the detected location is both used for the countdown and written into the URL |
| Location.AutoDetectRewritesUrl | src/app/page.tsx:414-419 | a valid first detection ends in `updateURL` with that location |
| Location.AutoDetectIntended | src/app/page.tsx:416 | with the flag false, as the comment promises, auto-detection never touches the URL and otherwise leaves exactly what the code as written leaves |
| Location.RetryOnlyAfterInvalid | src/app/page.tsx:292-312 | after a valid first detection the retry plays no part |
| Location.FetchWeather | src/app/page.tsx:342-367 | invalid coordinates make no service call; weather and conditions are both set or both null, and both are set exactly when the location is valid and both calls return |
| Location.UrlLocationName | src/app/page.tsx:228-250 | the URL name is never empty, never "Unknown City" and never holds "°"; a usable city is kept, and only an unusable one consults the database; a usable nearest city is taken; otherwise the name is "Location" |
| Location.UrlNameStable | src/app/page.tsx:228-250 | running the choice again on the chosen name keeps it and consults nothing |
| Location.UrlReplacement | src/app/page.tsx:270-273 | the URL is replaced, with the generated one, exactly when it differs from the current path |
| Location.UrlReplacementSettles | src/app/page.tsx:270-273 | after an update the path is the generated URL, and a second update replaces nothing |
| GoldenHour.MinutesCeil | src/app/page.tsx:386 | N minutes cover the difference: (N-1)·60000 < diff ≤ N·60000 |
| GoldenHour.MinutesCeilUnique | src/app/page.tsx:386 | only one N satisfies those bounds |
| GoldenHour.TypeLabel | src/app/page.tsx:378 | "morning" gives "Morning Golden Hour", every other kind "Evening Golden Hour" |
| GoldenHour.NextGoldenHourDisplay | src/app/page.tsx:374-412 | the card counts to a start exactly when the golden hour is not current, targets its start, and is titled by its kind; with no answer or a throw it counts to the fallback morning time; the message is "ends in … minutes" or "starts in … minutes" accordingly |
| GoldenHour.CountdownReadsBack | src/app/page.tsx:384-400 | the number in the message is the minutes covering the time to the end of a current golden hour, the calculator's minutes to an upcoming one, or the minutes covering the time to the fallback |
| GoldenHour.CalendarSpan | src/app/page.tsx:582-589 | the event starts on the selected day at the target's second of the day with zero milliseconds, and ends exactly 3,600,000 ms later |
| GoldenHour.FormatGoogleDate | src/app/page.tsx:591-593 | the result ends in "Z" and holds no '-' or ':'; no '.' comes before the final "Z" |
| GoldenHour.RemoveSeparatorsAppend | src/app/page.tsx:592 | removing '-' and ':' works piece by piece |
| GoldenHour.GoogleDateOfIso | src/app/page.tsx:591-593 | the ISO text "YYYY-MM-DDTHH:MM:SS.sssZ" of every instant becomes "YYYYMMDDTHHMMSSZ" |

## Left out

- The solar calculator (`getSunPosition`, `getNextGoldenHour`, `getDayInfo`) is not part of this model. Its answers are parameters.
- The location, weather and city-database services, `router.replace`, `window.open` and URL generation (`generateSEOFriendlyURL`) are not modelled. Their results, or that they threw, are parameters.
- React state, effects, the 500 ms animation timer, dynamic imports, Leaflet setup and all rendering are left out. Each timer tick is one forward step.
- Trigonometry and floating point are left out: the radian-to-degree conversion, map offsets, sun-dial positions and the `1/tan` shadow ratio.
- Timeline.TimelinePercent: computed in exact reals; the source computes in doubles and renders the result as text.
- Text.NatToString: matches JavaScript's template-literal rendering of numbers only below 10^21, above which JavaScript switches to exponent notation. The same holds for Text.IntToString.
- Text.DigitsValue: matches `parseInt` exactly only below 2^53; larger values are rounded to a double in the source. The same holds for Text.HexValue.
- NaN altitudes and azimuths are left out. Both are `real`, so a NaN azimuth's "NW" is not covered.
- Locale and time-zone handling is left out: `toLocaleTimeString`, parsing the selected date, `setHours` on local time, daylight-saving shifts and the 06:30 fallback time. CalendarSpan counts both instants in one fixed local offset; the fallback instant is a parameter.
- The conversion of an epoch instant to calendar fields inside `toISOString` is left out. GoogleDateOfIso starts from the calendar fields. Years outside 0..9999, which `toISOString` writes with a sign and six digits, are not covered.
- The hour markers under the timeline (every third entry, src/components/enhanced-interactive-map.tsx:567-568) are rendering only.
- The undefined identifiers `lat`, `lng` and `locationName` in the auto-detect effect (src/app/page.tsx:199-201, 220) are a defect outside the modelled rules. The effect's decision to call auto-detect is not modelled.
- Text.ParseLeadingInt: skipping leading blanks and reading a sign are not modelled. Here text that does not start with a digit reads as NaN, including text that starts with a blank or a sign; a "0x" prefix is modelled.
- Timeline.FormatTime: because of the `parseInt` gap above, an hour part that starts with a blank or a sign shows as "NaN" here.
- Location.LocationText: a missing city or country renders as "undefined" in the source; here it is the empty string.
- `updateURL` doing nothing when there is no location data or no browser window (src/app/page.tsx:224) is not modelled. UrlLocationName and UrlReplacement describe the case where it proceeds.
- Location.UrlLocationName: a nearest city with a missing name is the empty string here, as `undefined` is in the source.
- GoldenHour.NextGoldenHourDisplay: the calculator's `timeUntil` is taken to be an integer, and the start and end display times are left out.
- `src/components/site-header.tsx` (static markup) and `next.config.mjs` (build configuration) are not part of this model.

## Findings

| source | as written | input that shows it | evidently intended | confidence | as-written member | corrected member |
|---|---|---|---|---|---|---|
| src/app/page.tsx:327, 333, 414-419 | auto-detection calls `calculateNextGoldenHour(data, true)`, so its guard calls `updateURL` with the detected location | any detection whose first result passes the coordinate check | the comment at src/app/page.tsx:416 says the URL is updated only when explicitly requested and not during auto-detection, and every other caller passes false | low; the comment and the call disagree, and which one the authors meant is not certain; not executed | Location.AutoDetect, Location.AutoDetectRewritesUrl | Location.AutoDetectIntended |
