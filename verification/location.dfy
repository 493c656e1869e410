/**
 * The page's location rules: the coordinate check applied to every location
 * the services return, the auto-detect decision with its single retry, the
 * guarded weather fetch, the name chosen for the shareable URL, and the
 * decision to replace the URL. The location, weather and city-database
 * services are not modelled; what they return (or that they threw) is an
 * input.
 */
module Location {
  import opened Js

  /**
   * A location as the services return it. The coordinates are what
   * `Number(...)` makes of the `lat` and `lon` fields, or `Absent` when the
   * field is null or undefined. A missing city, country or address is the
   * empty string.
   */
  datatype LocationData = LocationData(lat: Field, lon: Field, city: string, country: string, address: string)

  /** A usable location: present, both coordinates finite numbers, latitude within [-90, 90] and longitude within [-180, 180]. */
  predicate ValidCoordinates(d: Option<LocationData>) {
    d.Some? &&
    d.value.lat.Present? && d.value.lat.number.Finite? &&
    d.value.lon.Present? && d.value.lon.number.Finite? &&
    -90.0 <= d.value.lat.number.value <= 90.0 &&
    -180.0 <= d.value.lon.number.value <= 180.0
  }

  /**
   * The rejection test written out at each of the three places that check a
   * location: no data, a null or undefined coordinate, a coordinate that is
   * not a number, or one whose magnitude is beyond 90 (latitude) or 180
   * (longitude).
   */
  function Rejected(d: Option<LocationData>): (rejected: bool)
    ensures rejected <==> !ValidCoordinates(d)
  {
    d.None? ||
    d.value.lat.Absent? ||
    d.value.lon.Absent? ||
    IsNaN(d.value.lat.number) || IsNaN(d.value.lon.number) ||
    AbsExceeds(d.value.lat.number, 90.0) || AbsExceeds(d.value.lon.number, 180.0)
  }

  /**
   * Both bounds are inclusive: the poles and the antimeridian are accepted,
   * anything past them is not, and neither is a missing, NaN or infinite
   * coordinate.
   */
  lemma BoundsInclusive(lat: real, lon: real, excess: real, city: string, country: string, address: string)
    requires excess > 0.0
    ensures !Rejected(Some(LocationData(Present(Finite(lat)), Present(Finite(lon)), city, country, address))) <==>
              -90.0 <= lat <= 90.0 && -180.0 <= lon <= 180.0
    ensures !Rejected(Some(LocationData(Present(Finite(90.0)), Present(Finite(180.0)), city, country, address)))
    ensures !Rejected(Some(LocationData(Present(Finite(-90.0)), Present(Finite(-180.0)), city, country, address)))
    ensures Rejected(Some(LocationData(Present(Finite(90.0 + excess)), Present(Finite(lon)), city, country, address)))
    ensures Rejected(Some(LocationData(Present(Finite(lat)), Present(Finite(-180.0 - excess)), city, country, address)))
    ensures Rejected(Some(LocationData(Present(Infinity(false)), Present(Finite(lon)), city, country, address)))
    ensures Rejected(Some(LocationData(Present(Finite(lat)), Present(NaN), city, country, address)))
    ensures Rejected(Some(LocationData(Absent, Present(Finite(lon)), city, country, address)))
  {
  }

  /** The text put in the location field: the address, or "city, country" when there is none. */
  function LocationText(d: LocationData): (text: string)
    ensures |text| >= 1
    ensures d.address != "" ==> text == d.address
    ensures d.address == "" ==>
              |text| == |d.city| + 2 + |d.country| && text[..|d.city|] == d.city &&
              text[|d.city|..|d.city| + 2] == ", " && text[|d.city| + 2..] == d.country
  {
    if d.address != "" then d.address else d.city + ", " + d.country
  }

  const DefaultLocationMessage: string := "Unable to detect location automatically. Using default location."
  const ManualEntryMessage: string := "Unable to detect location automatically. Please enter manually."

  /**
   * What one run of `autoDetectLocation` leaves behind: the stored location
   * (and the text shown for it), the error message (cleared at the start),
   * whether the service cache was cleared, how many detections were made,
   * the location handed on to `calculateNextGoldenHour` (which sets the
   * countdown and fetches the weather for it), and the location that call
   * then passes to `updateURL`.
   */
  datatype Detection = Detection(
    stored: Option<LocationData>,
    shown: Option<string>,
    error: string,
    cacheCleared: bool,
    detectCalls: nat,
    goldenHourFor: Option<LocationData>,
    urlUpdatedFor: Option<LocationData>)

  /**
   * `autoDetectLocation` given what the first detection and the forced retry
   * return (or that they threw), with the `shouldUpdateURL` flag it hands to
   * `calculateNextGoldenHour`: a valid first result is used; otherwise the
   * cache is cleared and the retry is used if valid; an invalid retry reports
   * the default-location message, and a throw at either step the
   * manual-entry message. A used location is handed on, and reaches
   * `updateURL` only when the flag is set.
   */
  function Detect(first: Outcome<Option<LocationData>>, retry: Outcome<Option<LocationData>>, shouldUpdateUrl: bool): (d: Detection)
    ensures d.stored.Some? ==> ValidCoordinates(d.stored)
    ensures d.stored.Some? <==> d.error == ""
    ensures d.stored.Some? ==> d.shown == Some(LocationText(d.stored.value))
    ensures d.stored.None? ==> d.shown.None?
    ensures d.detectCalls == (if first.Returned? && !ValidCoordinates(first.value) then 2 else 1)
    ensures d.cacheCleared <==> d.detectCalls == 2
    ensures first.Returned? && ValidCoordinates(first.value) ==> d.stored == first.value
    ensures d.stored.Some? && d.detectCalls == 2 ==> retry.Returned? && d.stored == retry.value
    ensures d.error == DefaultLocationMessage <==>
              first.Returned? && !ValidCoordinates(first.value) && retry.Returned? && !ValidCoordinates(retry.value)
    ensures d.error == ManualEntryMessage <==>
              first.Threw? || (!ValidCoordinates(first.value) && retry.Threw?)
    ensures d.goldenHourFor == d.stored
    ensures d.urlUpdatedFor.Some? <==> shouldUpdateUrl && d.stored.Some?
    ensures d.urlUpdatedFor.Some? ==> d.urlUpdatedFor == d.stored
  {
    match first
    case Threw => Detection(None, None, ManualEntryMessage, false, 1, None, None)
    case Returned(found) =>
      if !Rejected(found) then Used(found, false, 1, shouldUpdateUrl)
      else
        match retry
        case Threw => Detection(None, None, ManualEntryMessage, true, 2, None, None)
        case Returned(again) =>
          if Rejected(again) then Detection(None, None, DefaultLocationMessage, true, 2, None, None)
          else Used(again, true, 2, shouldUpdateUrl)
  }

  /** A detected location put to use: stored, shown, and handed to `calculateNextGoldenHour`. */
  function Used(found: Option<LocationData>, cacheCleared: bool, detectCalls: nat, shouldUpdateUrl: bool): Detection
    requires found.Some?
  {
    Detection(found, Some(LocationText(found.value)), "", cacheCleared, detectCalls,
              found, if shouldUpdateUrl then found else None)
  }

  /** `autoDetectLocation` as written: both successful paths pass `shouldUpdateURL = true`, so the detected location is also written into the URL. */
  function AutoDetect(first: Outcome<Option<LocationData>>, retry: Outcome<Option<LocationData>>): (d: Detection)
    ensures d.goldenHourFor == d.stored
    ensures d.urlUpdatedFor == d.stored
  {
    Detect(first, retry, true)
  }

  /** A successful auto-detection rewrites the URL, although the guard in `calculateNextGoldenHour` is documented as skipping auto-detection. */
  lemma AutoDetectRewritesUrl(found: Option<LocationData>, retry: Outcome<Option<LocationData>>)
    requires ValidCoordinates(found)
    ensures AutoDetect(Returned(found), retry).urlUpdatedFor == found
  {
  }

  /** `autoDetectLocation` as documented: the same detection, with the URL left alone. */
  function AutoDetectIntended(first: Outcome<Option<LocationData>>, retry: Outcome<Option<LocationData>>): (d: Detection)
    ensures d.urlUpdatedFor.None?
    ensures d.(urlUpdatedFor := AutoDetect(first, retry).urlUpdatedFor) == AutoDetect(first, retry)
  {
    Detect(first, retry, false)
  }

  /** A valid first detection makes the retry's outcome irrelevant. */
  lemma RetryOnlyAfterInvalid(found: Option<LocationData>, r1: Outcome<Option<LocationData>>, r2: Outcome<Option<LocationData>>, shouldUpdateUrl: bool)
    requires ValidCoordinates(found)
    ensures Detect(Returned(found), r1, shouldUpdateUrl) == Detect(Returned(found), r2, shouldUpdateUrl)
  {
  }

  /** The weather card's state after `fetchWeatherData`, and how many weather-service calls were made. */
  datatype WeatherState<W, C> = WeatherState(weather: Option<W>, conditions: Option<C>, serviceCalls: nat)

  /**
   * `fetchWeatherData`: an invalid location throws before any service call;
   * the conditions are requested only after the weather returned; any throw
   * leaves both values null.
   */
  function FetchWeather<W, C>(d: Option<LocationData>, weather: Outcome<W>, conditions: Outcome<C>): (s: WeatherState<W, C>)
    ensures !ValidCoordinates(d) ==> s.serviceCalls == 0
    ensures ValidCoordinates(d) ==> s.serviceCalls == if weather.Threw? then 1 else 2
    ensures s.weather.Some? <==> s.conditions.Some?
    ensures s.weather.Some? <==> ValidCoordinates(d) && weather.Returned? && conditions.Returned?
    ensures s.weather.Some? ==> s.weather.value == weather.value && s.conditions.value == conditions.value
  {
    if Rejected(d) then WeatherState(None, None, 0)
    else
      match weather
      case Threw => WeatherState(None, None, 1)
      case Returned(w) =>
        match conditions
        case Threw => WeatherState(None, None, 2)
        case Returned(c) => WeatherState(Some(w), Some(c), 2)
  }

  // ---- the shareable URL ----

  /** A name fit for the URL: not empty, not the placeholder "Unknown City", and not a coordinate string (no degree sign). */
  predicate UsableName(name: string) {
    name != "" && name != "Unknown City" && '°' !in name
  }

  /** The name put in the URL, and whether the nearest-city database was asked. */
  datatype NameChoice = NameChoice(name: string, consultedDatabase: bool)

  /**
   * The location name chosen by `updateURL`: the city when usable, otherwise
   * the nearest city's name when the lookup found one, and "Location" when
   * the result is still unusable. The lookup either throws or returns a city
   * (or none).
   */
  function UrlLocationName(city: string, nearest: Outcome<Option<string>>): (c: NameChoice)
    ensures UsableName(c.name)
    ensures c.consultedDatabase <==> !UsableName(city)
    ensures UsableName(city) ==> c.name == city
    ensures !UsableName(city) && nearest.Returned? && nearest.value.Some? && UsableName(nearest.value.value) ==>
              c.name == nearest.value.value
    ensures c.name == city || c.name == "Location" ||
              (nearest.Returned? && nearest.value.Some? && c.name == nearest.value.value)
  {
    var looked :=
      if UsableName(city) then city
      else match nearest
        case Returned(Some(found)) => found
        case _ => city;
    NameChoice(if UsableName(looked) then looked else "Location", !UsableName(city))
  }

  /** Feeding the chosen name back in keeps it and asks the database nothing. */
  lemma UrlNameStable(city: string, nearest: Outcome<Option<string>>, again: Outcome<Option<string>>)
    ensures var c := UrlLocationName(city, nearest);
            UrlLocationName(c.name, again) == NameChoice(c.name, false)
  {
  }

  /** The path handed to `router.replace`, if any: the generated URL, exactly when it differs from the current path. */
  function UrlReplacement(currentPath: string, newUrl: string): (r: Option<string>)
    ensures r.Some? <==> currentPath != newUrl
    ensures r.Some? ==> r.value == newUrl
  {
    if currentPath != newUrl then Some(newUrl) else None
  }

  /** After the (possible) replacement the path is the generated URL, and a second update replaces nothing. */
  lemma UrlReplacementSettles(currentPath: string, newUrl: string)
    ensures var r := UrlReplacement(currentPath, newUrl);
            var after := if r.Some? then r.value else currentPath;
            after == newUrl && UrlReplacement(after, newUrl).None?
  {
  }
}
