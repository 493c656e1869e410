/**
 * The read-outs of the map panel's information cards: the light-intensity and
 * shadow-length labels, the "Golden Hour" card, the altitude tip, the compass
 * quadrant of the azimuth with its direction tip, and the simplified
 * day/night terminator line. Angles are in degrees and arrive as plain reals.
 */
module SunReadout {
  import opened Cycle

  // ---- altitude bands ----

  /**
   * The number of band thresholds an altitude has passed: above the horizon,
   * at least 10, at least 30 and at least 60 degrees. Every altitude read-out
   * is a choice among five entries made by this count.
   */
  function Rank(altitude: real): (k: nat)
    ensures k <= 4
    ensures k == 0 <==> altitude <= 0.0
    ensures k == 1 <==> 0.0 < altitude < 10.0
    ensures k == 2 <==> 10.0 <= altitude < 30.0
    ensures k == 3 <==> 30.0 <= altitude < 60.0
    ensures k == 4 <==> 60.0 <= altitude
  {
    (if altitude > 0.0 then 1 else 0) + (if altitude >= 10.0 then 1 else 0) +
    (if altitude >= 30.0 then 1 else 0) + (if altitude >= 60.0 then 1 else 0)
  }

  /** A higher sun has passed at least as many thresholds. */
  lemma RankMonotone(a: real, b: real)
    requires a <= b
    ensures Rank(a) <= Rank(b)
  {
  }

  const IntensityLabels: seq<string> :=
    ["Below horizon", "Golden hour", "Soft light", "Bright light", "Harsh light"]

  const ShadowLabels: seq<string> :=
    ["No shadows", "Very long", "Long", "Medium", "Short"]

  /** `getSunIntensity`: the light quality shown under the altitude. */
  function SunIntensity(altitude: real): (shown: string)
    ensures shown == IntensityLabels[Rank(altitude)]
  {
    if altitude <= 0.0 then "Below horizon"
    else if altitude < 10.0 then "Golden hour"
    else if altitude < 30.0 then "Soft light"
    else if altitude < 60.0 then "Bright light"
    else "Harsh light"
  }

  /** `getShadowLength`: the shadow description shown under the shadow ratio. */
  function ShadowLength(altitude: real): (shown: string)
    ensures shown == ShadowLabels[Rank(altitude)]
  {
    if altitude <= 0.0 then "No shadows"
    else if altitude < 10.0 then "Very long"
    else if altitude < 30.0 then "Long"
    else if altitude < 60.0 then "Medium"
    else "Short"
  }

  /** The two labels correspond band for band: the k-th intensity label appears exactly when the k-th shadow label does. */
  lemma LabelsCorrespond(altitude: real, k: nat)
    requires k < 5
    ensures SunIntensity(altitude) == IntensityLabels[k] <==> ShadowLength(altitude) == ShadowLabels[k]
    ensures SunIntensity(altitude) == "Below horizon" <==> ShadowLength(altitude) == "No shadows"
    ensures SunIntensity(altitude) == "Golden hour" <==> ShadowLength(altitude) == "Very long"
  {
    assert Distinct(IntensityLabels);
    assert Distinct(ShadowLabels);
  }

  /** Raising the sun never moves either label back down its list. */
  lemma LabelsMonotone(a: real, b: real)
    requires a <= b
    ensures IndexOf(IntensityLabels, SunIntensity(a)) <= IndexOf(IntensityLabels, SunIntensity(b))
    ensures IndexOf(ShadowLabels, ShadowLength(a)) <= IndexOf(ShadowLabels, ShadowLength(b))
  {
    assert Distinct(IntensityLabels);
    assert Distinct(ShadowLabels);
    RankMonotone(a, b);
    IndexOfDistinct(IntensityLabels, Rank(a));
    IndexOfDistinct(IntensityLabels, Rank(b));
    IndexOfDistinct(ShadowLabels, Rank(a));
    IndexOfDistinct(ShadowLabels, Rank(b));
  }

  /** The "Golden Hour" card: the headline and the note under it. */
  datatype GoldenCard = GoldenCard(headline: string, note: string)

  function GoldenHourCard(altitude: real): (card: GoldenCard)
    ensures card.headline == "YES" <==> 0.0 < altitude < 30.0
    ensures card.headline == "YES" || card.headline == "NO"
    ensures card.note == "Perfect lighting" <==> card.headline == "YES"
    ensures card.note == "Perfect lighting" || card.note == "Wait for golden hour"
  {
    GoldenCard(
      if altitude > 0.0 && altitude < 30.0 then "YES" else "NO",
      if altitude > 0.0 && altitude < 30.0 then "Perfect lighting" else "Wait for golden hour")
  }

  /** The card says YES exactly in the "Golden hour" and "Soft light" bands. */
  lemma GoldenCardBands(altitude: real)
    ensures GoldenHourCard(altitude).headline == "YES" <==>
              SunIntensity(altitude) == "Golden hour" || SunIntensity(altitude) == "Soft light"
  {
  }

  const AltitudeTipTexts: seq<string> := [
    "Sun is below horizon - perfect for blue hour and night photography",
    "Golden hour! Soft, warm light perfect for portraits and landscapes",
    "Good directional light - excellent for texture and shadow play",
    "Bright light - use fill flash or seek shade for portraits",
    "Harsh overhead light - ideal for architectural details"
  ]

  /** The altitude paragraphs of the tips box: each of the five is rendered under its own condition. */
  function AltitudeTips(altitude: real): (tips: seq<string>)
    ensures |tips| == 1
    ensures tips[0] == AltitudeTipTexts[Rank(altitude)]
  {
    (if altitude <= 0.0 then [AltitudeTipTexts[0]] else []) +
    (if altitude > 0.0 && altitude < 10.0 then [AltitudeTipTexts[1]] else []) +
    (if altitude >= 10.0 && altitude < 30.0 then [AltitudeTipTexts[2]] else []) +
    (if altitude >= 30.0 && altitude < 60.0 then [AltitudeTipTexts[3]] else []) +
    (if altitude >= 60.0 then [AltitudeTipTexts[4]] else [])
  }

  /** The tip shown and the intensity label always come from the same band. */
  lemma TipMatchesIntensity(altitude: real, k: nat)
    requires k < 5
    ensures AltitudeTips(altitude) == [AltitudeTipTexts[k]] <==> SunIntensity(altitude) == IntensityLabels[k]
  {
    assert Distinct(IntensityLabels);
    assert Distinct(AltitudeTipTexts);
  }

  // ---- azimuth quadrants ----

  /**
   * The compass quadrant of an azimuth: 0 for [0, 90), 1 for [90, 180),
   * 2 for [180, 270), and 3 for everything else, negative azimuths included.
   */
  function Quadrant(azimuth: real): (q: nat)
    ensures q <= 3
    ensures q < 3 ==> 90.0 * q as real <= azimuth < 90.0 * (q + 1) as real
    ensures q == 3 <==> azimuth < 0.0 || 270.0 <= azimuth
  {
    if azimuth < 0.0 then 3
    else
      var f := (azimuth / 90.0).Floor;
      if f >= 3 then 3 else f as nat
  }

  const QuadrantLabels: seq<string> := ["NE", "SE", "SW", "NW"]

  const DirectionTexts: seq<string> := [
    "Northeast (good for east-facing subjects)",
    "Southeast (excellent lighting)",
    "Southwest (warm afternoon light)",
    "Northwest (dramatic sidelighting)"
  ]

  /** The quadrant label on the azimuth card. */
  function AzimuthLabel(azimuth: real): (shown: string)
    ensures shown == QuadrantLabels[Quadrant(azimuth)]
  {
    if azimuth >= 0.0 && azimuth < 90.0 then "NE"
    else if azimuth >= 90.0 && azimuth < 180.0 then "SE"
    else if azimuth >= 180.0 && azimuth < 270.0 then "SW"
    else "NW"
  }

  /** The "Sun direction" line of the tips box. */
  function DirectionTip(azimuth: real): (tip: string)
    ensures tip == DirectionTexts[Quadrant(azimuth)]
  {
    if azimuth >= 0.0 && azimuth < 90.0 then "Northeast (good for east-facing subjects)"
    else if azimuth >= 90.0 && azimuth < 180.0 then "Southeast (excellent lighting)"
    else if azimuth >= 180.0 && azimuth < 270.0 then "Southwest (warm afternoon light)"
    else "Northwest (dramatic sidelighting)"
  }

  /** The card label and the direction tip name the same quadrant. */
  lemma DirectionAgrees(azimuth: real, q: nat)
    requires q < 4
    ensures AzimuthLabel(azimuth) == QuadrantLabels[q] <==> DirectionTip(azimuth) == DirectionTexts[q]
  {
    assert Distinct(QuadrantLabels);
    assert Distinct(DirectionTexts);
  }

  // ---- day/night terminator ----

  /**
   * `calculateDayNightTerminator`: latitudes from -90 to 90 in steps of 10,
   * all at one longitude shifted from the observer's by a quarter of the
   * azimuth's distance from due south.
   */
  method DayNightTerminator(lng: real, azimuth: real) returns (terminator: seq<(int, real)>)
    ensures |terminator| == 19
    ensures forall i :: 0 <= i < |terminator| ==> terminator[i] == (-90 + 10 * i, lng + (azimuth - 180.0) / 4.0)
    ensures terminator[0].0 == -90 && terminator[18].0 == 90
  {
    terminator := [];
    var lat := -90;
    while lat <= 90
      invariant lat == -90 + 10 * |terminator| && |terminator| <= 19
      invariant forall i :: 0 <= i < |terminator| ==> terminator[i] == (-90 + 10 * i, lng + (azimuth - 180.0) / 4.0)
    {
      var pointLng := lng + (azimuth - 180.0) / 4.0;
      terminator := terminator + [(lat, pointLng)];
      lat := lat + 10;
    }
  }
}
