/**
 * The map panel's hour selector: the fixed list of 24 whole hours, the
 * forward/backward buttons and the animation tick that cycle through it,
 * the 12-hour display of an entry, and the position of an entry on the
 * sun-path timeline.
 */
module Timeline {
  import opened Js
  import opened Text
  import opened Cycle

  /** The entry for hour `h`: two zero-padded digits followed by ":00". */
  function HourEntry(h: nat): string
    requires h < 24
  {
    [DigitChar(h / 10), DigitChar(h % 10), ':', '0', '0']
  }

  /** The selectable times, one per whole hour of the day. */
  function TimeOptions(): (options: seq<string>)
    ensures |options| == 24
  {
    seq(24, h requires 0 <= h < 24 => HourEntry(h))
  }

  /** Written out, the list is "00:00", "01:00", ..., "23:00". */
  lemma TimeOptionsListing()
    ensures TimeOptions() == [
      "00:00", "01:00", "02:00", "03:00", "04:00", "05:00",
      "06:00", "07:00", "08:00", "09:00", "10:00", "11:00",
      "12:00", "13:00", "14:00", "15:00", "16:00", "17:00",
      "18:00", "19:00", "20:00", "21:00", "22:00", "23:00"
    ]
  {
  }

  /** No hour is listed twice. */
  lemma OptionsDistinct()
    ensures Distinct(TimeOptions())
  {
    forall i, j | 0 <= i < j < 24
      ensures TimeOptions()[i] != TimeOptions()[j]
    {
      var a, b := TimeOptions()[i], TimeOptions()[j];
      assert DigitValue(a[0]) * 10 + DigitValue(a[1]) == i;
      assert DigitValue(b[0]) * 10 + DigitValue(b[1]) == j;
    }
  }

  /** The "next" button: one hour later, "23:00" wrapping to "00:00", and an unlisted time going to "00:00". */
  function StepForward(t: string): (r: string)
    ensures r in TimeOptions()
    ensures t !in TimeOptions() ==> r == "00:00"
    ensures t in TimeOptions() ==>
              var i := IndexOf(TimeOptions(), t);
              IndexOf(TimeOptions(), r) == if i == 23 then 0 else i + 1
  {
    OptionsDistinct();
    Next(TimeOptions(), t)
  }

  /** The "previous" button: one hour earlier, "00:00" wrapping to "23:00", and an unlisted time going to "23:00". */
  function StepBackward(t: string): (r: string)
    ensures r in TimeOptions()
    ensures t !in TimeOptions() ==> r == "23:00"
    ensures t in TimeOptions() ==>
              var i := IndexOf(TimeOptions(), t);
              IndexOf(TimeOptions(), r) == if i == 0 then 23 else i - 1
  {
    OptionsDistinct();
    Prev(TimeOptions(), t)
  }

  /** The two wrap-around edges of the list. */
  lemma StepWrapsAround()
    ensures StepForward("23:00") == "00:00"
    ensures StepBackward("00:00") == "23:00"
  {
    OptionsDistinct();
    var last, first := TimeOptions()[23], TimeOptions()[0];
    assert last == "23:00" && first == "00:00";
    IndexOfDistinct(TimeOptions(), 23);
    IndexOfDistinct(TimeOptions(), 0);
    SamePosition(TimeOptions(), StepForward(last), first);
    SamePosition(TimeOptions(), StepBackward(first), last);
  }

  /** Back then forward, and forward then back, return to any listed time. */
  lemma StepsAreInverse(t: string)
    requires t in TimeOptions()
    ensures StepForward(StepBackward(t)) == t
    ensures StepBackward(StepForward(t)) == t
  {
    OptionsDistinct();
    NextPrevInverse(TimeOptions(), t);
  }

  /** The selected time after `n` ticks of the animation timer, each tick moving as the "next" button does. */
  function Animate(t: string, n: nat): (r: string)
    ensures n > 0 ==> r in TimeOptions()
    ensures t in TimeOptions() ==> r in TimeOptions()
  {
    Advance(TimeOptions(), t, n)
  }

  /** From a listed time, `n` ticks advance `n` hours around the clock. */
  lemma AnimateAdvances(t: string, n: nat)
    requires t in TimeOptions()
    ensures IndexOf(TimeOptions(), Animate(t, n)) == (IndexOf(TimeOptions(), t) + n) % 24
  {
    OptionsDistinct();
    AdvancePosition(TimeOptions(), t, n);
  }

  /** Twenty-four ticks (or any multiple of 24) bring the animation back to the time it started from. */
  lemma AnimationCycle(t: string, n: nat)
    requires t in TimeOptions() && n % 24 == 0
    ensures Animate(t, n) == t
  {
    OptionsDistinct();
    AdvanceFullCycles(TimeOptions(), t, n);
  }

  /** Position of a time on the sun-path timeline, as a percentage of its width. */
  function TimelinePercent(t: string): (p: real)
    ensures t in TimeOptions() ==> 0.0 <= p <= 100.0
    ensures t !in TimeOptions() ==> p == -100.0 / 23.0
  {
    (IndexOf(TimeOptions(), t) as real / 23.0) * 100.0
  }

  /** The first entry sits at 0% and the last at 100%. */
  lemma TimelineEnds()
    ensures TimelinePercent(TimeOptions()[0]) == 0.0
    ensures TimelinePercent(TimeOptions()[23]) == 100.0
  {
    OptionsDistinct();
    IndexOfDistinct(TimeOptions(), 0);
    IndexOfDistinct(TimeOptions(), 23);
  }

  /** Later entries sit strictly further right. */
  lemma TimelineOrder(i: nat, j: nat)
    requires i < j < 24
    ensures TimelinePercent(TimeOptions()[i]) < TimelinePercent(TimeOptions()[j])
  {
    OptionsDistinct();
    IndexOfDistinct(TimeOptions(), i);
    IndexOfDistinct(TimeOptions(), j);
  }

  // ---- 12-hour display ----

  /** The text before the first ':' of `t`, or all of `t` (what `t.split(":")[0]` gives). */
  function HoursText(t: string): (h: string)
    ensures ':' !in h && h <= t
    ensures h == t || t[|h|] == ':'
  {
    var k := IndexOf(t, ':');
    if k == -1 then t else t[..k]
  }

  /**
   * What `${minutes}` renders for `t.split(":")[1]`: the text between the
   * first and second ':', or "undefined" when `t` has no ':'.
   */
  function MinutesText(t: string): (m: string)
    ensures ':' !in m
    ensures ':' !in t ==> m == "undefined"
    ensures ':' in t ==>
              var h := HoursText(t);
              h + ":" + m <= t && (|h| + 1 + |m| == |t| || t[|h| + 1 + |m|] == ':')
  {
    var k := IndexOf(t, ':');
    if k == -1 then "undefined"
    else
      var rest := t[k + 1..];
      var k2 := IndexOf(rest, ':');
      if k2 == -1 then rest else rest[..k2]
  }

  /** A time whose hour part is a plain run of digits. */
  predicate ParsableTime(t: string) {
    ':' in t && |HoursText(t)| >= 1 && AllDigits(HoursText(t))
  }

  function HourOf(t: string): nat
    requires ParsableTime(t)
  {
    DigitsValue(HoursText(t))
  }

  /** The clock-face hour shown for a 24-hour value: 0 shows as 12, 13..23 lose 12, the rest show unchanged. */
  function DisplayHour(hour: nat): (d: nat)
    ensures hour < 24 ==> 1 <= d <= 12 && d % 12 == hour % 12
  {
    if hour == 0 then 12 else if hour > 12 then hour - 12 else hour
  }

  function Meridiem(hour: nat): string {
    if hour >= 12 then "PM" else "AM"
  }

  /**
   * `formatTime`: "HH:MM" as "H:MM AM" / "H:MM PM". An hour part that
   * `parseInt` reads as NaN renders as "NaN" and, failing the `>= 12` test,
   * gets "AM".
   */
  function FormatTime(t: string): (r: string)
    ensures |r| >= 3 && r[|r| - 3] == ' ' && r[|r| - 1] == 'M'
    ensures r[|r| - 2] == 'P' <==> ParseLeadingInt(HoursText(t)).Some? && ParseLeadingInt(HoursText(t)).value >= 12
    ensures r[|r| - 2] == 'A' <==> !(ParseLeadingInt(HoursText(t)).Some? && ParseLeadingInt(HoursText(t)).value >= 12)
    ensures ParseLeadingInt(HoursText(t)).None? ==> |r| >= 4 && r[..4] == "NaN:"
    ensures ParsableTime(t) ==> ParseLeadingInt(HoursText(t)) == Some(HourOf(t))
  {
    Render(ParseLeadingInt(HoursText(t)), MinutesText(t))
  }

  /** The display built from the parsed hour (NaN as `None`) and the minutes text. */
  function Render(hour: Option<nat>, minutes: string): (r: string)
    ensures |r| >= 3 && r[|r| - 3] == ' ' && r[|r| - 1] == 'M'
    ensures r[|r| - 2] == 'P' <==> hour.Some? && hour.value >= 12
    ensures r[|r| - 2] == 'A' <==> !(hour.Some? && hour.value >= 12)
    ensures hour.None? ==> |r| >= 4 && r[..4] == "NaN:"
  {
    match hour
    case None =>
      var head := "NaN:" + minutes;
      SuffixShape(head, "AM");
      assert (head + " " + "AM")[..4] == head[..4];
      head + " " + "AM"
    case Some(h) =>
      var head := NatToString(DisplayHour(h)) + ":" + minutes;
      SuffixShape(head, Meridiem(h));
      head + " " + Meridiem(h)
  }

  /** The last three characters of `head + " " + suffix` for a two-letter suffix. */
  lemma SuffixShape(head: string, suffix: string)
    requires |suffix| == 2
    ensures var r := head + " " + suffix;
            |r| >= 3 && r[|r| - 3] == ' ' && r[|r| - 2] == suffix[0] && r[|r| - 1] == suffix[1]
  {
  }

  /** The two parts of a time whose first ':' is at position `k`. */
  lemma ColonAt(t: string, k: nat)
    requires k < |t| && t[k] == ':' && ':' !in t[..k]
    ensures HoursText(t) == t[..k]
    ensures ':' !in t[k + 1..] ==> MinutesText(t) == t[k + 1..]
  {
    assert forall j :: 0 <= j < k ==> t[j] == t[..k][j];
    assert IndexOf(t, ':') == k;
  }

  /** Hour 26 shows as 14 PM, and a NaN hour as "NaN" with AM. */
  lemma RenderSamples()
    ensures Render(Some(26), "00") == "14:00 PM"
    ensures Render(None, "15") == "NaN:15 AM"
  {
    assert NatToString(14) == [DigitChar(1), DigitChar(4)];
  }

  /** A "0x" hour is read in base 16: "0x1A" is hour 26, shown as 14 PM. */
  lemma HexHourDisplays()
    ensures FormatTime("0x1A:00") == "14:00 PM"
  {
    var t := "0x1A:00";
    ColonAt(t, 4);
    assert t[..4] == "0x1A" && t[5..] == "00";
    HexReadings();
    RenderSamples();
  }

  /** A bare "0x" hour is NaN, and the display says so. */
  lemma BareHexDisplays()
    ensures FormatTime("0x:15") == "NaN:15 AM"
  {
    var t := "0x:15";
    ColonAt(t, 2);
    assert t[..2] == "0x" && t[3..] == "15";
    HexReadings();
    RenderSamples();
  }

  /** Reads a 12-hour display back: the 24-hour value and the minutes text. */
  function ParseDisplay(r: string): (hm: (nat, string))
    requires ':' in r && |r| >= IndexOf(r, ':') + 4
    requires AllDigits(r[..IndexOf(r, ':')])
  {
    var k := IndexOf(r, ':');
    var d := DigitsValue(r[..k]);
    var pm := r[|r| - 2] == 'P';
    var hour := if pm then (if d == 12 then 12 else d + 12) else (if d == 12 then 0 else d);
    (hour, r[k + 1..|r| - 3])
  }

  /** Where the pieces of a display "digits:minutes xM" sit. */
  lemma DisplayParts(ds: string, m: string, suffix: string)
    requires |ds| >= 1 && AllDigits(ds) && |suffix| == 2
    ensures var r := ds + ":" + m + " " + suffix;
            IndexOf(r, ':') == |ds| && r[..|ds|] == ds && r[|ds| + 1..|r| - 3] == m && r[|r| - 2] == suffix[0]
  {
    var r := ds + ":" + m + " " + suffix;
    assert r[|ds|] == ':';
    assert forall j :: 0 <= j < |ds| ==> r[j] == ds[j];
    assert r[..|ds|] == ds;
    assert r[|ds| + 1..|r| - 3] == m;
  }

  /** For hours 0..23 the 12-hour display loses nothing: the hour and the minutes text read back unchanged. */
  lemma FormatTimeRoundTrip(t: string)
    requires ParsableTime(t) && HourOf(t) < 24
    ensures var r := FormatTime(t);
            ':' in r && |r| >= IndexOf(r, ':') + 4 && AllDigits(r[..IndexOf(r, ':')]) &&
            1 <= DigitsValue(r[..IndexOf(r, ':')]) <= 12 &&
            ParseDisplay(r) == (HourOf(t), MinutesText(t))
  {
    var hour := HourOf(t);
    var ds := NatToString(DisplayHour(hour));
    var r := FormatTime(t);
    assert r == Render(Some(hour), MinutesText(t));
    assert r == ds + ":" + MinutesText(t) + " " + Meridiem(hour);
    DisplayParts(ds, MinutesText(t), Meridiem(hour));
    NatToStringRoundTrip(DisplayHour(hour));
    assert DigitsValue(r[..IndexOf(r, ':')]) == DisplayHour(hour);
  }

  /** Different listed times get different labels in the selector. */
  lemma FormatTimeDistinctOnOptions(i: nat, j: nat)
    requires i < 24 && j < 24 && i != j
    ensures ParsableTime(TimeOptions()[i]) && ParsableTime(TimeOptions()[j])
    ensures FormatTime(TimeOptions()[i]) != FormatTime(TimeOptions()[j])
  {
    OptionHour(i);
    OptionHour(j);
    FormatTimeRoundTrip(TimeOptions()[i]);
    FormatTimeRoundTrip(TimeOptions()[j]);
  }

  /** Entry `h` parses as hour `h` with minutes "00". */
  lemma OptionHour(h: nat)
    requires h < 24
    ensures ParsableTime(TimeOptions()[h])
    ensures HourOf(TimeOptions()[h]) == h && MinutesText(TimeOptions()[h]) == "00"
  {
    var e := TimeOptions()[h];
    assert IndexOf(e, ':') == 2;
    assert HoursText(e) == e[..2];
    assert DigitsValue(e[..2]) == DigitsValue(e[..1]) * 10 + DigitValue(e[1]);
    assert e[..2][..1] == e[..1];
    assert e[2 + 1..] == "00";
  }
}
