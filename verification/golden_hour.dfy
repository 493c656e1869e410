/**
 * The page's golden-hour countdown and its "add to calendar" link: the
 * headline chosen from the solar calculator's answer (or its fallback), the
 * whole-minute countdown, the one-hour calendar event and the compact UTC
 * timestamp Google Calendar expects. Instants are millisecond counts; the
 * calculator's answer is an input.
 */
module GoldenHour {
  import opened Js
  import opened Text
  import opened Cycle

  const MsPerSecond: int := 1000
  const MsPerMinute: int := 60000
  const MsPerHour: int := 3600000
  const MsPerDay: int := 86400000

  /** `Math.ceil(diffMs / 60000)`: the whole number of minutes covering a time difference. */
  function MinutesCeil(diffMs: int): (n: int)
    ensures (n - 1) * MsPerMinute < diffMs <= n * MsPerMinute
  {
    -((-diffMs) / MsPerMinute)
  }

  /** Exactly one whole number of minutes covers a difference, so the countdown is determined by the bounds above. */
  lemma MinutesCeilUnique(diffMs: int, n: int)
    requires (n - 1) * MsPerMinute < diffMs <= n * MsPerMinute
    ensures MinutesCeil(diffMs) == n
  {
  }

  /** What the solar calculator reports about the next golden hour. */
  datatype GoldenHourInfo = GoldenHourInfo(kind: string, startMs: int, endMs: int, isCurrent: bool, timeUntil: int)

  /** The countdown card: its title, the instant the calendar link uses, whether it counts to a start, and the message. */
  datatype Countdown = Countdown(typeLabel: string, targetMs: int, isStart: bool, message: string)

  const StartsPrefix: string := "starts in "
  const EndsPrefix: string := "ends in "
  const MinutesSuffix: string := " minutes"

  /** The card title: "morning" is the morning golden hour, every other kind the evening one. */
  function TypeLabel(kind: string): (title: string)
    ensures title == "Morning Golden Hour" <==> kind == "morning"
    ensures title == "Morning Golden Hour" || title == "Evening Golden Hour"
  {
    if kind == "morning" then "Morning Golden Hour" else "Evening Golden Hour"
  }

  /**
   * The countdown set by `calculateNextGoldenHour`. When the calculator finds
   * a golden hour, the card counts down to its end if it is under way and
   * quotes the calculator's minutes until its start otherwise. When it finds
   * none, or throws, the card counts up to a fallback morning time.
   */
  function NextGoldenHourDisplay(answer: Outcome<Option<GoldenHourInfo>>, nowMs: int, fallbackMs: int): (c: Countdown)
    ensures c.typeLabel == "Morning Golden Hour" || c.typeLabel == "Evening Golden Hour"
    ensures answer.Returned? && answer.value.Some? ==>
              var info := answer.value.value;
              c.isStart == !info.isCurrent && c.targetMs == info.startMs && c.typeLabel == TypeLabel(info.kind)
    ensures !(answer.Returned? && answer.value.Some?) ==>
              c.isStart && c.targetMs == fallbackMs && c.typeLabel == "Morning Golden Hour"
    ensures var prefix := if c.isStart then StartsPrefix else EndsPrefix;
            |c.message| > |prefix| + |MinutesSuffix| &&
            c.message[..|prefix|] == prefix && c.message[|c.message| - |MinutesSuffix|..] == MinutesSuffix
  {
    match answer
    case Returned(Some(info)) =>
      var message :=
        if info.isCurrent then EndsPrefix + IntToString(MinutesCeil(info.endMs - nowMs)) + MinutesSuffix
        else StartsPrefix + IntToString(info.timeUntil) + MinutesSuffix;
      Countdown(TypeLabel(info.kind), info.startMs, !info.isCurrent, message)
    case _ =>
      Countdown("Morning Golden Hour", fallbackMs, true,
                StartsPrefix + IntToString(MinutesCeil(fallbackMs - nowMs)) + MinutesSuffix)
  }

  /** The text between a message's prefix and its " minutes" suffix. */
  function CountText(c: Countdown): string
    requires |c.message| > |if c.isStart then StartsPrefix else EndsPrefix| + |MinutesSuffix|
  {
    var prefix := if c.isStart then StartsPrefix else EndsPrefix;
    c.message[|prefix|..|c.message| - |MinutesSuffix|]
  }

  /** The middle of `prefix + IntToString(n) + suffix` is the number's text again. */
  lemma MiddleText(prefix: string, n: int, suffix: string)
    ensures var m := prefix + IntToString(n) + suffix;
            m[|prefix|..|m| - |suffix|] == IntToString(n)
  {
    var m := prefix + IntToString(n) + suffix;
    assert m[|prefix|..|m| - |suffix|] == (prefix + IntToString(n))[|prefix|..];
  }

  /**
   * The number in the message reads back as: the minutes covering the time
   * left until the end of a current golden hour, the calculator's minutes
   * until an upcoming one, or the minutes covering the time until the
   * fallback.
   */
  lemma CountdownReadsBack(answer: Outcome<Option<GoldenHourInfo>>, nowMs: int, fallbackMs: int)
    ensures var c := NextGoldenHourDisplay(answer, nowMs, fallbackMs);
            IsIntText(CountText(c)) &&
            var n := IntValue(CountText(c));
            match answer
            case Returned(Some(info)) =>
              if info.isCurrent then (n - 1) * MsPerMinute < info.endMs - nowMs <= n * MsPerMinute
              else n == info.timeUntil
            case _ => (n - 1) * MsPerMinute < fallbackMs - nowMs <= n * MsPerMinute
  {
    var c := NextGoldenHourDisplay(answer, nowMs, fallbackMs);
    var n := match answer
      case Returned(Some(info)) =>
        if info.isCurrent then MinutesCeil(info.endMs - nowMs) else info.timeUntil
      case _ => MinutesCeil(fallbackMs - nowMs);
    MiddleText(if c.isStart then StartsPrefix else EndsPrefix, n, MinutesSuffix);
    IntToStringRoundTrip(n);
  }

  // ---- the calendar link ----

  /** The event placed in the calendar link. */
  datatype CalendarEvent = CalendarEvent(startMs: int, endMs: int)

  /**
   * The event for a target time on a selected day: the selected day's
   * midnight plus the target's time of day cut down to whole seconds, lasting
   * one hour. Both instants are counted in local time.
   */
  function CalendarSpan(selectedMs: int, targetMs: int): (ev: CalendarEvent)
    ensures ev.endMs - ev.startMs == MsPerHour
    ensures ev.startMs % MsPerSecond == 0
    ensures ev.startMs / MsPerDay == selectedMs / MsPerDay
    ensures ev.startMs % MsPerDay / MsPerSecond == targetMs % MsPerDay / MsPerSecond
  {
    var midnight := (selectedMs / MsPerDay) * MsPerDay;
    var seconds := (targetMs % MsPerDay) / MsPerSecond;
    var start := midnight + seconds * MsPerSecond;
    DayAndSecond(selectedMs / MsPerDay, seconds);
    CalendarEvent(start, start + MsPerHour)
  }

  /** An instant written as a day number and a second of that day splits back into them. */
  lemma DayAndSecond(day: int, second: int)
    requires 0 <= second < 86400
    ensures var t := day * MsPerDay + second * MsPerSecond;
            t % MsPerSecond == 0 && t / MsPerDay == day && t % MsPerDay / MsPerSecond == second
  {
    var t := day * MsPerDay + second * MsPerSecond;
    ModUnique(t, MsPerSecond, day * 86400 + second, 0);
    ModUnique(t, MsPerDay, day, second * MsPerSecond);
    ModUnique(second * MsPerSecond, MsPerSecond, second, 0);
  }

  /** `.replace(/[-:]/g, "")`: every '-' and ':' removed, everything else kept in order. */
  function RemoveSeparators(s: string): (r: string)
    ensures '-' !in r && ':' !in r
    ensures |r| <= |s|
    decreases |s|
  {
    if |s| == 0 then []
    else
      var last := s[|s| - 1];
      RemoveSeparators(s[..|s| - 1]) + (if last == '-' || last == ':' then [] else [last])
  }

  /** Removing separators works piece by piece. */
  lemma {:induction false} RemoveSeparatorsAppend(a: string, b: string)
    ensures RemoveSeparators(a + b) == RemoveSeparators(a) + RemoveSeparators(b)
    decreases |b|
  {
    if |b| > 0 {
      var last := b[|b| - 1];
      assert (a + b)[..|a + b| - 1] == a + b[..|b| - 1];
      RemoveSeparatorsAppend(a, b[..|b| - 1]);
    } else {
      assert a + b == a;
    }
  }

  /** Text without separators passes through unchanged. */
  lemma {:induction false} RemoveSeparatorsKeeps(s: string)
    requires '-' !in s && ':' !in s
    ensures RemoveSeparators(s) == s
    decreases |s|
  {
    if |s| > 0 {
      assert s == s[..|s| - 1] + [s[|s| - 1]];
      RemoveSeparatorsKeeps(s[..|s| - 1]);
    }
  }

  /** `.split(".")[0]`: the text before the first '.', or all of it when there is none. */
  function BeforeFirstDot(s: string): (r: string)
    ensures '.' !in r
    ensures r <= s
    ensures r == s || s[|r|] == '.'
  {
    var k := IndexOf(s, '.');
    if k == -1 then s else s[..k]
  }

  /** `formatGoogleDate`: the ISO text of an instant with separators and fraction removed, closed by "Z". */
  function FormatGoogleDate(iso: string): (r: string)
    ensures |r| >= 1 && r[|r| - 1] == 'Z'
    ensures '-' !in r && ':' !in r
    ensures '.' !in r[..|r| - 1]
  {
    var body := BeforeFirstDot(RemoveSeparators(iso));
    assert (body + "Z")[..|body|] == body;
    body + "Z"
  }

  /** A UTC calendar instant with a four-digit year, as `toISOString` renders it. */
  datatype Instant = Instant(year: nat, month: nat, day: nat, hour: nat, minute: nat, second: nat, millis: nat)

  /** The date part "YYYY-MM-DD". */
  function IsoDate(t: Instant): string {
    Pad(t.year, 4) + "-" + Pad(t.month, 2) + "-" + Pad(t.day, 2)
  }

  /** The time part "HH:MM:SS". */
  function IsoClock(t: Instant): string {
    Pad(t.hour, 2) + ":" + Pad(t.minute, 2) + ":" + Pad(t.second, 2)
  }

  /** The fraction and zone ".sssZ". */
  function IsoFraction(t: Instant): string {
    "." + Pad(t.millis, 3) + "Z"
  }

  /** `toISOString`: "YYYY-MM-DDTHH:MM:SS.sssZ". */
  function IsoText(t: Instant): string {
    IsoDate(t) + "T" + IsoClock(t) + IsoFraction(t)
  }

  /** "YYYYMMDD". */
  function CompactDate(t: Instant): string {
    Pad(t.year, 4) + Pad(t.month, 2) + Pad(t.day, 2)
  }

  /** "HHMMSS". */
  function CompactClock(t: Instant): string {
    Pad(t.hour, 2) + Pad(t.minute, 2) + Pad(t.second, 2)
  }

  /** The compact form "YYYYMMDDTHHMMSSZ" that Google Calendar reads. */
  function CompactText(t: Instant): (s: string)
    ensures |s| == 16 && s[8] == 'T' && s[15] == 'Z'
  {
    CompactDate(t) + "T" + CompactClock(t) + "Z"
  }

  /** Appending separator-free text: it passes through unchanged. */
  lemma KeepPiece(x: string, y: string)
    requires '-' !in y && ':' !in y
    ensures RemoveSeparators(x + y) == RemoveSeparators(x) + y
  {
    RemoveSeparatorsAppend(x, y);
    RemoveSeparatorsKeeps(y);
  }

  /** Appending a separator and then separator-free text: the separator goes, the text stays. */
  lemma DropSeparator(x: string, sep: char, y: string)
    requires sep == '-' || sep == ':'
    requires '-' !in y && ':' !in y
    ensures RemoveSeparators(x + [sep] + y) == RemoveSeparators(x) + y
  {
    var xs := x + [sep];
    assert xs[..|xs| - 1] == x;
    assert RemoveSeparators(xs) == RemoveSeparators(x);
    KeepPiece(xs, y);
  }

  /** Digits are never separators or dots. */
  lemma DigitsAreNotPunctuation(s: string)
    requires AllDigits(s)
    ensures '-' !in s && ':' !in s && '.' !in s
  {
  }

  /** Three separator-free pieces joined by one separator lose only the separators. */
  lemma JoinedBy(a: string, sep: char, b: string, c: string)
    requires sep == '-' || sep == ':'
    requires '-' !in a && ':' !in a && '-' !in b && ':' !in b && '-' !in c && ':' !in c
    ensures RemoveSeparators(a + [sep] + b + [sep] + c) == a + b + c
  {
    RemoveSeparatorsKeeps(a);
    DropSeparator(a, sep, b);
    DropSeparator(a + [sep] + b, sep, c);
  }

  /** The text before the first dot of `a + b`, when `a` has no dot and `b` starts with one, is `a`. */
  lemma CutAtDot(a: string, b: string)
    requires '.' !in a && |b| > 0 && b[0] == '.'
    ensures BeforeFirstDot(a + b) == a
  {
    assert (a + b)[|a|] == '.';
    assert forall j :: 0 <= j < |a| ==> (a + b)[j] == a[j];
    assert IndexOf(a + b, '.') == |a|;
    assert (a + b)[..|a|] == a;
  }

  /**
   * The compact form of ISO text assembled from a date, a clock and a
   * fraction: separators removed, the fraction cut at its dot, and "Z" put
   * back.
   */
  lemma GoogleDateOfFields(date: string, clock: string, fraction: string, compactDate: string, compactClock: string)
    requires '.' !in compactDate && '.' !in compactClock
    requires |fraction| > 0 && fraction[0] == '.' && '-' !in fraction && ':' !in fraction
    requires RemoveSeparators(date) == compactDate && RemoveSeparators(clock) == compactClock
    ensures FormatGoogleDate(date + "T" + clock + fraction) == compactDate + "T" + compactClock + "Z"
  {
    var head := date + "T" + clock;
    KeepPiece(date, "T");
    RemoveSeparatorsAppend(date + "T", clock);
    KeepPiece(head, fraction);
    var compact := compactDate + "T" + compactClock;
    assert RemoveSeparators(head + fraction) == compact + fraction;
    CutAtDot(compact, fraction);
  }

  /** The date part loses its dashes and nothing else. */
  lemma DateCompacts(t: Instant)
    ensures RemoveSeparators(IsoDate(t)) == CompactDate(t) && '.' !in CompactDate(t)
  {
    var y, mo, d := Pad(t.year, 4), Pad(t.month, 2), Pad(t.day, 2);
    DigitsAreNotPunctuation(y);
    DigitsAreNotPunctuation(mo);
    DigitsAreNotPunctuation(d);
    JoinedBy(y, '-', mo, d);
    assert IsoDate(t) == y + ['-'] + mo + ['-'] + d;
    DigitsAreNotPunctuation(y + mo + d);
  }

  /** The time part loses its colons and nothing else. */
  lemma ClockCompacts(t: Instant)
    ensures RemoveSeparators(IsoClock(t)) == CompactClock(t) && '.' !in CompactClock(t)
  {
    var h, mi, s := Pad(t.hour, 2), Pad(t.minute, 2), Pad(t.second, 2);
    DigitsAreNotPunctuation(h);
    DigitsAreNotPunctuation(mi);
    DigitsAreNotPunctuation(s);
    JoinedBy(h, ':', mi, s);
    assert IsoClock(t) == h + [':'] + mi + [':'] + s;
    DigitsAreNotPunctuation(h + mi + s);
  }

  /** `formatGoogleDate` turns the ISO text of any instant into its compact form. */
  lemma GoogleDateOfIso(t: Instant)
    ensures FormatGoogleDate(IsoText(t)) == CompactText(t)
  {
    DateCompacts(t);
    ClockCompacts(t);
    DigitsAreNotPunctuation(Pad(t.millis, 3));
    assert '-' !in IsoFraction(t) && ':' !in IsoFraction(t);
    GoogleDateOfFields(IsoDate(t), IsoClock(t), IsoFraction(t), CompactDate(t), CompactClock(t));
  }
}
