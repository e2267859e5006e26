/**
 Sleep windows on an unbounded timeline.

 An instant is a number of nanoseconds since the Unix epoch (UTC). A window carries its clock times as minutes of
 the day (None when the "HH:MM" text does not parse) and its time zone as a fixed whole-minute offset from UTC.
 The meaning of a window is a set of open intervals, one for every allowed calendar day; the window test of the
 controller is proved to decide membership in that set.
 */
module SleepWindows {
  import opened Common

  const MINUTE: int := 60_000_000_000
  const DAY: int := 86_400_000_000_000

  type ClockMinute = m: int | 0 <= m < 1440

  datatype SleepWindow = SleepWindow(
    start: Option<ClockMinute>, end: Option<ClockMinute>, offset: int, days: seq<int>)
  {
    ghost predicate Parsed() {
      start.Some? && end.Some?
    }

    /** The window ends on the day after the one it started on. */
    ghost predicate Overnight()
      requires Parsed()
    {
      end.value < start.value
    }
  }

  /** Weekday of a day counted from the epoch, which was a Thursday (Sunday is 0). */
  function Weekday(day: int): int {
    (day + 4) % 7
  }

  /** Local wall-clock time as nanoseconds since local midnight of day 0. */
  function Local(w: SleepWindow, t: int): int {
    t + w.offset * MINUTE
  }

  ghost predicate Allowed(w: SleepWindow, day: int) {
    w.days == [] || Weekday(day) in w.days
  }

  ghost function Opens(w: SleepWindow, day: int): int
    requires w.Parsed()
  {
    day * DAY + w.start.value * MINUTE
  }

  ghost function Closes(w: SleepWindow, day: int): int
    requires w.Parsed()
  {
    (if w.Overnight() then day + 1 else day) * DAY + w.end.value * MINUTE
  }

  /** Instant t lies in the interval that belongs to the given day. */
  ghost predicate CoveredOn(w: SleepWindow, day: int, t: int)
    requires w.Parsed()
  {
    Allowed(w, day) && Opens(w, day) < Local(w, t) < Closes(w, day)
  }

  /** The meaning of a window: some allowed day's interval contains t. */
  ghost predicate Covered(w: SleepWindow, t: int) {
    w.Parsed() && exists day: int :: CoveredOn(w, day, t)
  }

  /** The meaning of a schedule: any of its windows covers t. */
  ghost predicate Asleep(ws: seq<SleepWindow>, t: int) {
    exists i :: 0 <= i < |ws| && Covered(ws[i], t)
  }

  /** Only today's interval and yesterday's overnight one can contain an instant. */
  lemma CoveringDay(w: SleepWindow, day: int, t: int)
    requires w.Parsed() && CoveredOn(w, day, t)
    ensures
      var today := Local(w, t) / DAY;
      day == today || (day == today - 1 && w.Overnight() && Local(w, t) < today * DAY + w.end.value * MINUTE)
  {
  }

  lemma YesterdaysWeekday(day: int)
    ensures Weekday(day - 1) == (Weekday(day) + 6) % 7
  {
  }

  /** The window test: reads the clock times onto the current day and corrects the day filter after midnight. */
  method ShouldBeSleepingAtWindow(w: SleepWindow, t: int) returns (asleep: bool)
    ensures asleep <==> Covered(w, t)
  {
    var now := t + w.offset * MINUTE;
    if w.start.None? {
      return false;
    }
    if w.end.None? {
      return false;
    }
    var today := now / DAY;
    var startTime := today * DAY + w.start.value * MINUTE;
    var endTime := today * DAY + w.end.value * MINUTE;
    var isOvernight := endTime < startTime;

    YesterdaysWeekday(today);
    forall day | CoveredOn(w, day, t)
      ensures day == today || (day == today - 1 && isOvernight && now < endTime)
    {
      CoveringDay(w, day, t);
    }

    if |w.days| > 0 {
      var checkDay := Weekday(today);
      if isOvernight && now < endTime {
        checkDay := (checkDay + 6) % 7;
      }
      var dayAllowed := false;
      for i := 0 to |w.days|
        invariant dayAllowed <==> checkDay in w.days[..i]
      {
        if w.days[i] == checkDay {
          dayAllowed := true;
          break;
        }
      }
      assert dayAllowed <==> checkDay in w.days;
      if !dayAllowed {
        return false;
      }
    }

    if isOvernight {
      assert now > startTime ==> CoveredOn(w, today, t);
      assert now < endTime ==> CoveredOn(w, today - 1, t);
      return now > startTime || now < endTime;
    }
    assert now > startTime && now < endTime ==> CoveredOn(w, today, t);
    return now > startTime && now < endTime;
  }

  /** The windows of a spec: the single schedule first, then the list. */
  function GetWindows(schedule: Option<SleepWindow>, schedules: seq<SleepWindow>): seq<SleepWindow> {
    if schedule.Some? then [schedule.value] + schedules else schedules
  }

  method ShouldBeSleepingAt(ws: seq<SleepWindow>, t: int) returns (asleep: bool)
    ensures asleep <==> Asleep(ws, t)
  {
    for i := 0 to |ws|
      invariant forall j :: 0 <= j < i ==> !Covered(ws[j], t)
    {
      var hit := ShouldBeSleepingAtWindow(ws[i], t);
      if hit {
        return true;
      }
    }
    return false;
  }

  /** Every window repeats after seven days. */
  lemma WeeklyPeriodic(w: SleepWindow, t: int)
    ensures Covered(w, t + 7 * DAY) <==> Covered(w, t)
  {
    if w.Parsed() {
      forall day | CoveredOn(w, day, t)
        ensures CoveredOn(w, day + 7, t + 7 * DAY)
      {
      }
      var later := t + 7 * DAY;
      forall day | CoveredOn(w, day, later)
        ensures CoveredOn(w, day - 7, t)
      {
      }
    }
  }

  /** A window without a day filter repeats every day. */
  lemma DailyPeriodic(w: SleepWindow, t: int)
    requires w.days == []
    ensures Covered(w, t + DAY) <==> Covered(w, t)
  {
    if w.Parsed() {
      forall day | CoveredOn(w, day, t)
        ensures CoveredOn(w, day + 1, t + DAY)
      {
      }
      var later := t + DAY;
      forall day | CoveredOn(w, day, later)
        ensures CoveredOn(w, day - 1, t)
      {
      }
    }
  }

  // ---------- the meaning in plain terms ----------

  /** Weekdays are those of the calendar: the epoch was a Thursday, and every day is followed by the next one. */
  lemma WeekdaysOfTheCalendar(day: int)
    ensures Weekday(0) == 4
    ensures 0 <= Weekday(day) < 7 && Weekday(day + 1) == if Weekday(day) == 6 then 0 else Weekday(day) + 1
  {
  }

  /** Windows add up, in any number and order; without one nothing ever sleeps. */
  lemma WindowsAddUp(a: seq<SleepWindow>, b: seq<SleepWindow>, w: SleepWindow, t: int)
    ensures Asleep(a + b, t) <==> Asleep(a, t) || Asleep(b, t)
    ensures Asleep([w], t) <==> Covered(w, t)
    ensures !Asleep([], t)
  {
    if Asleep(a, t) {
      var i :| 0 <= i < |a| && Covered(a[i], t);
      assert (a + b)[i] == a[i];
    }
    if Asleep(b, t) {
      var i :| 0 <= i < |b| && Covered(b[i], t);
      assert (a + b)[|a| + i] == b[i];
    }
    if Covered(w, t) {
      assert [w][0] == w;
    }
  }

  /** Without a day filter a window covers an instant by the local time of day alone: strictly between start and end,
      or outside [end, start] when it passes midnight. */
  lemma CoveredByTimeOfDay(w: SleepWindow, t: int)
    requires w.Parsed() && w.days == []
    ensures
      var clock := (t + w.offset * MINUTE) % DAY;
      var start, end := w.start.value * MINUTE, w.end.value * MINUTE;
      Covered(w, t) <==> if start <= end then start < clock < end else clock > start || clock < end
  {
    var today := Local(w, t) / DAY;
    assert Local(w, t) == today * DAY + Local(w, t) % DAY;
    forall day | CoveredOn(w, day, t)
      ensures day == today || (day == today - 1 && w.Overnight() && Local(w, t) < today * DAY + w.end.value * MINUTE)
    {
      CoveringDay(w, day, t);
    }
    var clock := Local(w, t) % DAY;
    if w.start.value * MINUTE < clock && (w.Overnight() || clock < w.end.value * MINUTE) {
      assert CoveredOn(w, today, t);
    }
    if w.Overnight() && clock < w.end.value * MINUTE {
      assert CoveredOn(w, today - 1, t);
    }
  }

  /** A night from Friday 22:00 to Saturday 06:00, one hour east of Greenwich: it has begun at 21:30 UTC on Friday,
      still lasts at 04:30 UTC on Saturday, is over at 05:00, and there is none the day before. */
  lemma FridayNight(friday: int)
    requires Weekday(friday) == 5
    ensures
      var w := SleepWindow(Some(22 * 60), Some(6 * 60), 60, [5]);
      var utc := (day: int, minute: int) => day * DAY + minute * MINUTE;
      && Covered(w, utc(friday, 21 * 60 + 30)) && Covered(w, utc(friday + 1, 4 * 60 + 30))
      && !Covered(w, utc(friday + 1, 5 * 60)) && !Covered(w, utc(friday - 1, 21 * 60 + 30))
  {
    var w := SleepWindow(Some(22 * 60), Some(6 * 60), 60, [5]);
    assert w.days[0] == 5;
    assert CoveredOn(w, friday, friday * DAY + (21 * 60 + 30) * MINUTE);
    assert CoveredOn(w, friday, (friday + 1) * DAY + (4 * 60 + 30) * MINUTE);
    assert !Allowed(w, friday - 1) && !Allowed(w, friday + 1) && !Allowed(w, friday - 2);
    var thursday := (friday - 1) * DAY + (21 * 60 + 30) * MINUTE;
    forall day | CoveredOn(w, day, thursday)
      ensures day == friday - 1 || day == friday - 2
    {
      CoveringDay(w, day, thursday);
    }
  }
}
