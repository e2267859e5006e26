/** The bin packer's own copy of the window test. */
module ConsolidationWindow {
  import opened Common
  import opened SleepWindows

  /** Without a schedule every instant is inside; otherwise the copy decides what the sleep controller decides. */
  method IsInConsolidationWindow(schedule: Option<SleepWindow>, t: int) returns (inside: bool)
    ensures inside <==> schedule.None? || Covered(schedule.value, t)
  {
    if schedule.None? {
      return true;
    }
    var w := schedule.value;
    var now := t + w.offset * MINUTE;
    if w.start.None? || w.end.None? {
      return false;
    }
    var today := now / DAY;
    var startTime, endTime := today * DAY + w.start.value * MINUTE, today * DAY + w.end.value * MINUTE;
    var isOvernight := endTime < startTime;

    YesterdaysWeekday(today);
    forall day | CoveredOn(w, day, t)
      ensures day == today || (day == today - 1 && isOvernight && now < endTime)
    {
      CoveringDay(w, day, t);
    }

    var checkDay := Weekday(today);
    if |w.days| > 0 {
      if isOvernight && now < endTime {
        checkDay := (checkDay + 6) % 7;
      }
      var dayAllowed := false;
      for i := 0 to |w.days|
        invariant dayAllowed <==> checkDay in w.days[..i]
      {
        dayAllowed := dayAllowed || w.days[i] == checkDay;
      }
      assert w.days[..|w.days|] == w.days;
      if !dayAllowed {
        return false;
      }
    }

    assert isOvernight && now < endTime ==> (Allowed(w, today - 1) <==> CoveredOn(w, today - 1, t));
    if isOvernight {
      assert now > startTime ==> CoveredOn(w, today, t);
      return now > startTime || now < endTime;
    }
    assert now > startTime && now < endTime ==> CoveredOn(w, today, t);
    return now > startTime && now < endTime;
  }
}
