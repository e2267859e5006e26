/**
 The minute prober and the adaptive requeue interval of the sleep controller.

 All clock boundaries lie on whole minutes, so between two of them the desired state depends only on the minute an
 instant falls in. The prober samples once a minute; started off the whole minute it is proved to see exactly the
 minutes in which the state changes. Started on a whole minute it samples the (excluded) boundaries themselves and
 can report a change one minute late or miss it.
 */
module RequeueTiming {
  import opened Common
  import opened SleepWindows

  const PROBES: int := 1440
  const IDLE_REQUEUE: int := 300_000_000_000
  const APPROACHING_REQUEUE: int := 30_000_000_000
  const APPROACHING_WINDOW: int := 600_000_000_000
  const VERIFY_WINDOW: int := 600_000_000_000
  const VERIFY_REQUEUE: int := 30_000_000_000

  predicate OffMinute(t: int) {
    t % MINUTE != 0
  }

  function MinuteOf(t: int): int {
    t / MINUTE
  }

  /** The i-th instant the prober looks at. */
  function Probe(now: int, i: int): int {
    now + i * MINUTE
  }

  /** The state throughout the interior of minute m. */
  ghost predicate AsleepInMinute(ws: seq<SleepWindow>, m: int) {
    Asleep(ws, m * MINUTE + 1)
  }

  /** No whole minute lies strictly inside minute m. */
  lemma MinuteBoundaries(a: int, m: int, r: int, q: int)
    requires 0 < r < MINUTE && 0 < q < MINUTE
    ensures a * MINUTE < m * MINUTE + r <==> a * MINUTE < m * MINUTE + q
    ensures m * MINUTE + r < a * MINUTE <==> m * MINUTE + q < a * MINUTE
  {
    if a <= m {
      assert a * MINUTE <= m * MINUTE;
    } else {
      assert (m + 1) * MINUTE <= a * MINUTE;
    }
  }

  lemma CoveredWithinMinute(w: SleepWindow, t: int, u: int)
    requires OffMinute(t) && OffMinute(u) && MinuteOf(t) == MinuteOf(u)
    requires Covered(w, t)
    ensures Covered(w, u)
  {
    var day :| CoveredOn(w, day, t);
    var m := MinuteOf(t) + w.offset;
    var opens := day * 1440 + w.start.value;
    var closes := (if w.Overnight() then day + 1 else day) * 1440 + w.end.value;
    assert Opens(w, day) == opens * MINUTE && Closes(w, day) == closes * MINUTE;
    assert Local(w, t) == m * MINUTE + t % MINUTE && Local(w, u) == m * MINUTE + u % MINUTE;
    MinuteBoundaries(opens, m, t % MINUTE, u % MINUTE);
    MinuteBoundaries(closes, m, t % MINUTE, u % MINUTE);
    assert CoveredOn(w, day, u);
  }

  /** Off the whole minute, the state is a function of the minute. */
  lemma StateOfMinute(ws: seq<SleepWindow>, t: int)
    requires OffMinute(t)
    ensures Asleep(ws, t) <==> AsleepInMinute(ws, MinuteOf(t))
  {
    var u := MinuteOf(t) * MINUTE + 1;
    assert OffMinute(u) && MinuteOf(u) == MinuteOf(t);
    forall i | 0 <= i < |ws|
      ensures Covered(ws[i], t) <==> Covered(ws[i], u)
    {
      if Covered(ws[i], t) { CoveredWithinMinute(ws[i], t, u); }
      if Covered(ws[i], u) { CoveredWithinMinute(ws[i], u, t); }
    }
  }

  lemma ProbeMinute(now: int, i: int)
    requires OffMinute(now)
    ensures OffMinute(Probe(now, i)) && MinuteOf(Probe(now, i)) == MinuteOf(now) + i
  {
  }

  /** No probe before the n-th sees a state other than the one at now. */
  ghost predicate SameUntilProbe(ws: seq<SleepWindow>, now: int, n: int) {
    forall i :: 1 <= i < n ==> (Asleep(ws, Probe(now, i)) <==> Asleep(ws, now))
  }

  /** The state at off-minute instants from now up to (not including) the n-th following minute is that of now. */
  ghost predicate ConstantBeforeMinute(ws: seq<SleepWindow>, now: int, n: int) {
    forall u :: now <= u && OffMinute(u) && MinuteOf(u) < MinuteOf(now) + n ==> (Asleep(ws, u) <==> Asleep(ws, now))
  }

  /** The state differs from that of now at every off-minute instant of the n-th following minute. */
  ghost predicate DiffersInMinute(ws: seq<SleepWindow>, now: int, n: int) {
    forall u :: OffMinute(u) && MinuteOf(u) == MinuteOf(now) + n ==> (Asleep(ws, u) <==> !Asleep(ws, now))
  }

  /** Probes off the whole minute speak for all instants of their minutes. */
  lemma ProbesSpeakForMinutes(ws: seq<SleepWindow>, now: int, n: int)
    requires OffMinute(now) && 1 <= n
    ensures SameUntilProbe(ws, now, n) <==> ConstantBeforeMinute(ws, now, n)
    ensures (Asleep(ws, Probe(now, n)) <==> !Asleep(ws, now)) <==> DiffersInMinute(ws, now, n)
  {
    StateOfMinute(ws, now);
    ProbeMinute(now, n);
    StateOfMinute(ws, Probe(now, n));
    if SameUntilProbe(ws, now, n) {
      forall u | now <= u && OffMinute(u) && MinuteOf(u) < MinuteOf(now) + n
        ensures Asleep(ws, u) <==> Asleep(ws, now)
      {
        var i := MinuteOf(u) - MinuteOf(now);
        StateOfMinute(ws, u);
        ProbeMinute(now, i);
        StateOfMinute(ws, Probe(now, i));
        if i >= 1 {
          assert Asleep(ws, Probe(now, i)) <==> Asleep(ws, now);
        }
      }
    }
    if ConstantBeforeMinute(ws, now, n) {
      forall i | 1 <= i < n
        ensures Asleep(ws, Probe(now, i)) <==> Asleep(ws, now)
      {
        ProbeMinute(now, i);
      }
    }
    forall u | OffMinute(u) && MinuteOf(u) == MinuteOf(now) + n
      ensures Asleep(ws, u) <==> Asleep(ws, Probe(now, n))
    {
      StateOfMinute(ws, u);
    }
  }

  /** The least i from the given one whose probe differs from now; 0 if no probe of the day does. */
  ghost function FirstProbe(ws: seq<SleepWindow>, now: int, i: int): (n: int)
    requires 1 <= i
    ensures n == 0 || i <= n <= PROBES
    decreases PROBES + 1 - i
  {
    if i > PROBES then 0
    else if Asleep(ws, Probe(now, i)) != Asleep(ws, now) then i
    else FirstProbe(ws, now, i + 1)
  }

  ghost function NextChange(ws: seq<SleepWindow>, now: int): int {
    FirstProbe(ws, now, 1)
  }

  lemma {:induction false} FirstProbeIsFirst(ws: seq<SleepWindow>, now: int, i: int)
    requires 1 <= i <= PROBES + 1 && SameUntilProbe(ws, now, i)
    ensures
      var n := FirstProbe(ws, now, i);
      && SameUntilProbe(ws, now, if n == 0 then PROBES + 1 else n)
      && (n != 0 ==> (Asleep(ws, Probe(now, n)) <==> !Asleep(ws, now)))
    decreases PROBES + 1 - i
  {
    if i <= PROBES && Asleep(ws, Probe(now, i)) == Asleep(ws, now) {
      FirstProbeIsFirst(ws, now, i + 1);
    }
  }

  /** Samples the state once a minute for a day; the delay to the first sample that differs, 0 if none does. */
  method TimeUntilNextTransition(ws: seq<SleepWindow>, now: int) returns (next: int)
    ensures next == NextChange(ws, now) * MINUTE
  {
    var currentState := ShouldBeSleepingAt(ws, now);
    for i := 1 to PROBES + 1
      invariant NextChange(ws, now) == FirstProbe(ws, now, i)
    {
      var probed := ShouldBeSleepingAt(ws, now + i * MINUTE);
      assert Probe(now, i) == now + i * MINUTE;
      if probed != currentState {
        return i * MINUTE;
      }
    }
    return 0;
  }

  /** The first minute after now, within the probed day, whose state differs from that of now; 0 if there is none. */
  ghost predicate FirstChange(ws: seq<SleepWindow>, now: int, n: int) {
    if n == 0 then ConstantBeforeMinute(ws, now, PROBES + 1)
    else 1 <= n <= PROBES && ConstantBeforeMinute(ws, now, n) && DiffersInMinute(ws, now, n)
  }

  /** Off the whole minute the prober answers n exactly when minute n is the first one that differs, and 0 exactly
      when no off-minute instant of the following day differs. */
  lemma ProberFindsFirstChange(ws: seq<SleepWindow>, now: int, n: int)
    requires OffMinute(now)
    ensures n == NextChange(ws, now) <==> FirstChange(ws, now, n)
  {
    var k := NextChange(ws, now);
    FirstProbeIsFirst(ws, now, 1);
    ProbesSpeakForMinutes(ws, now, if k == 0 then PROBES + 1 else k);
    assert FirstChange(ws, now, k);
    if FirstChange(ws, now, n) && n != k {
      EarlierChangeContradicts(ws, now, if n == 0 || 0 < k < n then k else n, if n == 0 || 0 < k < n then n else k);
    }
  }

  lemma EarlierChangeContradicts(ws: seq<SleepWindow>, now: int, n: int, k: int)
    requires OffMinute(now) && 1 <= n <= PROBES && (k == 0 || n < k)
    ensures FirstChange(ws, now, n) ==> !FirstChange(ws, now, k)
  {
    ProbeMinute(now, n);
    if FirstChange(ws, now, n) {
      assert now <= Probe(now, n) && (Asleep(ws, Probe(now, n)) <==> !Asleep(ws, now));
      assert !ConstantBeforeMinute(ws, now, if k == 0 then PROBES + 1 else k);
    }
  }

  /** The 0 answer in terms of instants: nothing off the whole minute differs in the 24 hours from now. */
  lemma ZeroMeansNoChangeInADay(ws: seq<SleepWindow>, now: int)
    requires OffMinute(now)
    ensures NextChange(ws, now) == 0
      <==> forall u :: now <= u <= now + DAY && OffMinute(u) ==> (Asleep(ws, u) <==> Asleep(ws, now))
  {
    var n := NextChange(ws, now);
    ProberFindsFirstChange(ws, now, n);
    if n != 0 {
      var u := Probe(now, n);
      ProbeMinute(now, n);
      assert now <= u <= now + DAY;
      assert Asleep(ws, u) <==> !Asleep(ws, now);
    }
  }

  lemma AsleepDaily(ws: seq<SleepWindow>, t: int)
    requires forall i :: 0 <= i < |ws| ==> ws[i].days == []
    ensures Asleep(ws, t + DAY) <==> Asleep(ws, t)
  {
    forall i | 0 <= i < |ws|
      ensures Covered(ws[i], t + DAY) <==> Covered(ws[i], t)
    {
      DailyPeriodic(ws[i], t);
    }
  }

  lemma {:induction false} AsleepAfterDays(ws: seq<SleepWindow>, t: int, k: nat)
    requires forall i :: 0 <= i < |ws| ==> ws[i].days == []
    ensures Asleep(ws, t + k * DAY) <==> Asleep(ws, t)
  {
    if k == 0 {
    } else {
      AsleepAfterDays(ws, t, k - 1);
      AsleepDaily(ws, t + (k - 1) * DAY);
      assert t + (k - 1) * DAY + DAY == t + k * DAY;
    }
  }

  /** Without day filters the state at any off-minute instant recurs within the day that follows now. */
  lemma RecursWithinADay(ws: seq<SleepWindow>, now: int, u: int) returns (i: int)
    requires forall j :: 0 <= j < |ws| ==> ws[j].days == []
    requires OffMinute(now) && OffMinute(u)
    ensures 0 <= i < PROBES && (Asleep(ws, Probe(now, i)) <==> Asleep(ws, u))
  {
    var gap := MinuteOf(u) - MinuteOf(now);
    i := gap % PROBES;
    var k := gap / PROBES;
    var p := Probe(now, i);
    ProbeMinute(now, i);
    StateOfMinute(ws, u);
    if k >= 0 {
      AsleepAfterDays(ws, p, k);
      StateOfMinute(ws, p + k * DAY);
      assert MinuteOf(p + k * DAY) == MinuteOf(u);
    } else {
      StateOfMinute(ws, p);
      AsleepAfterDays(ws, u, -k);
      StateOfMinute(ws, u - k * DAY);
      assert MinuteOf(u + (-k) * DAY) == MinuteOf(p);
    }
  }

  /** With no day filters, a schedule whose state ever changes is reported to change within 1 to 1439 minutes. */
  lemma UnfilteredChangeIsFound(ws: seq<SleepWindow>, now: int, u: int, v: int)
    requires forall j :: 0 <= j < |ws| ==> ws[j].days == []
    requires OffMinute(now) && OffMinute(u) && OffMinute(v) && Asleep(ws, u) && !Asleep(ws, v)
    ensures 1 <= NextChange(ws, now) <= 1439
  {
    var i := RecursWithinADay(ws, now, u);
    var j := RecursWithinADay(ws, now, v);
    var d := if Asleep(ws, Probe(now, i)) <==> Asleep(ws, now) then j else i;
    assert Asleep(ws, Probe(now, d)) <==> !Asleep(ws, now);
    assert Probe(now, 0) == now;
    var n := NextChange(ws, now);
    FirstProbeIsFirst(ws, now, 1);
    assert !SameUntilProbe(ws, now, d + 1);
  }

  // ---------- on the whole minute ----------

  /** A daily window that opens at the start of the given minute and lasts the given number of minutes. */
  function WindowAtMinute(minute: int, length: ClockMinute): (w: SleepWindow) {
    SleepWindow(Some(0), Some(length), -minute, [])
  }

  lemma WindowAtMinuteCovers(minute: int, length: ClockMinute, t: int)
    requires minute * MINUTE - DAY <= t <= minute * MINUTE + DAY
    ensures Asleep([WindowAtMinute(minute, length)], t) <==>
      || minute * MINUTE < t < (minute + length) * MINUTE
      || minute * MINUTE - DAY < t < (minute + length) * MINUTE - DAY
  {
    var w := WindowAtMinute(minute, length);
    assert Local(w, t) == t - minute * MINUTE;
    assert Asleep([w], t) <==> Covered(w, t) by {
      assert [w][0] == w;
    }
    if minute * MINUTE < t < (minute + length) * MINUTE {
      assert CoveredOn(w, 0, t);
    }
    if minute * MINUTE - DAY < t < (minute + length) * MINUTE - DAY {
      assert CoveredOn(w, -1, t);
    }
    forall day | CoveredOn(w, day, t)
      ensures day == 0 || day == -1
    {
    }
  }

  /** On a whole minute the prober looks at the excluded boundary itself: of a sleep that starts right after the next
      whole minute it reports the minute after, and one that lasts a single minute it does not report at all. */
  lemma WholeMinuteProbeIsLate(now: int)
    requires !OffMinute(now)
    ensures
      var late, missed := [WindowAtMinute(MinuteOf(now) + 1, 2)], [WindowAtMinute(MinuteOf(now) + 1, 1)];
      && NextChange(late, now) == 2 && DiffersInMinute(late, now, 1)
      && NextChange(missed, now) == 0 && DiffersInMinute(missed, now, 1)
  {
    var m := MinuteOf(now) + 1;
    assert now == (m - 1) * MINUTE;
    forall length: ClockMinute | 1 <= length <= 2
      ensures
        var ws := [WindowAtMinute(m, length)];
        && !Asleep(ws, now) && DiffersInMinute(ws, now, 1)
        && forall i :: 1 <= i <= PROBES ==> (Asleep(ws, Probe(now, i)) <==> length == 2 && i == 2)
    {
      var ws := [WindowAtMinute(m, length)];
      WindowAtMinuteCovers(m, length, now);
      forall u | OffMinute(u) && MinuteOf(u) == MinuteOf(now) + 1
        ensures Asleep(ws, u)
      {
        WindowAtMinuteCovers(m, length, u);
      }
      forall i | 1 <= i <= PROBES
        ensures Asleep(ws, Probe(now, i)) <==> length == 2 && i == 2
      {
        WindowAtMinuteCovers(m, length, Probe(now, i));
      }
    }
    FirstProbeIsFirst([WindowAtMinute(m, 2)], now, 1);
    FirstProbeIsFirst([WindowAtMinute(m, 1)], now, 1);
  }

  /** The prober is exact at an instant, whatever the schedule, exactly when the instant is off the whole minute. */
  lemma ExactOffWholeMinutesOnly(now: int)
    ensures OffMinute(now) <==> forall ws: seq<SleepWindow> :: FirstChange(ws, now, NextChange(ws, now))
  {
    if OffMinute(now) {
      forall ws: seq<SleepWindow>
        ensures FirstChange(ws, now, NextChange(ws, now))
      {
        ProberFindsFirstChange(ws, now, NextChange(ws, now));
      }
    } else {
      WholeMinuteProbeIsLate(now);
      var missed := [WindowAtMinute(MinuteOf(now) + 1, 1)];
      var u := now + MINUTE + 1;
      assert OffMinute(u) && MinuteOf(u) == MinuteOf(now) + 1;
      assert !FirstChange(missed, now, NextChange(missed, now));
    }
  }

  /** What the requeue decision reads of the schedule's spec and persisted status. */
  datatype RequeueInput = RequeueInput(
    windows: seq<SleepWindow>, sleeping: bool, lastTransition: Option<int>, managed: nat,
    specInterval: Option<int>, defaultInterval: int)
  {
    /** The interval used when nothing is about to happen. */
    function Interval(): int {
      if specInterval.Some? then specInterval.value
      else if defaultInterval > 0 then defaultInterval
      else IDLE_REQUEUE
    }
  }

  predicate ShouldVerify(lastTransition: Option<int>, managed: nat, now: int) {
    lastTransition.Some? && managed != 0 && now - lastTransition.value <= VERIFY_WINDOW
  }

  /** The adaptive requeue delay: short while verifying or close to a transition, the interval otherwise. */
  ghost function RequeueDelay(s: RequeueInput, now: int): int {
    if !s.sleeping && ShouldVerify(s.lastTransition, s.managed, now) then VERIFY_REQUEUE
    else if 1 <= NextChange(s.windows, now) <= 10 then APPROACHING_REQUEUE
    else s.Interval()
  }

  method ComputeRequeueInterval(s: RequeueInput, now: int) returns (delay: int)
    ensures delay == RequeueDelay(s, now)
  {
    if !s.sleeping && ShouldVerify(s.lastTransition, s.managed, now) {
      return VERIFY_REQUEUE;
    }
    var next := TimeUntilNextTransition(s.windows, now);
    if next > 0 && next <= APPROACHING_WINDOW {
      return APPROACHING_REQUEUE;
    }
    if s.specInterval.Some? {
      return s.specInterval.value;
    }
    if s.defaultInterval > 0 {
      return s.defaultInterval;
    }
    return IDLE_REQUEUE;
  }

  /** The requeue decision in plain terms, off the whole minute: 30 seconds for ten minutes after a wake that left
      records, and when the state changes within the ten following minutes; else the interval of the spec, of the
      controller, or five minutes. */
  lemma RequeueDelayMeaning(s: RequeueInput, now: int)
    requires OffMinute(now)
    ensures
      var seconds := 1_000_000_000;
      var verifying := !s.sleeping && s.managed > 0 && s.lastTransition.Some? &&
        now - s.lastTransition.value <= 600 * seconds;
      var changes := exists u ::
        && now <= u && OffMinute(u) && MinuteOf(u) <= MinuteOf(now) + 10
        && (Asleep(s.windows, u) <==> !Asleep(s.windows, now));
      RequeueDelay(s, now) ==
        if verifying || changes then 30 * seconds
        else if s.specInterval.Some? then s.specInterval.value
        else if s.defaultInterval > 0 then s.defaultInterval
        else 300 * seconds
  {
    var n := NextChange(s.windows, now);
    ProberFindsFirstChange(s.windows, now, n);
    if 1 <= n <= 10 {
      ProbeMinute(now, n);
      var u := Probe(now, n);
      assert Asleep(s.windows, u) <==> !Asleep(s.windows, now);
    } else {
      assert ConstantBeforeMinute(s.windows, now, if n == 0 then PROBES + 1 else n);
    }
  }

  /** The next reconcile comes, and no later than the end of the ten minutes the requeue decision looks ahead. */
  predicate WithinLookahead(now: int, interval: int) {
    0 < interval && now + interval <= (MinuteOf(now) + 11) * MINUTE
  }

  /** There is a next reconcile, as only a positive delay asks for one, and a delay above 30 seconds is only chosen when
      the desired state is constant until then. */
  ghost predicate SkipsNothing(s: RequeueInput, now: int) {
    && RequeueDelay(s, now) > 0
    && (RequeueDelay(s, now) > APPROACHING_REQUEUE ==>
          forall u :: now <= u <= now + RequeueDelay(s, now) && OffMinute(u) ==>
            (Asleep(s.windows, u) <==> Asleep(s.windows, now)))
  }

  lemma LookaheadSkipsNothing(s: RequeueInput, now: int)
    requires OffMinute(now) && WithinLookahead(now, s.Interval())
    ensures SkipsNothing(s, now)
  {
    var n := NextChange(s.windows, now);
    ProberFindsFirstChange(s.windows, now, n);
    if RequeueDelay(s, now) > APPROACHING_REQUEUE {
      forall u | now <= u <= now + RequeueDelay(s, now) && OffMinute(u)
        ensures Asleep(s.windows, u) <==> Asleep(s.windows, now)
      {
        assert MinuteOf(u) <= MinuteOf(now) + 10;
        assert ConstantBeforeMinute(s.windows, now, if n == 0 then PROBES + 1 else n);
      }
    }
  }

  /** A reconcile that asks for an interval beyond the lookahead sleeps over this one-minute sleep. */
  function SkippedInput(now: int, interval: int): (s: RequeueInput)
    ensures s.Interval() == interval
  {
    RequeueInput([WindowAtMinute(MinuteOf(now) + 11, 1)], false, None, 0, Some(interval), 0)
  }

  lemma BeyondLookaheadSkips(now: int, interval: int)
    requires OffMinute(now) && !WithinLookahead(now, interval)
    ensures !SkipsNothing(SkippedInput(now, interval), now)
  {
    var m := MinuteOf(now) + 11;
    var s := SkippedInput(now, interval);
    WindowAtMinuteCovers(m, 1, now);
    forall i | 1 <= i <= 10
      ensures Asleep(s.windows, Probe(now, i)) <==> Asleep(s.windows, now)
    {
      WindowAtMinuteCovers(m, 1, Probe(now, i));
    }
    FirstProbeIsFirst(s.windows, now, 1);
    assert RequeueDelay(s, now) == interval;
    if 0 < interval {
      var u := m * MINUTE + 1;
      WindowAtMinuteCovers(m, 1, u);
      assert OffMinute(u) && now <= u <= now + RequeueDelay(s, now);
      assert Asleep(s.windows, u) && !Asleep(s.windows, now);
    }
  }

  /** Which intervals are safe: from an off-minute instant no schedule with that interval has a transition slept over
      exactly when the interval is positive and the next reconcile comes before the eleventh following minute begins. */
  lemma SkipsNothingExactly(now: int, interval: int)
    requires OffMinute(now)
    ensures WithinLookahead(now, interval)
      <==> forall s: RequeueInput :: s.Interval() == interval ==> SkipsNothing(s, now)
  {
    if WithinLookahead(now, interval) {
      forall s: RequeueInput | s.Interval() == interval
        ensures SkipsNothing(s, now)
      {
        LookaheadSkipsNothing(s, now);
      }
    } else {
      BeyondLookaheadSkips(now, interval);
    }
  }

  /** No transition is slept over: with an interval of at most 10 minutes, a delay above 30 seconds is only chosen
      when the desired state is constant until the next reconcile. */
  lemma NoTransitionSkipped(s: RequeueInput, now: int, u: int)
    requires OffMinute(now) && s.Interval() <= APPROACHING_WINDOW
    requires RequeueDelay(s, now) > APPROACHING_REQUEUE
    requires now <= u <= now + RequeueDelay(s, now) && OffMinute(u)
    ensures Asleep(s.windows, u) <==> Asleep(s.windows, now)
  {
    LookaheadSkipsNothing(s, now);
  }

  /** Ten minutes is the bound, to the nanosecond of the clock: an interval is safe at every off-minute instant
      exactly if it is positive and at most 10 minutes and a nanosecond. */
  lemma TenMinutesIsTheBound(interval: int)
    ensures 0 < interval <= APPROACHING_WINDOW + 1
      <==> forall now, s: RequeueInput :: OffMinute(now) && s.Interval() == interval ==> SkipsNothing(s, now)
  {
    if 0 < interval <= APPROACHING_WINDOW + 1 {
      forall now, s: RequeueInput | OffMinute(now) && s.Interval() == interval
        ensures SkipsNothing(s, now)
      {
        LookaheadSkipsNothing(s, now);
      }
    } else {
      BeyondLookaheadSkips(MINUTE - 1, interval);
    }
  }

  /** From 11 minutes on an interval, of 13 minutes for instance, is safe at no instant. */
  lemma LongerIntervalSkipsTransitions(now: int, interval: int)
    requires OffMinute(now) && interval >= 11 * MINUTE
    ensures !SkipsNothing(SkippedInput(now, interval), now)
  {
    BeyondLookaheadSkips(now, interval);
  }

  /** An interval of zero or less is returned as it is, so that no further reconcile is asked for: this sleep in 20
      minutes goes unnoticed. */
  lemma NoIntervalNoReconcile(now: int, interval: int)
    requires OffMinute(now) && interval <= 0
    ensures
      var s := RequeueInput([WindowAtMinute(MinuteOf(now) + 20, 60)], false, None, 0, Some(interval), 0);
      && RequeueDelay(s, now) == interval
      && !Asleep(s.windows, now) && Asleep(s.windows, Probe(now, 20))
  {
    var m := MinuteOf(now) + 20;
    var ws := [WindowAtMinute(m, 60)];
    WindowAtMinuteCovers(m, 60, now);
    WindowAtMinuteCovers(m, 60, Probe(now, 20));
    forall i | 1 <= i <= 10
      ensures Asleep(ws, Probe(now, i)) <==> Asleep(ws, now)
    {
      WindowAtMinuteCovers(m, 60, Probe(now, i));
    }
    FirstProbeIsFirst(ws, now, 1);
  }

  /** One reconcile of a run: the instant and what the requeue decision read then. */
  datatype Tick = Tick(now: int, input: RequeueInput)

  /** A run of successful reconciles of one schedule, each no later than the previous one asked for; any positive
      intervals of at most ten minutes will do. */
  ghost predicate IsRun(ws: seq<SleepWindow>, run: seq<Tick>) {
    && (forall k :: 0 <= k < |run| ==>
          && run[k].input.windows == ws && OffMinute(run[k].now)
          && WithinLookahead(run[k].now, run[k].input.Interval()))
    && (forall k :: 0 <= k < |run| - 1 ==>
          run[k].now < run[k + 1].now <= run[k].now + RequeueDelay(run[k].input, run[k].now))
  }

  /** Over a whole run, any off-minute instant whose desired state differs from the one the last reconcile acted on
      is at most 30 seconds before the next reconcile: no state ever goes unnoticed for longer. */
  lemma {:induction false} EveryTransitionIsNoticed(ws: seq<SleepWindow>, run: seq<Tick>, u: int) returns (k: nat)
    requires IsRun(ws, run) && |run| >= 2 && OffMinute(u)
    requires run[0].now <= u < run[|run| - 1].now
    ensures k + 1 < |run| && run[k].now <= u < run[k + 1].now
    ensures (Asleep(ws, u) <==> Asleep(ws, run[k].now)) || run[k + 1].now - u <= APPROACHING_REQUEUE
  {
    if u < run[1].now {
      k := 0;
      if RequeueDelay(run[0].input, run[0].now) > APPROACHING_REQUEUE {
        LookaheadSkipsNothing(run[0].input, run[0].now);
      }
    } else {
      k := EveryTransitionIsNoticed(ws, run[1..], u);
      k := k + 1;
    }
  }
}
