/**
 What each kind of reconcile achieves: the end of a night wakes everything that is recorded, its beginning puts
 everything to sleep, a failure is retried, a desync is corrected, and records are kept for ten minutes after a wake.
 */
module ReconcileOutcomes {
  import opened Common
  import opened SleepWindows
  import opened RequeueTiming
  import opened Workloads
  import opened SleepPasses
  import opened PassEffects
  import opened SleepController
  import opened SleepHistories

  /** The schedule sleeps although it is suspended or outside every window. */
  ghost predicate NightIsOver(spec: Spec, c: Controller, now: int) {
    c.sleeping && (spec.suspend || (spec.Windows() != [] && !Asleep(spec.Windows(), now)))
  }

  /** The schedule is awake inside a window. */
  ghost predicate NightBegins(spec: Spec, c: Controller, now: int) {
    !c.sleeping && !spec.suspend && spec.Windows() != [] && Asleep(spec.Windows(), now)
  }

  /** The schedule is awake outside every window. */
  ghost predicate DayGoesOn(spec: Spec, c: Controller, now: int) {
    !c.sleeping && !spec.suspend && spec.Windows() != [] && !Asleep(spec.Windows(), now)
  }

  /** What is recorded has been restored, and everything else is as it was. */
  ghost predicate RestoredFrom(before: World, after: World) {
    && after.objects.Keys == before.objects.Keys
    && (forall r :: r in before.records && r.key in before.objects ==>
          after.objects[r.key] == Restored(r, before.objects[r.key]))
    && forall k :: k in before.objects && !Recorded(before.records, k) ==> after.objects[k] == before.objects[k]
  }

  lemma WakePassRestoresOnly(run: Run, weather: Weather)
    requires UniqueKeys(run.world.records) && forall k :: weather.get(k) && weather.update(k)
    ensures
      var after := WakePass(run, weather);
      after.ok && after.world.records == run.world.records && RestoredFrom(run.world, after.world)
  {
    WakePassRestores(run, weather);
    forall k | k in run.world.objects && !Recorded(run.world.records, k)
      ensures
        var after := WakePass(run, weather).world.objects;
        k in after && after[k] == run.world.objects[k]
    {
      WakeLeavesAlone(run, weather, k);
    }
  }

  /** The reconcile of a night that is over restores every recorded workload; the schedule then counts as awake since
      that moment if the final status write succeeds, and as still sleeping otherwise, so that the wake is retried. */
  lemma NightEndsAwake(spec: Spec, c: Controller, now: int, env: Env)
    requires NightIsOver(spec, c, now) && UniqueKeys(c.run.world.records)
    requires forall k :: env.weather.get(k) && env.weather.update(k)
    ensures
      var after := Reconciled(spec, c, now, env);
      && RestoredFrom(c.run.world, after.run.world) && after.run.world.records == c.run.world.records
      && (env.finalStatus ==> !after.sleeping && after.lastTransition == Some(env.end))
      && (!env.finalStatus ==> after.sleeping && after.lastTransition == c.lastTransition)
  {
    WakePassRestoresOnly(c.run, env.weather);
  }

  lemma NightEndBringsHome(o0: map<Key, Body>, spec: Spec, c: Controller, now: int, env: Env)
    requires Typed(o0) && AllRecordable(o0) && Accounted(o0, c.run.world)
    requires NightIsOver(spec, c, now)
    requires forall k :: env.weather.get(k) && env.weather.update(k)
    ensures
      var w := Reconciled(spec, c, now, env).run.world;
      && Accounted(o0, w) && Forgotten(o0, w) == Forgotten(o0, c.run.world)
      && forall k :: k in o0 ==> (Equivalent(w.objects[k], o0[k]) <==> k !in Unrecorded(o0, w))
  {
    WakePassAccounted(o0, c.run, env.weather);
    WakePassRestores(c.run, env.weather);
  }

  lemma {:induction false} AfterOneMore(c: Controller, events: seq<Event>, e: Event)
    ensures After(c, events + [e]) == Next(After(c, events), e)
    decreases |events|
  {
    if events == [] {
      assert [e][1..] == [] && events + [e] == [e];
    } else {
      assert (events + [e])[1..] == events[1..] + [e];
      AfterOneMore(Next(c, events[0]), events[1..], e);
    }
  }

  /** After any nights and days, the reconcile that ends a night brings home every workload but those nobody
      remembers, whose number it does not change. */
  lemma NightEndsHome(o0: map<Key, Body>, events: seq<Event>, c: Controller, spec: Spec, now: int, env: Env)
    requires Typed(o0) && AllRecordable(o0) && forall i :: 0 <= i < |events| ==> events[i].Reconcile?
    requires c == After(Begin(o0), events) && NightIsOver(spec, c, now)
    requires forall k :: env.weather.get(k) && env.weather.update(k)
    ensures
      var w := After(Begin(o0), events + [Event.Reconcile(spec, now, env)]).run.world;
      && Accounted(o0, w) && Forgotten(o0, w) == DroppedOver(o0, Begin(o0), events)
      && forall k :: k in o0 ==> (Equivalent(w.objects[k], o0[k]) <==> k !in Unrecorded(o0, w))
  {
    HistoryFromStart(o0, events);
    AfterOneMore(Begin(o0), events, Event.Reconcile(spec, now, env));
    NightEndBringsHome(o0, spec, c, now, env);
  }

  /** The reconcile that begins a night puts exactly the selected workloads to sleep that are awake and unrecorded, if
      no call fails; the schedule then counts as sleeping if the final status write succeeds. */
  lemma NightBeginsAsleep(spec: Spec, c: Controller, now: int, env: Env)
    requires NightBegins(spec, c, now) && Faithful(spec.selector, c.run.world.objects, env.weather)
    requires Abort !in Worklist(spec.selector, SLEEP_ORDER, env.weather)
    requires forall k :: env.weather.update(k) && env.weather.status(k)
    ensures
      var w, after := c.run.world, Reconciled(spec, c, now, env);
      && after.run.world.objects.Keys == w.objects.Keys
      && (forall k :: k in w.objects ==>
            after.run.world.objects[k] ==
            if ToSleep(spec.selector, w, k) then PutToSleep(w.objects[k]) else w.objects[k])
      && (env.finalStatus ==> after.sleeping && after.lastTransition == Some(env.end))
      && (!env.finalStatus ==> !after.sleeping && after.lastTransition == c.lastTransition)
  {
    var w, items := c.run.world, Worklist(spec.selector, SLEEP_ORDER, env.weather);
    SleepItemsSucceed(c.run.(ok := true), items, env.weather);
    SleepItemsEffect(c.run.(ok := true), items, env.weather);
    forall k | k in w.objects
      ensures
        var after := Reconciled(spec, c, now, env).run.world.objects;
        k in after && after[k] == if ToSleep(spec.selector, w, k) then PutToSleep(w.objects[k]) else w.objects[k]
    {
      SleepPassExactly(spec.selector, c.run, env.weather, k);
    }
  }

  /** A reconcile changes whether the schedule counts as sleeping only by a pass that ran to its end and a final status
      write that succeeded, and then to what the spec asks for. */
  lemma TransitionsAreEarned(spec: Spec, c: Controller, now: int, env: Env)
    ensures
      var after := Reconciled(spec, c, now, env);
      after.sleeping != c.sleeping ==>
        && after.run.ok && env.finalStatus && after.lastTransition == Some(env.end)
        && (after.sleeping <==> !spec.suspend && Asleep(spec.Windows(), now))
  {
  }

  /** A desync found within ten minutes of the wake is corrected, if no call fails; without one nothing changes. */
  lemma DesyncIsCorrected(spec: Spec, c: Controller, now: int, env: Env, woken: int)
    requires DayGoesOn(spec, c, now) && UniqueKeys(c.run.world.records)
    requires c.lastTransition == Some(woken) && now - woken <= 600 * 1_000_000_000 && c.run.world.records != []
    requires Abort !in Worklist(spec.selector, VERIFY_ORDER, env.weather)
    requires forall k :: env.weather.get(k) && env.weather.update(k)
    ensures
      var w, after := c.run.world, Reconciled(spec, c, now, env);
      && after.run.ok && after.run.world.records == w.records
      && after.sleeping == c.sleeping && after.lastTransition == c.lastTransition
      && if DesyncAmong(spec.selector, w, VERIFY_ORDER, env.weather) then RestoredFrom(w, after.run.world)
         else after.run.world == w
  {
    WakePassRestoresOnly(c.run, env.weather);
  }

  /** A verification whose Lists do not all answer fails without touching anything. */
  lemma VerificationNeedsLists(spec: Spec, c: Controller, now: int, env: Env, woken: int)
    requires DayGoesOn(spec, c, now) && c.run.world.records != []
    requires c.lastTransition == Some(woken) && now - woken <= 600 * 1_000_000_000
    requires Abort in Worklist(spec.selector, VERIFY_ORDER, env.weather)
    ensures !Reconciled(spec, c, now, env).run.ok && Reconciled(spec, c, now, env).run.world == c.run.world
  {
  }

  /** By day the records are kept for ten minutes after the wake, and dropped by the first reconcile after that whose
      status write succeeds. */
  lemma RecordsKeptForTenMinutes(spec: Spec, c: Controller, now: int, env: Env)
    requires DayGoesOn(spec, c, now)
    ensures
      var recently := c.lastTransition.Some? && now - c.lastTransition.value <= 600 * 1_000_000_000;
      Reconciled(spec, c, now, env).run.world.records ==
        if recently || !env.clearStatus then c.run.world.records else []
  {
    WakePassKeepsRecords(c.run, env.weather);
  }

  /** Otherwise a reconcile leaves everything as it is: suspended or without windows and awake, or asleep in a
      window. */
  lemma NothingToDo(spec: Spec, c: Controller, now: int, env: Env)
    requires !NightIsOver(spec, c, now) && !NightBegins(spec, c, now) && !DayGoesOn(spec, c, now)
    ensures Reconciled(spec, c, now, env) == c
  {
  }
}
