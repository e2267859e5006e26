/**
 Operator ordering over whole histories of reconciles: while a selected operator resource is active, the only workloads
 still slept are those nobody remembers, in every state of every night and day.
 */
module OperatorHistories {
  import opened Common
  import opened SleepWindows
  import opened RequeueTiming
  import opened Workloads
  import opened SleepPasses
  import opened PassEffects
  import opened OperatorOrder
  import opened SleepController
  import opened SleepHistories

  /** No workload with a record is still slept. */
  ghost predicate RecordedAreBack(o0: map<Key, Body>, w: World)
    requires w.objects.Keys == o0.Keys
  {
    forall k :: k in o0 && !IsOperator(k.kind) && Recorded(w.records, k) ==> !SleptBySchedule(o0, w, k)
  }

  /** Operators resume last: none is active, or every workload still slept is one nobody remembers. */
  ghost predicate Ordered(o0: map<Key, Body>, sel: Selector, w: World) {
    Accounted(o0, w) && (OperatorsHeld(sel, w) || RecordedAreBack(o0, w))
  }

  ghost predicate OrderedRun(o0: map<Key, Body>, sel: Selector, run: Run) {
    Ordered(o0, sel, run.world) && forall s :: s in run.steps ==> Ordered(o0, sel, s.world)
  }

  /** Over any history a pass skips an awake operator resource exactly if the record of one that is back is kept: after
      a wake within the verification window, or after a suspension in the night. */
  lemma SkippedIfBack(o0: map<Key, Body>, sel: Selector, w: World)
    requires Accounted(o0, w)
    ensures NoOperatorSkipped(sel, w) <==>
      forall p :: p in o0 && SelectedOperator(sel, p) && Recorded(w.records, p) ==> SleptBySchedule(o0, w, p)
  {
    forall p | p in o0 && Recorded(w.records, p)
      ensures Awake(w.objects[p]) <==> !SleptBySchedule(o0, w, p)
    {
      var i :| 0 <= i < |w.records| && w.records[i].key == p;
      assert TrueRecord(o0, w.records[i]);
      SleepTakesEffect(o0[p]);
      if !SleptBySchedule(o0, w, p) {
        EquivalentSleepAlike(p, w.objects[p], o0[p]);
      }
    }
  }

  // ---------- sleep passes ----------

  lemma SleptOrdered(o0: map<Key, Body>, sel: Selector, w: World, key: Key)
    requires Ordered(o0, sel, w) && key in w.objects && !Recorded(w.records, key) && Awake(w.objects[key])
    requires IsOperator(key.kind) || OperatorsHeld(sel, w)
    ensures Ordered(o0, sel, Slept(w, key))
    ensures OperatorsHeld(sel, w) ==> OperatorsHeld(sel, Slept(w, key))
  {
    SleptAccounted(o0, w, key);
    SleepTakesEffect(w.objects[key]);
    var slept := Slept(w, key);
    if OperatorsHeld(sel, w) {
      assert OperatorsHeld(sel, slept);
    } else {
      assert RecordedAreBack(o0, slept);
    }
  }

  lemma RememberOrdered(o0: map<Key, Body>, sel: Selector, w: World, r: Record)
    requires Ordered(o0, sel, w) && TrueRecord(o0, r) && !Recorded(w.records, r.key)
    requires IsOperator(r.key.kind) || OperatorsHeld(sel, w)
    ensures Ordered(o0, sel, Remember(w, r)) && Ordered(o0, sel, Forget(w))
  {
    RememberAccounted(o0, w, r);
    var after := Remember(w, r);
    if !OperatorsHeld(sel, w) {
      forall k | k in o0 && !IsOperator(k.kind) && Recorded(after.records, k)
        ensures !SleptBySchedule(o0, after, k)
      {
        RecordedAfterAppend(w.records, r, k);
      }
    }
  }

  lemma SleepOneOrdered(o0: map<Key, Body>, sel: Selector, run: Run, key: Key, weather: Weather)
    requires OrderedRun(o0, sel, run)
    requires IsOperator(key.kind) || OperatorsHeld(sel, run.world)
    ensures OrderedRun(o0, sel, SleepOne(run, key, weather))
    ensures OperatorsHeld(sel, run.world) ==> OperatorsHeld(sel, SleepOne(run, key, weather).world)
  {
    var w := run.world;
    if run.ok && key in w.objects && !Recorded(w.records, key) && Awake(w.objects[key]) && weather.update(key) {
      var after := SleepOne(run, key, weather);
      assert after.steps == run.steps + [WorkloadWrite(Slept(w, key)), StatusWrite(after.world)];
      SleptOrdered(o0, sel, w, key);
      SleptAccounted(o0, w, key);
      RememberOrdered(o0, sel, Slept(w, key), RecordOf(key, w.objects[key]));
    }
  }

  lemma {:induction false} SleepItemsOrdered(
    o0: map<Key, Body>, sel: Selector, run: Run, items: seq<Item>, weather: Weather)
    requires OrderedRun(o0, sel, run)
    requires OperatorsHeld(sel, run.world) || forall k :: Visit(k) in items ==> IsOperator(k.kind)
    ensures OrderedRun(o0, sel, SleepItems(run, items, weather))
    decreases |items|
  {
    if items == [] {
    } else {
      assert items[0] in items && forall x :: x in items[1..] ==> x in items;
      if items[0].Visit? {
        SleepOneOrdered(o0, sel, run, items[0].key, weather);
      }
      SleepItemsOrdered(o0, sel, SleepItem(run, items[0], weather), items[1..], weather);
    }
  }

  lemma NightOrdered(o0: map<Key, Body>, sel: Selector, run: Run, weather: Weather)
    requires OrderedRun(o0, sel, run) && Faithful(sel, o0, weather) && NoOperatorSkipped(sel, run.world)
    ensures OrderedRun(o0, sel, SleepPass(sel, run, weather))
  {
    var start := run.(ok := true);
    var ops, loads := Worklist(sel, OPERATORS, weather), Worklist(sel, WORKLOADS, weather);
    WorklistConcat(sel, OPERATORS, WORKLOADS, weather);
    SleepItemsConcat(start, ops, loads, weather);
    forall k | Visit(k) in ops
      ensures IsOperator(k.kind)
    {
      WorklistSelected(sel, o0, OPERATORS, weather, k);
      KindsSplit(k.kind);
    }
    SleepItemsOrdered(o0, sel, start, ops, weather);
    var mid := SleepItems(start, ops, weather);
    if mid.ok {
      OperatorItemsHold(sel, run.world, start, weather);
      SleepItemsOrdered(o0, sel, mid, loads, weather);
    } else {
      SleepItemsAfterFailure(mid, loads, weather);
    }
  }

  // ---------- wake passes ----------

  lemma WakeOneOrdered(o0: map<Key, Body>, sel: Selector, run: Run, r: Record, weather: Weather)
    requires Typed(o0) && AllRecordable(o0) && OrderedRun(o0, sel, run) && r in run.world.records
    requires IsOperator(r.key.kind) ==> RecordedAreBack(o0, run.world)
    ensures OrderedRun(o0, sel, WakeOne(run, r, weather))
    ensures RecordedAreBack(o0, run.world) ==> RecordedAreBack(o0, WakeOne(run, r, weather).world)
  {
    var w, after := run.world, WakeOne(run, r, weather).world;
    WakeOneAccounted(o0, run, r, weather);
    if after != w {
      SleptIsAway(o0, after, r.key);
      RestoredIsBack(o0, w, r);
      assert forall k :: k in o0 && k != r.key ==> after.objects[k] == w.objects[k];
      if RecordedAreBack(o0, w) {
        assert RecordedAreBack(o0, after);
      } else {
        assert OperatorsHeld(sel, after);
      }
    }
  }

  lemma {:induction false} WakeRecordsOrdered(
    o0: map<Key, Body>, sel: Selector, run: Run, records: seq<Record>, operators: bool, weather: Weather)
    requires Typed(o0) && AllRecordable(o0) && OrderedRun(o0, sel, run)
    requires forall r :: r in records ==> r in run.world.records
    requires operators ==> RecordedAreBack(o0, run.world)
    ensures OrderedRun(o0, sel, WakeRecords(run, records, operators, weather))
    decreases |records|
  {
    if records == [] {
    } else {
      var r := records[0];
      var next := if IsOperator(r.key.kind) == operators then WakeOne(run, r, weather) else run;
      if IsOperator(r.key.kind) == operators {
        WakeOneOrdered(o0, sel, run, r, weather);
        WakeOneAccounted(o0, run, r, weather);
      }
      WakeRecordsOrdered(o0, sel, next, records[1..], operators, weather);
    }
  }

  lemma MorningOrdered(o0: map<Key, Body>, sel: Selector, run: Run, weather: Weather)
    requires Typed(o0) && AllRecordable(o0) && OrderedRun(o0, sel, run) && forall k :: weather.get(k)
    ensures OrderedRun(o0, sel, WakePass(run, weather))
  {
    var start, rs := run.(ok := true), run.world.records;
    WakeRecordsOrdered(o0, sel, start, rs, false, weather);
    WakeRecordsAccounted(o0, start, rs, false, weather);
    var mid := WakeRecords(start, rs, false, weather);
    if mid.ok {
      forall k | k in o0 && !IsOperator(k.kind) && Recorded(rs, k)
        ensures !SleptBySchedule(o0, mid.world, k)
      {
        var i :| 0 <= i < |rs| && rs[i].key == k;
        assert rs[i] in rs;
        SleptIsAway(o0, mid.world, k);
      }
      WakeRecordsOrdered(o0, sel, mid, rs, true, weather);
    } else {
      WakeAfterFailure(mid, rs, true, weather);
    }
  }

  // ---------- histories ----------

  ghost predicate StartsSleep(spec: Spec, c: Controller, now: int) {
    !spec.suspend && spec.Windows() != [] && Asleep(spec.Windows(), now) && !c.sleeping
  }

  lemma ReconciledRun(spec: Spec, c: Controller, now: int, env: Env)
    ensures
      var run := Reconciled(spec, c, now, env).run;
      if Clears(spec, c, now, env) then run == c.run.(world := c.run.world.(records := []))
      else if StartsSleep(spec, c, now) then run == SleepPass(spec.selector, c.run, env.weather)
      else run.(ok := true) == c.run.(ok := true) || run == WakePass(c.run, env.weather)
  {
  }

  /** A reconcile of the schedule with this selector whose Lists are faithful and whose Gets are answered, and which
      does not skip an awake operator resource when it puts the namespace to sleep. */
  ghost predicate OrderlyEvent(o0: map<Key, Body>, sel: Selector, c: Controller, e: Event) {
    && e.Reconcile? && e.spec.selector == sel && Faithful(sel, o0, e.env.weather)
    && (forall k :: e.env.weather.get(k))
    && (StartsSleep(e.spec, c, e.now) ==> NoOperatorSkipped(sel, c.run.world))
  }

  ghost predicate Orderly(o0: map<Key, Body>, sel: Selector, c: Controller, events: seq<Event>)
    decreases |events|
  {
    events != [] ==> OrderlyEvent(o0, sel, c, events[0]) && Orderly(o0, sel, Next(c, events[0]), events[1..])
  }

  lemma ReconcileOrdered(o0: map<Key, Body>, sel: Selector, c: Controller, e: Event)
    requires Typed(o0) && AllRecordable(o0) && OrderedRun(o0, sel, c.run) && OrderlyEvent(o0, sel, c, e)
    ensures OrderedRun(o0, sel, Next(c, e).run)
  {
    ReconciledRun(e.spec, c, e.now, e.env);
    if Clears(e.spec, c, e.now, e.env) {
      ClearingAccounted(o0, c.run.world);
    } else if StartsSleep(e.spec, c, e.now) {
      NightOrdered(o0, sel, c.run, e.env.weather);
    } else {
      MorningOrdered(o0, sel, c.run, e.env.weather);
    }
  }

  lemma {:induction false} HistoryOrdered(o0: map<Key, Body>, sel: Selector, c: Controller, events: seq<Event>)
    requires Typed(o0) && AllRecordable(o0) && OrderedRun(o0, sel, c.run) && Orderly(o0, sel, c, events)
    ensures OrderedRun(o0, sel, After(c, events).run)
    decreases |events|
  {
    if events == [] {
    } else {
      ReconcileOrdered(o0, sel, c, events[0]);
      HistoryOrdered(o0, sel, Next(c, events[0]), events[1..]);
    }
  }

  /** Operator ordering over many nights and days: in every state between two writes of any orderly reconciles, with
      interrupted passes, failing status writes and cleared records, an active selected operator resource means that
      the only workloads still slept are those nobody remembers. */
  lemma OperatorsResumeLast(o0: map<Key, Body>, sel: Selector, events: seq<Event>)
    requires Typed(o0) && AllRecordable(o0) && Orderly(o0, sel, Begin(o0), events)
    ensures
      forall s :: s in After(Begin(o0), events).run.steps ==>
        && s.world.objects.Keys == o0.Keys
        && (OperatorsHeld(sel, s.world) ||
            forall k :: k in o0 && !IsOperator(k.kind) && SleptBySchedule(o0, s.world, k) ==>
              k in Unrecorded(o0, s.world))
  {
    assert Accounted(o0, Start(o0).world);
    HistoryOrdered(o0, sel, Begin(o0), events);
    forall s | s in After(Begin(o0), events).run.steps && !OperatorsHeld(sel, s.world)
      ensures s.world.objects.Keys == o0.Keys
      ensures forall k :: k in o0 && !IsOperator(k.kind) && SleptBySchedule(o0, s.world, k) ==>
                k in Unrecorded(o0, s.world)
    {
      assert Ordered(o0, sel, s.world);
    }
  }
}
