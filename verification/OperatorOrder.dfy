/**
 Operator ordering: the resources whose operators drive workloads are suspended before these workloads go to sleep and
 resumed only after they are back, in every state between two writes, and exactly when this can fail.
 */
module OperatorOrder {
  import opened Common
  import opened Workloads
  import opened SleepPasses
  import opened PassEffects

  ghost predicate SelectedOperator(sel: Selector, k: Key) {
    IsOperator(k.kind) && Selected(sel, k)
  }

  ghost predicate OperatorsHeld(sel: Selector, w: World) {
    forall k :: k in w.objects && SelectedOperator(sel, k) ==> !Awake(w.objects[k])
  }

  ghost predicate NoWorkloadSlept(o0: map<Key, Body>, w: World)
    requires w.objects.Keys == o0.Keys
  {
    forall k :: k in o0 && !IsOperator(k.kind) ==> !SleptBySchedule(o0, w, k)
  }

  /** While a selected operator resource is active, a workload can only still be slept if its record was lost to a
      failed status write. */
  ghost predicate ResumesLast(o0: map<Key, Body>, sel: Selector, w: World)
    requires w.objects.Keys == o0.Keys
  {
    !OperatorsHeld(sel, w) ==>
      forall k :: k in o0 && !IsOperator(k.kind) && SleptBySchedule(o0, w, k) ==>
        !Recorded(w.records, k) && w.statusFailures > 0
  }

  ghost predicate NightOrdered(o0: map<Key, Body>, sel: Selector, w: World) {
    w.objects.Keys == o0.Keys && (OperatorsHeld(sel, w) || NoWorkloadSlept(o0, w))
  }

  ghost predicate NightOrderedRun(o0: map<Key, Body>, sel: Selector, run: Run) {
    NightOrdered(o0, sel, run.world) && forall s :: s in run.steps ==> NightOrdered(o0, sel, s.world)
  }

  lemma SleepOneNightOrdered(o0: map<Key, Body>, sel: Selector, run: Run, key: Key, weather: Weather)
    requires NightOrderedRun(o0, sel, run)
    requires IsOperator(key.kind) || OperatorsHeld(sel, run.world)
    ensures NightOrderedRun(o0, sel, SleepOne(run, key, weather))
    ensures OperatorsHeld(sel, run.world) ==> OperatorsHeld(sel, SleepOne(run, key, weather).world)
  {
    var w := run.world;
    if key in w.objects && Awake(w.objects[key]) {
      SleepTakesEffect(w.objects[key]);
      var slept := Slept(w, key);
      if OperatorsHeld(sel, w) {
        assert OperatorsHeld(sel, slept);
      } else {
        assert forall k :: k in o0 && !IsOperator(k.kind) ==> slept.objects[k] == w.objects[k];
        assert NoWorkloadSlept(o0, slept);
      }
    }
  }

  /** No selected operator resource is awake although a record of it is kept; a pass would skip it. */
  ghost predicate NoOperatorSkipped(sel: Selector, w: World) {
    forall p :: p in w.objects && SelectedOperator(sel, p) && Recorded(w.records, p) ==> !Awake(w.objects[p])
  }

  lemma OperatorItemsHold(sel: Selector, w: World, run: Run, weather: Weather)
    requires run.world == w && run.ok && Faithful(sel, w.objects, weather) && NoOperatorSkipped(sel, w)
    requires SleepItems(run, Worklist(sel, OPERATORS, weather), weather).ok
    ensures OperatorsHeld(sel, SleepItems(run, Worklist(sel, OPERATORS, weather), weather).world)
  {
    var items := Worklist(sel, OPERATORS, weather);
    var after := SleepItems(run, items, weather).world;
    SleepItemsEffect(run, items, weather);
    forall p | p in after.objects && SelectedOperator(sel, p)
      ensures !Awake(after.objects[p])
    {
      KindsSplit(p.kind);
      WorklistComplete(sel, w.objects, OPERATORS, weather, p);
      if ToSleep(sel, w, p) {
        SleepTakesEffect(w.objects[p]);
      }
    }
  }

  /** In the first night every record is of a slept object, so nothing awake is skipped. */
  lemma NothingSkippedAtFirst(o0: map<Key, Body>, sel: Selector, w: World)
    requires Tracks(o0, w)
    ensures NoOperatorSkipped(sel, w)
  {
    forall p | p in w.objects && Recorded(w.records, p)
      ensures !Awake(w.objects[p])
    {
      var i :| 0 <= i < |w.records| && w.records[i].key == p;
      assert SleptBySchedule(o0, w, w.records[i].key);
      SleepTakesEffect(o0[p]);
    }
  }

  lemma {:induction false} NightItems(
    o0: map<Key, Body>, sel: Selector, run: Run, items: seq<Item>, weather: Weather)
    requires NightOrderedRun(o0, sel, run)
    requires OperatorsHeld(sel, run.world) || forall k :: Visit(k) in items ==> IsOperator(k.kind)
    ensures NightOrderedRun(o0, sel, SleepItems(run, items, weather))
    decreases |items|
  {
    if items == [] {
    } else {
      assert items[0] in items && forall x :: x in items[1..] ==> x in items;
      if items[0].Visit? {
        SleepOneNightOrdered(o0, sel, run, items[0].key, weather);
      }
      NightItems(o0, sel, SleepItem(run, items[0], weather), items[1..], weather);
    }
  }

  /** In the first night the operators are held or no workload is slept, in every step of a pass. */
  lemma SleepPassNightOrdered(o0: map<Key, Body>, sel: Selector, run: Run, weather: Weather)
    requires RunConsistent(o0, run) && NightOrderedRun(o0, sel, run) && Faithful(sel, o0, weather)
    ensures NightOrderedRun(o0, sel, SleepPass(sel, run, weather))
  {
    var start := run.(ok := true);
    var ops, loads := Worklist(sel, OPERATORS, weather), Worklist(sel, WORKLOADS, weather);
    WorklistConcat(sel, OPERATORS, WORKLOADS, weather);
    SleepItemsConcat(start, ops, loads, weather);
    forall k | Visit(k) in ops
      ensures IsOperator(k.kind)
    {
      WorklistSelected(sel, o0, OPERATORS, weather, k);
      KindsSplit(k.kind);
    }
    NightItems(o0, sel, start, ops, weather);
    var mid := SleepItems(start, ops, weather);
    if mid.ok {
      NothingSkippedAtFirst(o0, sel, run.world);
      OperatorItemsHold(sel, run.world, start, weather);
      NightItems(o0, sel, mid, loads, weather);
    } else {
      SleepItemsAfterFailure(mid, loads, weather);
    }
  }

  lemma {:induction false} SleepPassesNightOrdered(o0: map<Key, Body>, sel: Selector, run: Run, passes: seq<Weather>)
    requires RunConsistent(o0, run) && NightOrderedRun(o0, sel, run)
    requires forall i :: 0 <= i < |passes| ==> Faithful(sel, o0, passes[i])
    ensures NightOrderedRun(o0, sel, AllSleepPasses(sel, run, passes))
    decreases |passes|
  {
    if passes == [] {
    } else {
      SleepItemsConsistent(o0, run.(ok := true), Worklist(sel, SLEEP_ORDER, passes[0]), passes[0]);
      SleepPassNightOrdered(o0, sel, run, passes[0]);
      SleepPassesNightOrdered(o0, sel, SleepPass(sel, run, passes[0]), passes[1..]);
    }
  }

  /** In the morning either no operator is active yet or every recorded workload has been restored. */
  ghost predicate MorningOrdered(o0: map<Key, Body>, sel: Selector, lost: set<Key>, w: World) {
    && Waking(o0, lost, w) && |lost| == w.statusFailures
    && (OperatorsHeld(sel, w) || NoWorkloadSlept(o0, w)
        || forall r :: r in w.records && !IsOperator(r.key.kind) ==> Woken(o0, w, r))
  }

  lemma MorningResumesLast(o0: map<Key, Body>, sel: Selector, lost: set<Key>, w: World)
    requires MorningOrdered(o0, sel, lost, w) && Typed(o0)
    requires AllLeaveTrace(o0)
    ensures ResumesLast(o0, sel, w)
  {
    if !OperatorsHeld(sel, w) && !NoWorkloadSlept(o0, w) {
      forall k | k in o0 && !IsOperator(k.kind) && SleptBySchedule(o0, w, k)
        ensures !Recorded(w.records, k) && w.statusFailures > 0
      {
        if Recorded(w.records, k) {
          var i :| 0 <= i < |w.records| && w.records[i].key == k;
          assert WakingRecord(o0, w, w.records[i]) && Woken(o0, w, w.records[i]);
          WakeTakesEffect(k, o0[k]);
        } else {
          SleepTakesEffect(o0[k]);
          assert k in lost;
        }
      }
    }
  }

  ghost predicate MorningSteps(o0: map<Key, Body>, sel: Selector, steps: seq<Step>) {
    forall s :: s in steps ==> s.world.objects.Keys == o0.Keys && ResumesLast(o0, sel, s.world)
  }

  /** Restoring workloads, with the operators as they are, keeps the order in every step. */
  lemma {:induction false} WakeWorkloadsOrdered(
    o0: map<Key, Body>, sel: Selector, lost: set<Key>, run: Run, records: seq<Record>, weather: Weather)
    requires MorningOrdered(o0, sel, lost, run.world) && Typed(o0) && MorningSteps(o0, sel, run.steps)
    requires AllLeaveTrace(o0)
    requires forall r :: r in records ==> r in run.world.records
    ensures
      var after := WakeRecords(run, records, false, weather);
      MorningOrdered(o0, sel, lost, after.world) && MorningSteps(o0, sel, after.steps)
    decreases |records|
  {
    if records == [] {
    } else {
      var r := records[0];
      var next := if !IsOperator(r.key.kind) then WakeOne(run, r, weather) else run;
      if !IsOperator(r.key.kind) {
        WakeOneWaking(o0, lost, run, r, weather);
        WakeWorkloadOrdered(o0, sel, lost, run, r, weather);
        MorningResumesLast(o0, sel, lost, next.world);
      }
      WakeWorkloadsOrdered(o0, sel, lost, next, records[1..], weather);
    }
  }

  lemma WakeWorkloadOrdered(
    o0: map<Key, Body>, sel: Selector, lost: set<Key>, run: Run, r: Record, weather: Weather)
    requires MorningOrdered(o0, sel, lost, run.world) && Typed(o0)
    requires AllLeaveTrace(o0)
    requires r in run.world.records && !IsOperator(r.key.kind)
    ensures MorningOrdered(o0, sel, lost, WakeOne(run, r, weather).world)
  {
    var w, after := run.world, WakeOne(run, r, weather).world;
    WakeOneWaking(o0, lost, run, r, weather);
    if OperatorsHeld(sel, w) {
      assert OperatorsHeld(sel, after);
    } else if NoWorkloadSlept(o0, w) {
      assert WakingRecord(o0, w, r);
      RestoredTwice(r, PutToSleep(o0[r.key]));
      WakeTakesEffect(r.key, o0[r.key]);
      assert NoWorkloadSlept(o0, after);
    } else {
      forall q | q in after.records && !IsOperator(q.key.kind)
        ensures Woken(o0, after, q)
      {
        if q.key == r.key { SameKeySameRecord(w.records, q, r); }
      }
    }
  }

  /** Once every recorded workload is restored, resuming operators one by one keeps the order. */
  lemma {:induction false} WakeOperatorsOrdered(
    o0: map<Key, Body>, sel: Selector, lost: set<Key>, run: Run, records: seq<Record>, weather: Weather)
    requires MorningOrdered(o0, sel, lost, run.world) && Typed(o0) && MorningSteps(o0, sel, run.steps)
    requires AllLeaveTrace(o0)
    requires forall r :: r in records ==> r in run.world.records
    requires forall r :: r in run.world.records && !IsOperator(r.key.kind) ==> Woken(o0, run.world, r)
    ensures
      var after := WakeRecords(run, records, true, weather);
      MorningOrdered(o0, sel, lost, after.world) && MorningSteps(o0, sel, after.steps)
    decreases |records|
  {
    if records == [] {
    } else {
      var r := records[0];
      var next := if IsOperator(r.key.kind) then WakeOne(run, r, weather) else run;
      if IsOperator(r.key.kind) {
        WakeOneWaking(o0, lost, run, r, weather);
        assert MorningOrdered(o0, sel, lost, next.world);
        MorningResumesLast(o0, sel, lost, next.world);
      }
      WakeOperatorsOrdered(o0, sel, lost, next, records[1..], weather);
    }
  }

  lemma {:induction false} WakePassesOrdered(
    o0: map<Key, Body>, sel: Selector, lost: set<Key>, run: Run, passes: seq<Weather>)
    requires MorningOrdered(o0, sel, lost, run.world) && Typed(o0) && MorningSteps(o0, sel, run.steps)
    requires AllLeaveTrace(o0)
    requires forall i, k :: 0 <= i < |passes| ==> passes[i].get(k)
    ensures
      var after := AllWakePasses(run, passes);
      MorningOrdered(o0, sel, lost, after.world) && MorningSteps(o0, sel, after.steps)
    decreases |passes|
  {
    if passes == [] {
    } else {
      var rs := run.world.records;
      WakeWorkloadsOrdered(o0, sel, lost, run.(ok := true), rs, passes[0]);
      WakeRecordsWaking(o0, lost, run.(ok := true), rs, false, passes[0]);
      var mid := WakeRecords(run.(ok := true), rs, false, passes[0]);
      if mid.ok {
        WakeOperatorsOrdered(o0, sel, lost, mid, rs, passes[0]);
      } else {
        WakeAfterFailure(mid, rs, true, passes[0]);
      }
      WakePassesOrdered(o0, sel, lost, WakePass(run, passes[0]), passes[1..]);
    }
  }

  lemma StartOrdered(o0: map<Key, Body>, sel: Selector)
    ensures RunConsistent(o0, Start(o0)) && NightOrderedRun(o0, sel, Start(o0))
  {
    assert Unrecorded(o0, Start(o0).world) == {};
    forall k | k in o0
      ensures !SleptBySchedule(o0, Start(o0).world, k)
    {
      if Awake(o0[k]) { SleepTakesEffect(o0[k]); }
    }
  }

  /** In every state between two writes of this night and morning, operators resume last. */
  ghost predicate OrderKept(o0: map<Key, Body>, sel: Selector, nights: seq<Weather>, mornings: seq<Weather>) {
    forall s :: s in AllWakePasses(AllSleepPasses(sel, Start(o0), nights), mornings).steps ==>
      s.world.objects.Keys == o0.Keys && ResumesLast(o0, sel, s.world)
  }

  /** Lists are faithful and every Get of the morning is answered. */
  ghost predicate Undisturbed(o0: map<Key, Body>, sel: Selector, nights: seq<Weather>, mornings: seq<Weather>) {
    && (forall i :: 0 <= i < |nights| ==> Faithful(sel, o0, nights[i]))
    && (forall i, k :: 0 <= i < |mornings| ==> mornings[i].get(k))
  }

  /** Operator ordering: in every state between two writes of interrupted and retried sleep passes followed by
      interrupted and retried wake passes, an active selected operator resource means no workload is still slept,
      except those whose record a failed status write lost. */
  lemma OperatorOrdering(o0: map<Key, Body>, sel: Selector, nights: seq<Weather>, mornings: seq<Weather>)
    requires Typed(o0) && AllLeaveTrace(o0) && Undisturbed(o0, sel, nights, mornings)
    ensures OrderKept(o0, sel, nights, mornings)
  {
    StartOrdered(o0, sel);
    CrashConsistency(o0, sel, nights);
    SleepPassesNightOrdered(o0, sel, Start(o0), nights);
    var slept := AllSleepPasses(sel, Start(o0), nights);
    var lost := Unrecorded(o0, slept.world);
    TracksIsWaking(o0, slept.world);
    WakePassesOrdered(o0, sel, lost, slept, mornings);
  }

  // ---------- when the order can fail ----------

  /** A selector and a calm environment for one operator resource and one workload. */
  function OnlyThese(p: Key, k: Key): (r: (Selector, Weather)) {
    (Selector([], key => key == p || key == k, _ => true),
     Weather(
       kind => Listed(if kind == p.kind then [p.name] else if kind == k.kind then [k.name] else []),
       _ => true, _ => true, _ => true))
  }

  lemma OnlyTheseFaithful(objects: map<Key, Body>, p: Key, k: Key)
    requires p in objects && k in objects && p.kind != k.kind
    ensures var (sel, calm) := OnlyThese(p, k); Faithful(sel, objects, calm)
  {
    var (sel, calm) := OnlyThese(p, k);
    forall kind, name
      ensures name in calm.list(kind).names <==> Key(kind, name) in objects && sel.matchesLabels(Key(kind, name))
    {
    }
  }

  lemma OnlyTheseAmong(p: Key, k: Key, kinds: seq<Kind>, x: Key)
    requires p.kind != k.kind && x in {p, k} && Distinct(kinds)
    requires x.kind in kinds && forall y :: y in {p, k} && y != x ==> y.kind !in kinds
    ensures var (sel, calm) := OnlyThese(p, k); Worklist(sel, kinds, calm) == [Visit(x)]
  {
    var (sel, calm) := OnlyThese(p, k);
    WorklistOfOne(sel, kinds, calm, x.kind);
    assert KindItems(sel, x.kind, calm) == [Visit(x)];
  }

  lemma OnlyTheseOver(p: Key, k: Key, first: seq<Kind>, second: seq<Kind>)
    requires Distinct(first) && p.kind in first && k.kind !in first
    requires Distinct(second) && k.kind in second && p.kind !in second
    ensures var (sel, calm) := OnlyThese(p, k); Worklist(sel, first + second, calm) == [Visit(p), Visit(k)]
  {
    var (sel, calm) := OnlyThese(p, k);
    OnlyTheseAmong(p, k, first, p);
    OnlyTheseAmong(p, k, second, k);
    WorklistConcat(sel, first, second, calm);
  }

  lemma OnlyTheseListed(p: Key, k: Key)
    requires IsOperator(p.kind) && !IsOperator(k.kind)
    ensures var (sel, calm) := OnlyThese(p, k); Worklist(sel, SLEEP_ORDER, calm) == [Visit(p), Visit(k)]
  {
    OnlyTheseOver(p, k, OPERATORS, WORKLOADS) by {
      KindsSplit(p.kind);
      KindsSplit(k.kind);
      OrdersDistinct();
    }
  }

  lemma SleepTwo(run: Run, a: Key, b: Key, weather: Weather)
    ensures SleepItems(run, [Visit(a), Visit(b)], weather) == SleepOne(SleepOne(run, a, weather), b, weather)
  {
    var next := SleepItem(run, Visit(a), weather);
    assert [Visit(a), Visit(b)][1..] == [Visit(b)] && [Visit(b)][1..] == [];
    assert SleepItems(next, [Visit(b)], weather) == SleepItems(SleepItem(next, Visit(b), weather), [], weather);
  }

  lemma WakeTwo(run: Run, a: Record, b: Record, weather: Weather)
    requires IsOperator(a.key.kind) && !IsOperator(b.key.kind)
    ensures WakeRecords(run, [a, b], false, weather) == WakeOne(run, b, weather)
    ensures WakeRecords(run, [a, b], true, weather) == WakeOne(run, a, weather)
  {
    assert [a, b][1..] == [b] && [b][1..] == [];
    assert WakeRecords(run, [b], false, weather) == WakeRecords(WakeOne(run, b, weather), [], false, weather);
    var resumed := WakeOne(run, a, weather);
    assert WakeRecords(resumed, [b], true, weather) == WakeRecords(resumed, [], true, weather);
  }

  /** The world of a night that puts p and k to sleep. */
  function SleptTogether(o0: map<Key, Body>, p: Key, k: Key): World
    requires p in o0 && k in o0
  {
    World(o0[p := PutToSleep(o0[p])][k := PutToSleep(o0[k])], [RecordOf(p, o0[p]), RecordOf(k, o0[k])], 0)
  }

  lemma OneNight(sel: Selector, run: Run, weather: Weather)
    ensures AllSleepPasses(sel, run, [weather]) == SleepPass(sel, run, weather)
  {
    assert [weather][1..] == [];
  }

  lemma SleptInTurn(o0: map<Key, Body>, p: Key, k: Key, weather: Weather)
    requires p in o0 && k in o0 && p != k && Awake(o0[p]) && Awake(o0[k])
    requires forall x :: weather.update(x) && weather.status(x)
    ensures SleepOne(SleepOne(Start(o0), p, weather), k, weather).world == SleptTogether(o0, p, k)
  {
    var first := SleepOne(Start(o0), p, weather);
    assert first.world == World(o0[p := PutToSleep(o0[p])], [RecordOf(p, o0[p])], 0);
    assert !Recorded(first.world.records, k);
  }

  lemma SleptByNight(o0: map<Key, Body>, p: Key, k: Key)
    requires p in o0 && k in o0 && IsOperator(p.kind) && !IsOperator(k.kind) && Awake(o0[p]) && Awake(o0[k])
    ensures
      var (sel, calm) := OnlyThese(p, k);
      AllSleepPasses(sel, Start(o0), [calm]).world == SleptTogether(o0, p, k)
  {
    var (sel, calm) := OnlyThese(p, k);
    OnlyTheseListed(p, k);
    OneNight(sel, Start(o0), calm);
    SleepTwo(Start(o0), p, k, calm);
    SleptInTurn(o0, p, k, calm);
  }

  lemma ActiveBeforeSlept(o0: map<Key, Body>, sel: Selector, w: World, p: Key, k: Key)
    requires w.objects.Keys == o0.Keys && p in o0 && k in o0 && !IsOperator(k.kind)
    requires SelectedOperator(sel, p) && Awake(w.objects[p])
    requires SleptBySchedule(o0, w, k) && Recorded(w.records, k)
    ensures !ResumesLast(o0, sel, w)
  {
  }

  lemma ResumedTooEarly(o0: map<Key, Body>, p: Key, k: Key, slept: Run, sel: Selector, weather: Weather)
    requires Typed(o0) && p in o0 && k in o0 && IsOperator(p.kind) && Awake(o0[p])
    requires Awake(o0[k]) && !LeavesTrace(o0[k])
    requires slept.ok && slept.world == SleptTogether(o0, p, k)
    requires SelectedOperator(sel, p) && forall x :: weather.get(x) && weather.update(x)
    ensures
      var resumed := WakeOne(WakeOne(slept, RecordOf(k, o0[k]), weather), RecordOf(p, o0[p]), weather);
      && resumed.steps != [] && resumed.steps[|resumed.steps| - 1].world == resumed.world
      && resumed.world.objects.Keys == o0.Keys && !ResumesLast(o0, sel, resumed.world)
  {
    WakeTakesEffect(k, o0[k]);
    var woken := WakeOne(slept, RecordOf(k, o0[k]), weather);
    assert woken.ok && woken.world == slept.world;
    var resumed := WakeOne(woken, RecordOf(p, o0[p]), weather).world;
    assert resumed.records[1] == RecordOf(k, o0[k]);
    ActiveBeforeSlept(o0, sel, resumed, p, k);
  }

  lemma CalmMorning(o0: map<Key, Body>, p: Key, k: Key, night: Run, weather: Weather)
    requires p in o0 && k in o0 && IsOperator(p.kind) && !IsOperator(k.kind)
    requires night.world == SleptTogether(o0, p, k)
    ensures AllWakePasses(night, [weather])
         == WakeOne(WakeOne(night.(ok := true), RecordOf(k, o0[k]), weather), RecordOf(p, o0[p]), weather)
  {
    var slept := night.(ok := true);
    WakeTwo(slept, RecordOf(p, o0[p]), RecordOf(k, o0[k]), weather);
    WakeTwo(WakeOne(slept, RecordOf(k, o0[k]), weather), RecordOf(p, o0[p]), RecordOf(k, o0[k]), weather);
    assert [weather][1..] == [];
  }

  /** A workload whose restore does not show is still slept when the operator resource is resumed. */
  lemma TracelessBreaksOrder(o0: map<Key, Body>, p: Key, k: Key) returns (sel: Selector, calm: Weather)
    requires Typed(o0) && p in o0 && k in o0 && IsOperator(p.kind) && Awake(o0[p])
    requires Awake(o0[k]) && !LeavesTrace(o0[k])
    ensures Faithful(sel, o0, calm) && (forall x :: calm.get(x)) && !OrderKept(o0, sel, [calm], [calm])
  {
    sel, calm := OnlyThese(p, k).0, OnlyThese(p, k).1;
    OnlyTheseFaithful(o0, p, k);
    SleptByNight(o0, p, k);
    var night := AllSleepPasses(sel, Start(o0), [calm]);
    CalmMorning(o0, p, k, night, calm);
    ResumedTooEarly(o0, p, k, night.(ok := true), sel, calm);
    var resumed := AllWakePasses(night, [calm]);
    assert resumed.steps[|resumed.steps| - 1] in resumed.steps;
  }

  /** When the order holds: given an operator resource that is active, operators resume last in every undisturbed
      night and morning of every selector exactly if the restore of every workload shows. */
  lemma OperatorOrderingExactly(o0: map<Key, Body>, p: Key)
    requires Typed(o0) && p in o0 && IsOperator(p.kind) && Awake(o0[p])
    ensures AllLeaveTrace(o0) <==>
      forall sel, nights, mornings :: Undisturbed(o0, sel, nights, mornings) ==> OrderKept(o0, sel, nights, mornings)
  {
    if AllLeaveTrace(o0) {
      forall sel, nights, mornings | Undisturbed(o0, sel, nights, mornings)
        ensures OrderKept(o0, sel, nights, mornings)
      {
        OperatorOrdering(o0, sel, nights, mornings);
      }
    } else {
      var k :| k in o0 && Awake(o0[k]) && !LeavesTrace(o0[k]);
      var sel, calm := TracelessBreaksOrder(o0, p, k);
      assert Undisturbed(o0, sel, [calm], [calm]);
    }
  }

  // ---------- sleep passes from any state ----------

  ghost predicate WorkloadsUntouched(w0: World, w: World) {
    && w.objects.Keys == w0.objects.Keys
    && forall k :: k in w0.objects && !IsOperator(k.kind) ==> w.objects[k] == w0.objects[k]
  }

  /** Workloads change only while every selected operator resource is suspended. */
  ghost predicate StepOrdered(sel: Selector, w0: World, w: World) {
    OperatorsHeld(sel, w) || WorkloadsUntouched(w0, w)
  }

  /** In every state of a pass that began with w0. */
  ghost predicate PassOrdered(sel: Selector, w0: World, run: Run) {
    StepOrdered(sel, w0, run.world) && forall s :: s in run.steps ==> StepOrdered(sel, w0, s.world)
  }

  ghost predicate QuietRun(w0: World, run: Run) {
    WorkloadsUntouched(w0, run.world) && forall s :: s in run.steps ==> WorkloadsUntouched(w0, s.world)
  }

  lemma QuietOne(w0: World, run: Run, key: Key, weather: Weather)
    requires QuietRun(w0, run)
    requires IsOperator(key.kind) || Recorded(run.world.records, key) || key !in w0.objects || !Awake(w0.objects[key])
    ensures QuietRun(w0, SleepOne(run, key, weather))
  {
  }

  /** Items that find no workload to put to sleep change none. */
  lemma {:induction false} QuietItems(w0: World, run: Run, items: seq<Item>, weather: Weather)
    requires QuietRun(w0, run)
    requires forall k :: Visit(k) in items && !IsOperator(k.kind) && k in w0.objects ==>
               Recorded(run.world.records, k) || !Awake(w0.objects[k])
    ensures QuietRun(w0, SleepItems(run, items, weather))
    decreases |items|
  {
    if items == [] {
    } else {
      assert items[0] in items && forall x :: x in items[1..] ==> x in items;
      if items[0].Visit? {
        QuietOne(w0, run, items[0].key, weather);
        SleepOneEffect(run, items[0].key, weather);
      }
      QuietItems(w0, SleepItem(run, items[0], weather), items[1..], weather);
    }
  }

  lemma HeldOne(sel: Selector, w0: World, run: Run, key: Key, weather: Weather)
    requires OperatorsHeld(sel, run.world) && PassOrdered(sel, w0, run)
    ensures
      OperatorsHeld(sel, SleepOne(run, key, weather).world) && PassOrdered(sel, w0, SleepOne(run, key, weather))
  {
    var w := run.world;
    if key in w.objects && Awake(w.objects[key]) {
      SleepTakesEffect(w.objects[key]);
      assert OperatorsHeld(sel, Slept(w, key));
    }
  }

  lemma {:induction false} HeldItems(sel: Selector, w0: World, run: Run, items: seq<Item>, weather: Weather)
    requires OperatorsHeld(sel, run.world) && PassOrdered(sel, w0, run)
    ensures PassOrdered(sel, w0, SleepItems(run, items, weather))
    decreases |items|
  {
    if items == [] {
    } else {
      if items[0].Visit? {
        HeldOne(sel, w0, run, items[0].key, weather);
      }
      HeldItems(sel, w0, SleepItem(run, items[0], weather), items[1..], weather);
    }
  }

  /** A pass from any state keeps the order if it skips no awake operator resource. */
  lemma SleepPassOrdered(sel: Selector, w: World, weather: Weather)
    requires Faithful(sel, w.objects, weather) && NoOperatorSkipped(sel, w)
    ensures PassOrdered(sel, w, SleepPass(sel, Fresh(w), weather))
  {
    var ops, loads := Worklist(sel, OPERATORS, weather), Worklist(sel, WORKLOADS, weather);
    WorklistConcat(sel, OPERATORS, WORKLOADS, weather);
    SleepItemsConcat(Fresh(w), ops, loads, weather);
    forall k | Visit(k) in ops
      ensures IsOperator(k.kind)
    {
      WorklistSelected(sel, w.objects, OPERATORS, weather, k);
      KindsSplit(k.kind);
    }
    QuietItems(w, Fresh(w), ops, weather);
    var mid := SleepItems(Fresh(w), ops, weather);
    if mid.ok {
      OperatorItemsHold(sel, w, Fresh(w), weather);
      HeldItems(sel, w, mid, loads, weather);
    } else {
      SleepItemsAfterFailure(mid, loads, weather);
    }
  }

  lemma QuietPass(sel: Selector, w: World, weather: Weather)
    requires Faithful(sel, w.objects, weather) && forall k :: ToSleep(sel, w, k) ==> IsOperator(k.kind)
    ensures PassOrdered(sel, w, SleepPass(sel, Fresh(w), weather))
  {
    var items := Worklist(sel, SLEEP_ORDER, weather);
    forall k | Visit(k) in items && !IsOperator(k.kind)
      ensures k in w.objects && (Recorded(w.records, k) || !Awake(w.objects[k]))
    {
      WorklistSelected(sel, w.objects, SLEEP_ORDER, weather, k);
    }
    QuietItems(w, Fresh(w), items, weather);
  }

  /** A calm pass skips the recorded operator resource p, which stays active, and puts workload k to sleep. */
  lemma SkippedOperatorBreaksOrder(sel: Selector, w: World, p: Key, k: Key)
    requires p in w.objects && SelectedOperator(sel, p) && Recorded(w.records, p) && Awake(w.objects[p])
    requires ToSleep(sel, w, k) && !IsOperator(k.kind)
    ensures
      var calm := Calm(sel, w.objects);
      Faithful(sel, w.objects, calm) && !PassOrdered(sel, w, SleepPass(sel, Fresh(w), calm))
  {
    var calm := Calm(sel, w.objects);
    CalmPassSleeps(sel, w, k);
    AwakeAfterPass(sel, Fresh(w), calm, p);
    var after := SleepPass(sel, Fresh(w), calm).world;
    assert !OperatorsHeld(sel, after) && !WorkloadsUntouched(w, after);
  }

  /** When a sleep pass keeps the order: from any namespace and any records, every pass whose Lists are faithful keeps
      it in every state exactly if no awake operator resource is skipped for a kept record, or there is no workload
      to put to sleep. */
  lemma PassOrderedExactly(sel: Selector, w: World)
    ensures NoOperatorSkipped(sel, w) || (forall k :: ToSleep(sel, w, k) ==> IsOperator(k.kind)) <==>
      forall weather :: Faithful(sel, w.objects, weather) ==> PassOrdered(sel, w, SleepPass(sel, Fresh(w), weather))
  {
    if NoOperatorSkipped(sel, w) || forall k :: ToSleep(sel, w, k) ==> IsOperator(k.kind) {
      forall weather | Faithful(sel, w.objects, weather)
        ensures PassOrdered(sel, w, SleepPass(sel, Fresh(w), weather))
      {
        if NoOperatorSkipped(sel, w) {
          SleepPassOrdered(sel, w, weather);
        } else {
          QuietPass(sel, w, weather);
        }
      }
    } else {
      var p :| p in w.objects && SelectedOperator(sel, p) && Recorded(w.records, p) && Awake(w.objects[p]);
      var k :| ToSleep(sel, w, k) && !IsOperator(k.kind);
      SkippedOperatorBreaksOrder(sel, w, p, k);
    }
  }
}
