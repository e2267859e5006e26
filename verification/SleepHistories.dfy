/**
 Whole histories of one schedule: any number of reconciles over many nights, with failing calls, and outside edits in
 between. What the persisted records are worth, where every original is, and what clearing the records forgets.
 */
module SleepHistories {
  import opened Common
  import opened SleepWindows
  import opened RequeueTiming
  import opened Workloads
  import opened SleepPasses
  import opened SleepController

  /** What can happen to a namespace: a reconcile, or anybody else editing workloads. */
  datatype Event = Reconcile(spec: Spec, now: int, env: Env) | Edit(objects: map<Key, Body>)

  function Edited(c: Controller, objects: map<Key, Body>): Controller {
    c.(run := c.run.(world := c.run.world.(objects := objects)))
  }

  ghost function Next(c: Controller, e: Event): Controller {
    match e
    case Reconcile(spec, now, env) => Reconciled(spec, c, now, env)
    case Edit(objects) => Edited(c, objects)
  }

  ghost function After(c: Controller, events: seq<Event>): Controller
    decreases |events|
  {
    if events == [] then c else After(Next(c, events[0]), events[1..])
  }

  function Begin(objects: map<Key, Body>): Controller {
    Controller(Start(objects), false, None)
  }

  /** The steady-state clearing: an awake schedule outside its verification window drops every record. */
  ghost predicate Clears(spec: Spec, c: Controller, now: int, env: Env) {
    && !spec.suspend && spec.Windows() != [] && !Asleep(spec.Windows(), now) && !c.sleeping
    && !ShouldVerify(c.lastTransition, |c.run.world.records|, now) && env.clearStatus
  }

  /** A reconcile clears the records, runs one pass, or leaves the namespace alone. */
  lemma ReconciledWorld(spec: Spec, c: Controller, now: int, env: Env)
    ensures
      var before, after := c.run.world, Reconciled(spec, c, now, env).run.world;
      if Clears(spec, c, now, env) then after == before.(records := [])
      else
        || after == before
        || after == SleepPass(spec.selector, c.run, env.weather).world
        || after == WakePass(c.run, env.weather).world
  {
  }

  // ---------- one record per object ----------

  lemma {:induction false} SleepItemsUnique(run: Run, items: seq<Item>, weather: Weather)
    requires UniqueKeys(run.world.records)
    ensures UniqueKeys(SleepItems(run, items, weather).world.records)
    decreases |items|
  {
    if items == [] {
    } else {
      if items[0].Visit? {
        var records := run.world.records;
        var after := SleepItem(run, items[0], weather).world.records;
        assert after != records ==> after[..|records|] == records && !Recorded(records, after[|records|].key);
      }
      SleepItemsUnique(SleepItem(run, items[0], weather), items[1..], weather);
    }
  }

  lemma {:induction false} WakeRecordsKeepsRecords(run: Run, records: seq<Record>, operators: bool, weather: Weather)
    ensures
      var after := WakeRecords(run, records, operators, weather).world;
      after.records == run.world.records && after.statusFailures == run.world.statusFailures
    decreases |records|
  {
    if records == [] {
    } else {
      var next := if IsOperator(records[0].key.kind) == operators then WakeOne(run, records[0], weather) else run;
      WakeRecordsKeepsRecords(next, records[1..], operators, weather);
    }
  }

  lemma WakePassKeepsRecords(run: Run, weather: Weather)
    ensures
      var after := WakePass(run, weather).world;
      after.records == run.world.records && after.statusFailures == run.world.statusFailures
  {
    var rs := run.world.records;
    WakeRecordsKeepsRecords(run.(ok := true), rs, false, weather);
    WakeRecordsKeepsRecords(WakeRecords(run.(ok := true), rs, false, weather), rs, true, weather);
  }

  /** At most one record per kind and name in every reachable state, whatever fails and whatever anybody edits. */
  lemma {:induction false} RecordsAlwaysUnique(c: Controller, events: seq<Event>)
    requires UniqueKeys(c.run.world.records)
    ensures UniqueKeys(After(c, events).run.world.records)
    decreases |events|
  {
    if events == [] {
    } else {
      if events[0].Reconcile? {
        var spec, env := events[0].spec, events[0].env;
        ReconciledWorld(spec, c, events[0].now, env);
        SleepItemsUnique(c.run.(ok := true), Worklist(spec.selector, SLEEP_ORDER, env.weather), env.weather);
        WakePassKeepsRecords(c.run, env.weather);
      }
      RecordsAlwaysUnique(Next(c, events[0]), events[1..]);
    }
  }

  // ---------- records of awake originals ----------

  /** Whichever object is awake is of a form whose record says so. */
  ghost predicate Telling(objects: map<Key, Body>) {
    Typed(objects) && forall k :: k in objects ==> NamesTell(objects[k])
  }

  ghost predicate Sound(w: World) {
    Telling(w.objects) && RecordsSound(w.records)
  }

  lemma OneMoreSound(records: seq<Record>, r: Record)
    requires RecordsSound(records) && !Recorded(records, r.key) && AwakeOriginal(r)
    ensures RecordsSound(records + [r])
  {
  }

  lemma {:induction false} SleepItemsSound(run: Run, items: seq<Item>, weather: Weather)
    requires Sound(run.world)
    ensures Sound(SleepItems(run, items, weather).world)
    decreases |items|
  {
    if items == [] {
    } else {
      if items[0].Visit? {
        var w, key := run.world, items[0].key;
        if key in w.objects && !Recorded(w.records, key) && Awake(w.objects[key]) {
          var r := RecordOf(key, w.objects[key]);
          NamesTellShowsAwake(w.objects[key]);
          RecordOfAwake(key, w.objects[key]);
          FormsKept(key.kind, r, w.objects[key]);
          NamesTellKept(r, w.objects[key]);
          OneMoreSound(w.records, r);
        }
      }
      SleepItemsSound(SleepItem(run, items[0], weather), items[1..], weather);
    }
  }

  lemma {:induction false} WakeRecordsSound(run: Run, records: seq<Record>, operators: bool, weather: Weather)
    requires Sound(run.world)
    ensures Sound(WakeRecords(run, records, operators, weather).world)
    decreases |records|
  {
    if records == [] {
    } else {
      var r := records[0];
      var next := if IsOperator(r.key.kind) == operators then WakeOne(run, r, weather) else run;
      if r.key in run.world.objects {
        FormsKept(r.key.kind, r, run.world.objects[r.key]);
        NamesTellKept(r, run.world.objects[r.key]);
      }
      WakeRecordsSound(next, records[1..], operators, weather);
    }
  }

  lemma WakePassSound(run: Run, weather: Weather)
    requires Sound(run.world)
    ensures Sound(WakePass(run, weather).world)
  {
    var rs := run.world.records;
    WakeRecordsSound(run.(ok := true), rs, false, weather);
    WakeRecordsSound(WakeRecords(run.(ok := true), rs, false, weather), rs, true, weather);
  }

  /** In every reachable state, whatever failed and whoever edited workloads in between, the persisted records are
      unique per kind and name and each is of an awake original, provided that every running nodeSet is backed by a
      running last nodeSet of its name. */
  lemma {:induction false} RecordsAlwaysSound(c: Controller, events: seq<Event>)
    requires Sound(c.run.world)
    requires forall e :: e in events && e.Edit? ==> Telling(e.objects)
    ensures Sound(After(c, events).run.world)
    decreases |events|
  {
    if events == [] {
    } else {
      assert events[0] in events;
      if events[0].Reconcile? {
        var spec, env := events[0].spec, events[0].env;
        ReconciledWorld(spec, c, events[0].now, env);
        SleepItemsSound(c.run.(ok := true), Worklist(spec.selector, SLEEP_ORDER, env.weather), env.weather);
        WakePassSound(c.run, env.weather);
      }
      RecordsAlwaysSound(Next(c, events[0]), events[1..]);
    }
  }

  // ---------- exactly when records are of awake originals ----------

  function SetNames(body: Body): seq<string> {
    if body.NodeSets? then seq(|body.sets|, i requires 0 <= i < |body.sets| => body.sets[i].name) else []
  }

  ghost predicate AllShowAwake(objects: map<Key, Body>) {
    forall k :: k in objects && Awake(objects[k]) ==> ShowsAwake(objects[k])
  }

  /** The record restores every nodeSet of its object. */
  ghost predicate Covers(r: Record, names: seq<string>) {
    names != [] ==> r.nodeSetCounts.Some? && forall i :: 0 <= i < |names| ==> names[i] in r.nodeSetCounts.value
  }

  /** An object with the given nodeSet names, whose record would tell that it is awake. */
  ghost predicate ObjectCovered(kind: Kind, names: seq<string>, body: Body) {
    HasForm(kind, body) && SetNames(body) == names && (Awake(body) ==> ShowsAwake(body))
  }

  ghost predicate ObjectsCovered(o0: map<Key, Body>, objects: map<Key, Body>) {
    objects.Keys == o0.Keys && forall k :: k in o0 ==> ObjectCovered(k.kind, SetNames(o0[k]), objects[k])
  }

  ghost predicate RecordCovered(o0: map<Key, Body>, r: Record) {
    r.key in o0 && Covers(r, SetNames(o0[r.key])) && AwakeOriginal(r)
  }

  ghost predicate Covered(o0: map<Key, Body>, w: World) {
    ObjectsCovered(o0, w.objects) && UniqueKeys(w.records) && forall r :: r in w.records ==> RecordCovered(o0, r)
  }

  lemma RecordCovers(key: Key, body: Body)
    ensures Covers(RecordOf(key, body), SetNames(body))
  {
    if body.NodeSets? {
      forall i | 0 <= i < |body.sets|
        ensures body.sets[i].name in Counts(body.sets)
      {
        CountsHasNames(body.sets, i);
      }
    }
  }

  /** Restoring all nodeSets by name leaves those of one name alike. */
  lemma CoveredShowsAwake(r: Record, body: Body)
    requires Covers(r, SetNames(body)) && Awake(Restored(r, body))
    ensures ShowsAwake(Restored(r, body))
  {
    if body.NodeSets? && body.sets != [] {
      var sets := body.sets;
      var counts := r.nodeSetCounts.value;
      forall i | 0 <= i < |sets|
        ensures sets[i].name in counts
      {
        assert SetNames(body)[i] == sets[i].name;
      }
      var back := WithCounts(sets, counts);
      var i :| 0 <= i < |back| && NodeSetCount(back[i]) > 0;
      var j := LastOfNameExists(back, i);
      assert back[j].count == back[i].count;
      assert LastOfName(back, j);
    }
  }

  lemma SleptObjectCovered(key: Key, names: seq<string>, body: Body)
    requires ObjectCovered(key.kind, names, body) && Awake(body)
    ensures ObjectCovered(key.kind, names, PutToSleep(body))
    ensures AwakeOriginal(RecordOf(key, body)) && Covers(RecordOf(key, body), names)
  {
    SleepTakesEffect(body);
    assert SetNames(PutToSleep(body)) == SetNames(body);
    RecordOfAwake(key, body);
    RecordCovers(key, body);
  }

  lemma RestoredObjectCovered(kind: Kind, names: seq<string>, r: Record, body: Body)
    requires ObjectCovered(kind, names, body) && Covers(r, names)
    ensures ObjectCovered(kind, names, Restored(r, body))
  {
    FormsKept(kind, r, body);
    assert SetNames(Restored(r, body)) == SetNames(body);
    if Awake(Restored(r, body)) {
      CoveredShowsAwake(r, body);
    }
  }

  lemma OneMoreCovered(o0: map<Key, Body>, records: seq<Record>, r: Record)
    requires UniqueKeys(records) && !Recorded(records, r.key)
    requires (forall q :: q in records ==> RecordCovered(o0, q)) && RecordCovered(o0, r)
    ensures UniqueKeys(records + [r]) && forall q :: q in records + [r] ==> RecordCovered(o0, q)
  {
  }

  lemma SleepOneCovered(o0: map<Key, Body>, run: Run, key: Key, weather: Weather)
    requires Covered(o0, run.world)
    ensures Covered(o0, SleepOne(run, key, weather).world)
  {
    var w, after := run.world, SleepOne(run, key, weather).world;
    if after != w {
      SleptObjectCovered(key, SetNames(o0[key]), w.objects[key]);
      OneMoreCovered(o0, w.records, RecordOf(key, w.objects[key]));
      assert ObjectsCovered(o0, after.objects);
    }
  }

  lemma {:induction false} SleepItemsCovered(o0: map<Key, Body>, run: Run, items: seq<Item>, weather: Weather)
    requires Covered(o0, run.world)
    ensures Covered(o0, SleepItems(run, items, weather).world)
    decreases |items|
  {
    if items == [] {
    } else {
      if items[0].Visit? {
        SleepOneCovered(o0, run, items[0].key, weather);
      }
      SleepItemsCovered(o0, SleepItem(run, items[0], weather), items[1..], weather);
    }
  }

  lemma WakeOneCovered(o0: map<Key, Body>, run: Run, r: Record, weather: Weather)
    requires Covered(o0, run.world) && r in run.world.records
    ensures Covered(o0, WakeOne(run, r, weather).world)
  {
    assert RecordCovered(o0, r);
    RestoredObjectCovered(r.key.kind, SetNames(o0[r.key]), r, run.world.objects[r.key]);
  }

  lemma {:induction false} WakeRecordsCovered(
    o0: map<Key, Body>, run: Run, records: seq<Record>, operators: bool, weather: Weather)
    requires Covered(o0, run.world) && forall r :: r in records ==> r in run.world.records
    ensures Covered(o0, WakeRecords(run, records, operators, weather).world)
    decreases |records|
  {
    if records == [] {
    } else {
      var next := if IsOperator(records[0].key.kind) == operators then WakeOne(run, records[0], weather) else run;
      WakeOneCovered(o0, run, records[0], weather);
      WakeRecordsCovered(o0, next, records[1..], operators, weather);
    }
  }

  lemma WakePassCovered(o0: map<Key, Body>, run: Run, weather: Weather)
    requires Covered(o0, run.world)
    ensures Covered(o0, WakePass(run, weather).world)
  {
    var rs := run.world.records;
    WakeRecordsKeepsRecords(run.(ok := true), rs, false, weather);
    WakeRecordsCovered(o0, run.(ok := true), rs, false, weather);
    WakeRecordsCovered(o0, WakeRecords(run.(ok := true), rs, false, weather), rs, true, weather);
  }

  /** The same objects with the same nodeSet names. */
  ghost predicate SameShape(o0: map<Key, Body>, objects: map<Key, Body>) {
    && objects.Keys == o0.Keys && Typed(objects)
    && forall k :: k in o0 ==> SetNames(objects[k]) == SetNames(o0[k])
  }

  /** Lists are faithful, and edits are among the allowed ones. */
  ghost predicate RegularEvent(o0: map<Key, Body>, allowed: map<Key, Body> -> bool, e: Event) {
    match e
    case Reconcile(spec, now, env) => Faithful(spec.selector, o0, env.weather)
    case Edit(objects) => allowed(objects)
  }

  ghost predicate Regular(o0: map<Key, Body>, allowed: map<Key, Body> -> bool, events: seq<Event>) {
    forall i :: 0 <= i < |events| ==> RegularEvent(o0, allowed, events[i])
  }

  lemma NextCovered(o0: map<Key, Body>, c: Controller, e: Event)
    requires Covered(o0, c.run.world) && (e.Edit? ==> ObjectsCovered(o0, e.objects))
    ensures Covered(o0, Next(c, e).run.world)
  {
    if e.Reconcile? {
      ReconciledWorld(e.spec, c, e.now, e.env);
      SleepItemsCovered(
        o0, c.run.(ok := true), Worklist(e.spec.selector, SLEEP_ORDER, e.env.weather), e.env.weather);
      WakePassCovered(o0, c.run, e.env.weather);
    }
  }

  lemma {:induction false} AlwaysCovered(o0: map<Key, Body>, c: Controller, events: seq<Event>)
    requires Covered(o0, c.run.world)
    requires forall i :: 0 <= i < |events| && events[i].Edit? ==> ObjectsCovered(o0, events[i].objects)
    ensures Covered(o0, After(c, events).run.world)
    decreases |events|
  {
    if events == [] {
    } else {
      NextCovered(o0, c, events[0]);
      AlwaysCovered(o0, Next(c, events[0]), events[1..]);
    }
  }

  /** A selector and a calm environment for one workload. */
  function OnlyThis(k: Key): (r: (Selector, Weather)) {
    (Selector([], key => key == k, _ => true),
     Weather(kind => Listed(if kind == k.kind then [k.name] else []), _ => true, _ => true, _ => true))
  }

  lemma OnlyThisFaithful(objects: map<Key, Body>, k: Key)
    requires k in objects
    ensures var (sel, calm) := OnlyThis(k); Faithful(sel, objects, calm)
  {
    var (sel, calm) := OnlyThis(k);
    forall kind, name
      ensures name in calm.list(kind).names <==> Key(kind, name) in objects && sel.matchesLabels(Key(kind, name))
    {
    }
  }

  lemma OnlyThisOver(k: Key, first: seq<Kind>, second: seq<Kind>)
    requires Distinct(first) && Distinct(second) && k.kind !in first && k.kind in second
    ensures var (sel, calm) := OnlyThis(k); Worklist(sel, first + second, calm) == [SleepPasses.Visit(k)]
  {
    var (sel, calm) := OnlyThis(k);
    WorklistOfOne(sel, first, calm, k.kind);
    WorklistOfOne(sel, second, calm, k.kind);
    WorklistConcat(sel, first, second, calm);
    assert KindItems(sel, k.kind, calm) == [SleepPasses.Visit(k)];
  }

  lemma OnlyThisSlept(o0: map<Key, Body>, k: Key)
    requires k in o0 && !IsOperator(k.kind) && Awake(o0[k])
    ensures
      var (sel, calm) := OnlyThis(k);
      var run := SleepPass(sel, Start(o0), calm);
      run.ok && run.world.records == [RecordOf(k, o0[k])]
  {
    var (sel, calm) := OnlyThis(k);
    OnlyThisOver(k, OPERATORS, WORKLOADS) by {
      KindsSplit(k.kind);
      OrdersDistinct();
    }
    var items := [SleepPasses.Visit(k)];
    assert items[1..] == [];
    assert SleepItems(Start(o0), items, calm) == SleepItems(SleepOne(Start(o0), k, calm), [], calm);
  }

  /** A reconcile at a time to sleep that sees this workload only. */
  function SleepOnly(k: Key): Event {
    var (sel, calm) := OnlyThis(k);
    Reconcile(Spec(false, Some(WindowAtMinute(0, 2)), [], sel, None), MINUTE, Env(calm, true, true, MINUTE))
  }

  /** The records at the end of a history are unique and of awake originals. */
  ghost predicate SoundAfter(o0: map<Key, Body>, events: seq<Event>) {
    RecordsSound(After(Begin(o0), events).run.world.records)
  }

  lemma HiddenBreaksRecords(objects: map<Key, Body>, k: Key)
    requires Typed(objects) && k in objects && Awake(objects[k]) && !ShowsAwake(objects[k])
    ensures !SoundAfter(objects, [SleepOnly(k)])
  {
    var e := SleepOnly(k);
    OnlyThisSlept(objects, k);
    WindowAtMinuteCovers(0, 2, MINUTE);
    assert e.spec.Windows() == [WindowAtMinute(0, 2)];
    var after := Next(Begin(objects), e);
    assert after.run.world.records == [RecordOf(k, objects[k])];
    assert [e][1..] == [];
    assert After(Begin(objects), [e]) == After(after, []);
    RecordOfAwake(k, objects[k]);
    assert after.run.world.records[0] == RecordOf(k, objects[k]);
  }

  /** What goes wrong with the objects of an edit goes wrong after the edit. */
  lemma WrongAfterEdit(o0: map<Key, Body>, allowed: map<Key, Body> -> bool, objects: map<Key, Body>, e: Event)
    returns (events: seq<Event>)
    requires RegularEvent(o0, allowed, e) && !SoundAfter(objects, [e])
    requires objects == o0 || allowed(objects)
    ensures Regular(o0, allowed, events) && !SoundAfter(o0, events)
  {
    if objects == o0 {
      events := [e];
    } else {
      events := [Edit(objects), e];
      assert events[1..] == [e] && Next(Begin(o0), Edit(objects)) == Begin(objects);
    }
  }

  /** Some regular history leaves a record that claims nothing was running. */
  lemma HiddenIsReached(
    o0: map<Key, Body>, allowed: map<Key, Body> -> bool, objects: map<Key, Body>, k: Key)
    returns (events: seq<Event>)
    requires SameShape(o0, objects) && (objects == o0 || allowed(objects))
    requires k in objects && Awake(objects[k]) && !ShowsAwake(objects[k])
    ensures Regular(o0, allowed, events) && !SoundAfter(o0, events)
  {
    OnlyThisFaithful(o0, k);
    HiddenBreaksRecords(objects, k);
    events := WrongAfterEdit(o0, allowed, objects, SleepOnly(k));
  }

  lemma RegularIsSound(o0: map<Key, Body>, allowed: map<Key, Body> -> bool, events: seq<Event>)
    requires Typed(o0) && AllShowAwake(o0) && Regular(o0, allowed, events)
    requires forall objects :: allowed(objects) ==> SameShape(o0, objects) && AllShowAwake(objects)
    ensures SoundAfter(o0, events)
  {
    forall i | 0 <= i < |events| && events[i].Edit?
      ensures ObjectsCovered(o0, events[i].objects)
    {
      assert RegularEvent(o0, allowed, events[i]);
    }
    AlwaysCovered(o0, Begin(o0), events);
  }

  /** Exactly when records are of awake originals: with any set of allowed edits that keep the objects and their
      nodeSet names, in every state of every history, if and only if each object, at the start and after each allowed
      edit, has a running nodeSet that is the last of its name if it is awake. */
  lemma RecordsSoundExactly(o0: map<Key, Body>, allowed: map<Key, Body> -> bool)
    requires Typed(o0) && forall objects :: allowed(objects) ==> SameShape(o0, objects)
    ensures (forall objects :: objects == o0 || allowed(objects) ==> AllShowAwake(objects)) <==>
      forall events: seq<Event> :: Regular(o0, allowed, events) ==> SoundAfter(o0, events)
  {
    if forall objects :: objects == o0 || allowed(objects) ==> AllShowAwake(objects) {
      forall events: seq<Event> | Regular(o0, allowed, events)
        ensures SoundAfter(o0, events)
      {
        RegularIsSound(o0, allowed, events);
      }
    } else {
      var objects :| (objects == o0 || allowed(objects)) && !AllShowAwake(objects);
      var k :| k in objects && Awake(objects[k]) && !ShowsAwake(objects[k]);
      var events := HiddenIsReached(o0, allowed, objects, k);
    }
  }

  /** Distinct nodeSet names meet every condition on names. */
  lemma DistinctNamesAdmit(objects: map<Key, Body>)
    requires Typed(objects) && forall k :: k in objects ==> DistinctSetNames(objects[k])
    ensures Telling(objects) && AllShowAwake(objects) && AllLeaveTrace(objects)
  {
    forall k | k in objects
      ensures NamesTell(objects[k])
      ensures Awake(objects[k]) ==> ShowsAwake(objects[k]) && LeavesTrace(objects[k])
    {
      DistinctNamesSuffice(objects[k]);
    }
  }

  // ---------- where every original is ----------

  ghost predicate AllRecordable(o0: map<Key, Body>) {
    forall k :: k in o0 && Awake(o0[k]) ==> Recordable(o0[k])
  }

  /** Every object is back in its original form or in the slept one, and every record is of the true original. */
  ghost predicate Accounted(o0: map<Key, Body>, w: World) {
    && w.objects.Keys == o0.Keys
    && UniqueKeys(w.records)
    && (forall i :: 0 <= i < |w.records| ==> TrueRecord(o0, w.records[i]))
    && (forall k :: k in o0 ==> Equivalent(w.objects[k], o0[k]) || SleptBySchedule(o0, w, k))
  }

  /** Slept objects nobody remembers, beyond those lost to failed status writes. */
  ghost function Forgotten(o0: map<Key, Body>, w: World): int
    requires w.objects.Keys == o0.Keys
  {
    |Unrecorded(o0, w)| - w.statusFailures
  }

  lemma SleptAccounted(o0: map<Key, Body>, w: World, key: Key)
    requires Accounted(o0, w) && key in w.objects && !Recorded(w.records, key) && Awake(w.objects[key])
    ensures TrueRecord(o0, RecordOf(key, w.objects[key]))
    ensures Accounted(o0, Slept(w, key)) && SleptBySchedule(o0, Slept(w, key), key)
    ensures Unrecorded(o0, Slept(w, key)) == Unrecorded(o0, w) + {key} && key !in Unrecorded(o0, w)
  {
    if SleptBySchedule(o0, w, key) {
      SleepTakesEffect(o0[key]);
      assert false;
    }
    EquivalentSleepAlike(key, w.objects[key], o0[key]);
  }

  lemma RememberAccounted(o0: map<Key, Body>, w: World, r: Record)
    requires Accounted(o0, w) && TrueRecord(o0, r) && !Recorded(w.records, r.key)
    ensures Accounted(o0, Remember(w, r)) && Unrecorded(o0, Remember(w, r)) == Unrecorded(o0, w) - {r.key}
  {
    forall k
      ensures Recorded(w.records + [r], k) <==> Recorded(w.records, k) || k == r.key
    {
      RecordedAfterAppend(w.records, r, k);
    }
  }

  lemma SleepOneAccounted(o0: map<Key, Body>, run: Run, key: Key, weather: Weather)
    requires Accounted(o0, run.world)
    ensures
      var after := SleepOne(run, key, weather).world;
      Accounted(o0, after) && Forgotten(o0, after) == Forgotten(o0, run.world)
  {
    var w := run.world;
    if SleepOne(run, key, weather).world != w {
      SleptAccounted(o0, w, key);
      var slept := Slept(w, key);
      RememberAccounted(o0, slept, RecordOf(key, w.objects[key]));
      assert Unrecorded(o0, slept) - {key} == Unrecorded(o0, w);
      assert Unrecorded(o0, Forget(slept)) == Unrecorded(o0, slept);
    }
  }

  lemma {:induction false} SleepItemsAccounted(o0: map<Key, Body>, run: Run, items: seq<Item>, weather: Weather)
    requires Accounted(o0, run.world)
    ensures
      var after := SleepItems(run, items, weather).world;
      Accounted(o0, after) && Forgotten(o0, after) == Forgotten(o0, run.world)
    decreases |items|
  {
    if items == [] {
    } else {
      if items[0].Visit? {
        SleepOneAccounted(o0, run, items[0].key, weather);
      }
      SleepItemsAccounted(o0, SleepItem(run, items[0], weather), items[1..], weather);
    }
  }

  /** A restore brings a recorded object back, wherever it was. */
  lemma RestoredIsBack(o0: map<Key, Body>, w: World, r: Record)
    requires Typed(o0) && AllRecordable(o0) && Accounted(o0, w) && r in w.records
    ensures r.key in o0 && Equivalent(Restored(r, w.objects[r.key]), o0[r.key])
    ensures !WakeWrites(r, w.objects[r.key]) ==> Restored(r, w.objects[r.key]) == w.objects[r.key]
  {
    var k := r.key;
    if SleptBySchedule(o0, w, k) {
      RoundTrip(k, o0[k]);
    } else {
      RestoredInPlace(k, o0[k], w.objects[k]);
    }
  }

  lemma WakeOneAccounted(o0: map<Key, Body>, run: Run, r: Record, weather: Weather)
    requires Typed(o0) && AllRecordable(o0) && Accounted(o0, run.world) && r in run.world.records
    ensures
      var after := WakeOne(run, r, weather);
      && Accounted(o0, after.world) && after.world.records == run.world.records
      && Forgotten(o0, after.world) == Forgotten(o0, run.world)
      && (forall k :: k in o0 && Equivalent(run.world.objects[k], o0[k]) ==>
            Equivalent(after.world.objects[k], o0[k]))
      && (after.ok ==> run.ok)
      && (after.ok && weather.get(r.key) ==> Equivalent(after.world.objects[r.key], o0[r.key]))
  {
    RestoredIsBack(o0, run.world, r);
    var after := WakeOne(run, r, weather).world;
    assert Recorded(run.world.records, r.key);
    assert Unrecorded(o0, after) == Unrecorded(o0, run.world);
  }

  lemma {:induction false} WakeRecordsAccounted(
    o0: map<Key, Body>, run: Run, records: seq<Record>, operators: bool, weather: Weather)
    requires Typed(o0) && AllRecordable(o0) && Accounted(o0, run.world)
    requires forall r :: r in records ==> r in run.world.records
    ensures
      var after := WakeRecords(run, records, operators, weather);
      && Accounted(o0, after.world) && after.world.records == run.world.records
      && Forgotten(o0, after.world) == Forgotten(o0, run.world)
      && (forall k :: k in o0 && Equivalent(run.world.objects[k], o0[k]) ==>
            Equivalent(after.world.objects[k], o0[k]))
      && (after.ok ==> run.ok)
      && (after.ok && (forall k :: weather.get(k)) ==>
            forall r :: r in records && IsOperator(r.key.kind) == operators ==>
              Equivalent(after.world.objects[r.key], o0[r.key]))
    decreases |records|
  {
    if records == [] {
    } else {
      var next := if IsOperator(records[0].key.kind) == operators then WakeOne(run, records[0], weather) else run;
      WakeOneAccounted(o0, run, records[0], weather);
      WakeRecordsAccounted(o0, next, records[1..], operators, weather);
    }
  }

  /** A wake pass loses nothing; one that runs to its end with every Get answered brings back all that is recorded. */
  lemma WakePassAccounted(o0: map<Key, Body>, run: Run, weather: Weather)
    requires Typed(o0) && AllRecordable(o0) && Accounted(o0, run.world)
    ensures
      var after := WakePass(run, weather);
      && Accounted(o0, after.world) && Forgotten(o0, after.world) == Forgotten(o0, run.world)
      && (after.ok && (forall k :: weather.get(k)) ==>
            forall k :: k in o0 ==>
              (Equivalent(after.world.objects[k], o0[k]) <==> k !in Unrecorded(o0, after.world)))
  {
    var rs := run.world.records;
    WakeRecordsAccounted(o0, run.(ok := true), rs, false, weather);
    var mid := WakeRecords(run.(ok := true), rs, false, weather);
    WakeRecordsAccounted(o0, mid, rs, true, weather);
    var after := WakePass(run, weather);
    if after.ok && forall k :: weather.get(k) {
      forall k | k in o0
        ensures Equivalent(after.world.objects[k], o0[k]) <==> k !in Unrecorded(o0, after.world)
      {
        if Recorded(rs, k) {
          var i :| 0 <= i < |rs| && rs[i].key == k;
          assert rs[i] in rs;
        }
        SleptIsAway(o0, after.world, k);
      }
    }
  }

  lemma SleptIsAway(o0: map<Key, Body>, w: World, k: Key)
    requires Accounted(o0, w) && k in o0
    ensures Equivalent(w.objects[k], o0[k]) <==> !SleptBySchedule(o0, w, k)
  {
    if Awake(o0[k]) {
      SleptIsNotEquivalent(o0[k]);
    }
  }

  // ---------- what clearing forgets ----------

  /** The recorded objects that are still slept. */
  ghost function StillSlept(o0: map<Key, Body>, w: World): set<Key>
    requires w.objects.Keys == o0.Keys
  {
    set k | k in o0 && SleptBySchedule(o0, w, k) && Recorded(w.records, k)
  }

  /** Clearing forgets exactly the recorded objects that are still slept, whatever state the namespace is in: after a
      sleep pass that failed half-way before its window closed, or a wake whose Get failed and was skipped. Nothing is
      lost exactly when there are none. */
  lemma ClearingForgets(o0: map<Key, Body>, spec: Spec, c: Controller, now: int, env: Env)
    requires c.run.world.objects.Keys == o0.Keys && Clears(spec, c, now, env)
    ensures
      var before, after := c.run.world, Reconciled(spec, c, now, env).run.world;
      && after == before.(records := [])
      && Unrecorded(o0, after) == Unrecorded(o0, before) + StillSlept(o0, before)
      && Unrecorded(o0, before) !! StillSlept(o0, before)
      && (Unrecorded(o0, after) == Unrecorded(o0, before) <==>
            forall k :: k in o0 && Recorded(before.records, k) ==> !SleptBySchedule(o0, before, k))
  {
    var before, after := c.run.world, Reconciled(spec, c, now, env).run.world;
    assert after == before.(records := []);
    forall k | k in o0 && Recorded(before.records, k) && SleptBySchedule(o0, before, k)
      ensures k in Unrecorded(o0, after) && k !in Unrecorded(o0, before)
    {
    }
  }

  /** After the wake passes of a morning, clearing is harmless exactly when every record has been restored. */
  lemma ClearingAfterWake(o0: map<Key, Body>, lost: set<Key>, w: World)
    requires Typed(o0) && AllLeaveTrace(o0) && Waking(o0, lost, w)
    ensures StillSlept(o0, w) == {} <==> forall r :: r in w.records ==> Woken(o0, w, r)
  {
    forall r | r in w.records
      ensures r.key in StillSlept(o0, w) <==> !Woken(o0, w, r)
    {
      var i :| 0 <= i < |w.records| && w.records[i] == r;
      assert WakingRecord(o0, w, w.records[i]);
      WakeTakesEffect(r.key, o0[r.key]);
    }
    forall k | k in StillSlept(o0, w)
      ensures exists r :: r in w.records && !Woken(o0, w, r)
    {
      var i :| 0 <= i < |w.records| && w.records[i].key == k;
      assert w.records[i] in w.records;
    }
  }

  // ---------- nights and days ----------

  /** The still-slept objects a reconcile forgets by clearing. */
  ghost function Dropped(o0: map<Key, Body>, c: Controller, e: Event): set<Key> {
    if e.Reconcile? && Clears(e.spec, c, e.now, e.env) && c.run.world.objects.Keys == o0.Keys
    then StillSlept(o0, c.run.world) else {}
  }

  ghost function DroppedOver(o0: map<Key, Body>, c: Controller, events: seq<Event>): nat
    decreases |events|
  {
    if events == [] then 0 else |Dropped(o0, c, events[0])| + DroppedOver(o0, Next(c, events[0]), events[1..])
  }

  lemma ClearingAccounted(o0: map<Key, Body>, w: World)
    requires Accounted(o0, w)
    ensures
      var after := w.(records := []);
      Accounted(o0, after) && Forgotten(o0, after) == Forgotten(o0, w) + |StillSlept(o0, w)|
  {
    var after := w.(records := []);
    assert Unrecorded(o0, after) == Unrecorded(o0, w) + StillSlept(o0, w);
    assert Unrecorded(o0, w) !! StillSlept(o0, w);
  }

  lemma ReconcileAccounted(o0: map<Key, Body>, c: Controller, e: Event)
    requires Typed(o0) && AllRecordable(o0) && Accounted(o0, c.run.world) && e.Reconcile?
    ensures
      var after := Next(c, e).run.world;
      Accounted(o0, after) && Forgotten(o0, after) == Forgotten(o0, c.run.world) + |Dropped(o0, c, e)|
  {
    ReconciledWorld(e.spec, c, e.now, e.env);
    if Clears(e.spec, c, e.now, e.env) {
      ClearingAccounted(o0, c.run.world);
    } else {
      var sel, weather := e.spec.selector, e.env.weather;
      SleepItemsAccounted(o0, c.run.(ok := true), Worklist(sel, SLEEP_ORDER, weather), weather);
      WakePassAccounted(o0, c.run, weather);
    }
  }

  lemma {:induction false} HistoryAccounted(o0: map<Key, Body>, c: Controller, events: seq<Event>)
    requires Typed(o0) && AllRecordable(o0) && Accounted(o0, c.run.world)
    requires forall i :: 0 <= i < |events| ==> events[i].Reconcile?
    ensures
      var after := After(c, events).run.world;
      Accounted(o0, after) && Forgotten(o0, after) == Forgotten(o0, c.run.world) + DroppedOver(o0, c, events)
    decreases |events|
  {
    if events == [] {
    } else {
      ReconcileAccounted(o0, c, events[0]);
      HistoryAccounted(o0, Next(c, events[0]), events[1..]);
    }
  }

  lemma HistoryFromStart(o0: map<Key, Body>, events: seq<Event>)
    requires Typed(o0) && AllRecordable(o0)
    requires forall i :: 0 <= i < |events| ==> events[i].Reconcile?
    ensures
      var w := After(Begin(o0), events).run.world;
      Accounted(o0, w) && Forgotten(o0, w) == DroppedOver(o0, Begin(o0), events)
  {
    assert Unrecorded(o0, Start(o0).world) == {} by {
      forall k | k in o0 && Awake(o0[k])
        ensures !SleptBySchedule(o0, Start(o0).world, k)
      {
        SleepTakesEffect(o0[k]);
      }
    }
    HistoryAccounted(o0, Begin(o0), events);
  }

  /** Over any reconciles of any specs, with any failing calls, the slept objects nobody remembers number exactly the
      failed status writes and the still-slept objects dropped by clearing; every other object is back in its original
      form, or still slept with its true record. */
  lemma OriginalsAccounted(o0: map<Key, Body>, events: seq<Event>, w: World)
    requires Typed(o0) && AllRecordable(o0)
    requires forall i :: 0 <= i < |events| ==> events[i].Reconcile?
    requires w == After(Begin(o0), events).run.world
    ensures Accounted(o0, w)
    ensures |Unrecorded(o0, w)| == w.statusFailures + DroppedOver(o0, Begin(o0), events)
    ensures forall k :: k in o0 ==>
      (Equivalent(w.objects[k], o0[k]) <==> k !in Unrecorded(o0, w) && k !in StillSlept(o0, w))
  {
    HistoryFromStart(o0, events);
    forall k | k in o0
      ensures Equivalent(w.objects[k], o0[k]) <==> k !in Unrecorded(o0, w) && k !in StillSlept(o0, w)
    {
      SleptIsAway(o0, w, k);
    }
  }

  ghost predicate AllBack(o0: map<Key, Body>, w: World) {
    w.objects.Keys == o0.Keys && forall k :: k in o0 ==> Equivalent(w.objects[k], o0[k])
  }

  lemma BackUnlessForgotten(o0: map<Key, Body>, w: World)
    requires Accounted(o0, w) && w.records == []
    ensures AllBack(o0, w) <==> |Unrecorded(o0, w)| == 0
  {
    forall k | k in o0
      ensures Equivalent(w.objects[k], o0[k]) <==> k !in Unrecorded(o0, w)
    {
      SleptIsAway(o0, w, k);
    }
    assert AllBack(o0, w) <==> Unrecorded(o0, w) == {};
  }

  /** Nights and days: once an awake schedule has no record left, all originals are back, whatever happened in
      between, exactly if no status write failed and no clearing dropped a slept object. */
  lemma NightsAndDays(o0: map<Key, Body>, events: seq<Event>, w: World)
    requires Typed(o0) && AllRecordable(o0)
    requires forall i :: 0 <= i < |events| ==> events[i].Reconcile?
    requires w == After(Begin(o0), events).run.world && w.records == []
    ensures AllBack(o0, w) <==> w.statusFailures == 0 && DroppedOver(o0, Begin(o0), events) == 0
  {
    HistoryFromStart(o0, events);
    BackUnlessForgotten(o0, w);
  }
}
