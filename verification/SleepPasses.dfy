/**
 The sleep and wake passes as functions of the environment: what every List returned and which Gets, Updates and
 status writes succeeded. A run records the world after every write, so that statements about intermediate states,
 interrupted passes and retries are statements about its steps.
 */
module SleepPasses {
  import opened Common
  import opened Workloads

  /** The parts of a schedule's spec that select workloads; the controller reads types and labels only. */
  datatype Selector = Selector(types: seq<string>, matchesLabels: Key -> bool, matchesNames: string -> bool)

  datatype ListResult = Listed(names: seq<string>) | NoMatch | ListFailed

  /** The environment of one pass; a pass makes each of these calls at most once per object. */
  datatype Weather = Weather(list: Kind -> ListResult, get: Key -> bool, update: Key -> bool, status: Key -> bool)

  /** The namespace's workloads, the persisted records, and how many status writes have failed so far. */
  datatype World = World(objects: map<Key, Body>, records: seq<Record>, statusFailures: nat)

  /** The world after one write that reached the API server or (status) was refused by it. */
  datatype Step = WorkloadWrite(world: World) | StatusWrite(world: World)

  datatype Run = Run(world: World, ok: bool, steps: seq<Step>)

  /** The order in which a sleep pass handles the kinds: operators first. */
  const SLEEP_ORDER: seq<Kind> := OPERATORS + WORKLOADS
  const OPERATORS: seq<Kind> := [HelmRelease, Kustomization, MariaDB, MaxScale]
  const WORKLOADS: seq<Kind> :=
    [Deployment, StatefulSet, CronJob, Cluster, ThanosRuler, Alertmanager, Prometheus, Kibana, Elasticsearch]

  predicate ShouldManageType(sel: Selector, kind: Kind) {
    sel.types == [] || KindName(kind) in sel.types
  }

  /** The controller handles workloads of this key. */
  predicate Selected(sel: Selector, k: Key) {
    ShouldManageType(sel, k.kind) && sel.matchesLabels(k)
  }

  predicate Recorded(records: seq<Record>, key: Key) {
    exists i :: 0 <= i < |records| && records[i].key == key
  }

  /** Deployment, StatefulSet and CronJob are built in: a missing kind is an error for them. */
  predicate BuiltIn(kind: Kind) {
    kind == Deployment || kind == StatefulSet || kind == CronJob
  }

  // ---------- the sleep pass ----------

  /** One object of a sleep pass, or a List that ends the pass. */
  datatype Item = Visit(key: Key) | Abort

  function VisitAll(kind: Kind, names: seq<string>): seq<Item> {
    seq(|names|, i requires 0 <= i < |names| => Visit(Key(kind, names[i])))
  }

  function KindItems(sel: Selector, kind: Kind, weather: Weather): seq<Item> {
    if !ShouldManageType(sel, kind) then [] else
    match weather.list(kind)
    case Listed(names) => VisitAll(kind, names)
    case NoMatch => if BuiltIn(kind) then [Abort] else []
    case ListFailed => [Abort]
  }

  function Worklist(sel: Selector, kinds: seq<Kind>, weather: Weather): seq<Item> {
    if kinds == [] then [] else KindItems(sel, kinds[0], weather) + Worklist(sel, kinds[1..], weather)
  }

  /** The workload write: the object takes its slept form. */
  function Slept(w: World, key: Key): World
    requires key in w.objects
  {
    w.(objects := w.objects[key := PutToSleep(w.objects[key])])
  }

  /** The status write: the record of the original is persisted. */
  function Remember(w: World, r: Record): World {
    w.(records := w.records + [r])
  }

  function Forget(w: World): World {
    w.(statusFailures := w.statusFailures + 1)
  }

  /** Puts one object to sleep and persists its record; the first failure ends the pass. */
  function SleepOne(run: Run, key: Key, weather: Weather): Run {
    var w := run.world;
    if !run.ok || key !in w.objects || Recorded(w.records, key) || !Awake(w.objects[key]) then run
    else if !weather.update(key) then run.(ok := false)
    else
      var slept := Slept(w, key);
      var steps := run.steps + [WorkloadWrite(slept)];
      if weather.status(key) then
        var recorded := Remember(slept, RecordOf(key, w.objects[key]));
        Run(recorded, true, steps + [StatusWrite(recorded)])
      else
        Run(Forget(slept), false, steps + [StatusWrite(Forget(slept))])
  }

  function SleepItem(run: Run, item: Item, weather: Weather): Run {
    match item
    case Visit(key) => SleepOne(run, key, weather)
    case Abort => run.(ok := false)
  }

  function SleepItems(run: Run, items: seq<Item>, weather: Weather): Run
    decreases |items|
  {
    if items == [] then run else SleepItems(SleepItem(run, items[0], weather), items[1..], weather)
  }

  function SleepPass(sel: Selector, run: Run, weather: Weather): Run {
    SleepItems(run.(ok := true), Worklist(sel, SLEEP_ORDER, weather), weather)
  }

  /** Any number of sleep passes, each rerun from the persisted records of the one before. */
  function AllSleepPasses(sel: Selector, run: Run, passes: seq<Weather>): Run
    decreases |passes|
  {
    if passes == [] then run else AllSleepPasses(sel, SleepPass(sel, run, passes[0]), passes[1..])
  }

  // ---------- the wake pass ----------

  /** Restores one record; a failed Get is skipped, a failed Update ends the pass. */
  function WakeOne(run: Run, r: Record, weather: Weather): Run {
    var w := run.world;
    if !run.ok || r.key !in w.objects || !weather.get(r.key) || !WakeWrites(r, w.objects[r.key]) then run
    else if !weather.update(r.key) then run.(ok := false)
    else
      var woken := w.(objects := w.objects[r.key := Restored(r, w.objects[r.key])]);
      Run(woken, true, run.steps + [WorkloadWrite(woken)])
  }

  function WakeRecords(run: Run, records: seq<Record>, operators: bool, weather: Weather): Run
    decreases |records|
  {
    if records == [] then run
    else
      var next := if IsOperator(records[0].key.kind) == operators then WakeOne(run, records[0], weather) else run;
      WakeRecords(next, records[1..], operators, weather)
  }

  /** Two passes over the records: workloads first, then the operators. */
  function WakePass(run: Run, weather: Weather): Run {
    var workloads := WakeRecords(run.(ok := true), run.world.records, false, weather);
    WakeRecords(workloads, run.world.records, true, weather)
  }

  function AllWakePasses(run: Run, passes: seq<Weather>): Run
    decreases |passes|
  {
    if passes == [] then run else AllWakePasses(WakePass(run, passes[0]), passes[1..])
  }

  // ---------- how passes compose ----------

  /** What List returns is what is there: the selected objects of an installed kind. */
  ghost predicate Faithful(sel: Selector, objects: map<Key, Body>, weather: Weather) {
    forall kind ::
      match weather.list(kind)
      case Listed(names) =>
        forall name :: name in names <==> Key(kind, name) in objects && sel.matchesLabels(Key(kind, name))
      case NoMatch => forall k :: k in objects ==> k.kind != kind
      case ListFailed => true
  }

  lemma {:induction false} SleepItemsAfterFailure(run: Run, items: seq<Item>, weather: Weather)
    requires !run.ok
    ensures SleepItems(run, items, weather) == run
    decreases |items|
  {
    if items == [] {
    } else {
      SleepItemsAfterFailure(run, items[1..], weather);
    }
  }

  lemma {:induction false} SleepItemsConcat(run: Run, a: seq<Item>, b: seq<Item>, weather: Weather)
    ensures SleepItems(run, a + b, weather) == SleepItems(SleepItems(run, a, weather), b, weather)
    decreases |a|
  {
    if a == [] {
      assert a + b == b;
    } else {
      assert (a + b)[1..] == a[1..] + b;
      SleepItemsConcat(SleepItem(run, a[0], weather), a[1..], b, weather);
    }
  }

  lemma {:induction false} WorklistConcat(sel: Selector, a: seq<Kind>, b: seq<Kind>, weather: Weather)
    ensures Worklist(sel, a + b, weather) == Worklist(sel, a, weather) + Worklist(sel, b, weather)
    decreases |a|
  {
    if a == [] {
      assert a + b == b;
    } else {
      assert (a + b)[1..] == a[1..] + b;
      WorklistConcat(sel, a[1..], b, weather);
    }
  }

  /** Unless some List fails, every selected object of a managed kind is on the list. */
  lemma {:induction false} WorklistComplete(
    sel: Selector, objects: map<Key, Body>, kinds: seq<Kind>, weather: Weather, k: Key)
    requires Faithful(sel, objects, weather) && k in objects && k.kind in kinds
    requires Selected(sel, k)
    ensures Visit(k) in Worklist(sel, kinds, weather) || Abort in Worklist(sel, kinds, weather)
    decreases |kinds|
  {
    if k.kind == kinds[0] {
      var items := KindItems(sel, k.kind, weather);
      match weather.list(k.kind) {
        case Listed(names) =>
          assert k.name in names;
          var i :| 0 <= i < |names| && names[i] == k.name;
          assert items[i] == Visit(k);
        case NoMatch =>
          assert false;
        case ListFailed =>
          assert items[0] == Abort;
      }
    } else {
      WorklistComplete(sel, objects, kinds[1..], weather, k);
    }
  }

  lemma {:induction false} WakeAfterFailure(run: Run, records: seq<Record>, operators: bool, weather: Weather)
    requires !run.ok
    ensures WakeRecords(run, records, operators, weather) == run
    decreases |records|
  {
    if records == [] {
    } else {
      WakeAfterFailure(run, records[1..], operators, weather);
    }
  }

  lemma {:induction false} WorklistOfOne(sel: Selector, kinds: seq<Kind>, weather: Weather, kind: Kind)
    requires Distinct(kinds)
    requires forall other :: other in kinds && other != kind ==> KindItems(sel, other, weather) == []
    ensures Worklist(sel, kinds, weather) == if kind in kinds then KindItems(sel, kind, weather) else []
    decreases |kinds|
  {
    if kinds == [] {
    } else {
      WorklistOfOne(sel, kinds[1..], weather, kind);
    }
  }

  lemma KindsSplit(kind: Kind)
    ensures kind in OPERATORS <==> IsOperator(kind)
    ensures kind in WORKLOADS <==> !IsOperator(kind)
  {
    assert OPERATORS[0] == HelmRelease && OPERATORS[1] == Kustomization && OPERATORS[2] == MariaDB;
    assert OPERATORS[3] == MaxScale;
    assert WORKLOADS[0] == Deployment && WORKLOADS[1] == StatefulSet && WORKLOADS[2] == CronJob;
    assert WORKLOADS[3] == Cluster && WORKLOADS[4] == ThanosRuler && WORKLOADS[5] == Alertmanager;
    assert WORKLOADS[6] == Prometheus && WORKLOADS[7] == Kibana && WORKLOADS[8] == Elasticsearch;
  }

  lemma OrdersDistinct()
    ensures Distinct(OPERATORS) && Distinct(WORKLOADS)
  {
  }

  // ---------- crash consistency ----------

  ghost predicate Typed(objects: map<Key, Body>) {
    forall k :: k in objects ==> HasForm(k.kind, objects[k])
  }

  /** Restoring any awake object shows; only duplicate nodeSet names can prevent that. */
  ghost predicate AllLeaveTrace(o0: map<Key, Body>) {
    forall k :: k in o0 && Awake(o0[k]) ==> LeavesTrace(o0[k])
  }

  /** The schedule has put k to sleep: its original o0[k] was awake and its present form is the slept one. */
  ghost predicate SleptBySchedule(o0: map<Key, Body>, w: World, k: Key)
    requires k in o0 && k in w.objects
  {
    Awake(o0[k]) && w.objects[k] == PutToSleep(o0[k])
  }

  /** Slept objects without a record: nothing remembers their original. */
  ghost function Unrecorded(o0: map<Key, Body>, w: World): set<Key>
    requires w.objects.Keys == o0.Keys
  {
    set k | k in o0 && SleptBySchedule(o0, w, k) && !Recorded(w.records, k)
  }

  ghost predicate UniqueKeys(records: seq<Record>) {
    forall i, j :: 0 <= i < j < |records| ==> records[i].key != records[j].key
  }

  ghost predicate TrueRecord(o0: map<Key, Body>, r: Record) {
    r.key in o0 && Awake(o0[r.key]) && r == RecordOf(r.key, o0[r.key])
  }

  /** Every record is the true original of a slept object, and every other object is untouched or slept. */
  ghost predicate Tracks(o0: map<Key, Body>, w: World) {
    && w.objects.Keys == o0.Keys
    && UniqueKeys(w.records)
    && (forall i :: 0 <= i < |w.records| ==>
          TrueRecord(o0, w.records[i]) && SleptBySchedule(o0, w, w.records[i].key))
    && (forall k :: k in o0 ==> w.objects[k] == o0[k] || SleptBySchedule(o0, w, k))
  }

  ghost predicate Consistent(o0: map<Key, Body>, w: World) {
    Tracks(o0, w) && |Unrecorded(o0, w)| == w.statusFailures
  }

  /** Between a workload write and its status write exactly one more object lacks its record. */
  ghost predicate StepConsistent(o0: map<Key, Body>, s: Step) {
    Tracks(o0, s.world) && |Unrecorded(o0, s.world)| == s.world.statusFailures + if s.WorkloadWrite? then 1 else 0
  }

  ghost predicate RunConsistent(o0: map<Key, Body>, run: Run) {
    Consistent(o0, run.world) && forall s :: s in run.steps ==> StepConsistent(o0, s)
  }

  lemma SleptTracks(o0: map<Key, Body>, w: World, key: Key)
    requires Tracks(o0, w) && key in w.objects && !Recorded(w.records, key) && Awake(w.objects[key])
    ensures w.objects[key] == o0[key]
    ensures Tracks(o0, Slept(w, key)) && Unrecorded(o0, Slept(w, key)) == Unrecorded(o0, w) + {key}
    ensures key !in Unrecorded(o0, w)
  {
    SleepTakesEffect(o0[key]);
    var slept := Slept(w, key);
    forall i | 0 <= i < |w.records|
      ensures SleptBySchedule(o0, slept, w.records[i].key)
    {
      assert w.records[i].key != key;
    }
  }

  lemma RecordedAfterAppend(records: seq<Record>, r: Record, k: Key)
    ensures Recorded(records + [r], k) <==> Recorded(records, k) || k == r.key
  {
    assert (records + [r])[|records|] == r;
    if Recorded(records, k) {
      var i :| 0 <= i < |records| && records[i].key == k;
      assert (records + [r])[i].key == k;
    }
  }

  lemma RememberTracks(o0: map<Key, Body>, w: World, r: Record)
    requires Tracks(o0, w) && TrueRecord(o0, r) && SleptBySchedule(o0, w, r.key) && !Recorded(w.records, r.key)
    ensures Tracks(o0, Remember(w, r)) && Unrecorded(o0, Remember(w, r)) == Unrecorded(o0, w) - {r.key}
  {
    forall k
      ensures Recorded(w.records + [r], k) <==> Recorded(w.records, k) || k == r.key
    {
      RecordedAfterAppend(w.records, r, k);
    }
  }

  /** The two steps of putting one object to sleep keep the count. */
  lemma SleepStepsConsistent(o0: map<Key, Body>, w: World, key: Key)
    requires Consistent(o0, w) && key in w.objects && !Recorded(w.records, key) && Awake(w.objects[key])
    ensures StepConsistent(o0, WorkloadWrite(Slept(w, key)))
    ensures Consistent(o0, Remember(Slept(w, key), RecordOf(key, w.objects[key])))
    ensures Consistent(o0, Forget(Slept(w, key)))
  {
    SleptTracks(o0, w, key);
    var slept := Slept(w, key);
    RememberTracks(o0, slept, RecordOf(key, w.objects[key]));
    assert Unrecorded(o0, w) + {key} - {key} == Unrecorded(o0, w);
    assert Unrecorded(o0, Forget(slept)) == Unrecorded(o0, slept);
  }

  lemma TwoMoreSteps(o0: map<Key, Body>, run: Run, after: Run, a: Step, b: Step)
    requires RunConsistent(o0, run) && after.steps == run.steps + [a, b]
    requires StepConsistent(o0, a) && StepConsistent(o0, b) && Consistent(o0, after.world)
    ensures RunConsistent(o0, after)
  {
  }

  lemma SleepOneConsistent(o0: map<Key, Body>, run: Run, key: Key, weather: Weather)
    requires RunConsistent(o0, run)
    ensures RunConsistent(o0, SleepOne(run, key, weather))
  {
    var w := run.world;
    if run.ok && key in w.objects && !Recorded(w.records, key) && Awake(w.objects[key]) && weather.update(key) {
      var after := SleepOne(run, key, weather);
      assert after.steps == run.steps + [WorkloadWrite(Slept(w, key)), StatusWrite(after.world)];
      SleepStepsConsistent(o0, w, key);
      TwoMoreSteps(o0, run, after, WorkloadWrite(Slept(w, key)), StatusWrite(after.world));
    }
  }

  lemma {:induction false} SleepItemsConsistent(o0: map<Key, Body>, run: Run, items: seq<Item>, weather: Weather)
    requires RunConsistent(o0, run)
    ensures RunConsistent(o0, SleepItems(run, items, weather))
    decreases |items|
  {
    if items == [] {
    } else {
      if items[0].Visit? {
        SleepOneConsistent(o0, run, items[0].key, weather);
      }
      SleepItemsConsistent(o0, SleepItem(run, items[0], weather), items[1..], weather);
    }
  }

  lemma {:induction false} SleepPassesConsistent(o0: map<Key, Body>, sel: Selector, run: Run, passes: seq<Weather>)
    requires RunConsistent(o0, run)
    ensures RunConsistent(o0, AllSleepPasses(sel, run, passes))
    decreases |passes|
  {
    if passes == [] {
    } else {
      SleepItemsConsistent(o0, run.(ok := true), Worklist(sel, SLEEP_ORDER, passes[0]), passes[0]);
      SleepPassesConsistent(o0, sel, SleepPass(sel, run, passes[0]), passes[1..]);
    }
  }

  function Start(o0: map<Key, Body>): Run {
    Run(World(o0, [], 0), true, [])
  }

  /** Crash consistency: after every step of every run of interrupted and retried sleep passes, each persisted
      record is the true original of a slept object, and the slept objects without a record are exactly as many as
      the failed status writes (one more while a status write is outstanding). */
  lemma CrashConsistency(o0: map<Key, Body>, sel: Selector, passes: seq<Weather>)
    ensures RunConsistent(o0, AllSleepPasses(sel, Start(o0), passes))
  {
    assert Unrecorded(o0, Start(o0).world) == {};
    SleepPassesConsistent(o0, sel, Start(o0), passes);
  }

  // ---------- status failures are counted ----------

  ghost predicate StatusWritesSucceed(passes: seq<Weather>) {
    forall i, k :: 0 <= i < |passes| ==> passes[i].status(k)
  }

  lemma {:induction false} NoStatusFailures(run: Run, items: seq<Item>, weather: Weather)
    requires forall k :: weather.status(k)
    ensures SleepItems(run, items, weather).world.statusFailures == run.world.statusFailures
    decreases |items|
  {
    if items == [] {
    } else {
      NoStatusFailures(SleepItem(run, items[0], weather), items[1..], weather);
    }
  }

  lemma {:induction false} NoStatusFailuresInPasses(sel: Selector, run: Run, passes: seq<Weather>)
    requires StatusWritesSucceed(passes)
    ensures AllSleepPasses(sel, run, passes).world.statusFailures == run.world.statusFailures
    decreases |passes|
  {
    if passes == [] {
    } else {
      NoStatusFailures(run.(ok := true), Worklist(sel, SLEEP_ORDER, passes[0]), passes[0]);
      NoStatusFailuresInPasses(sel, SleepPass(sel, run, passes[0]), passes[1..]);
    }
  }

  // ---------- waking ----------

  /** A recorded object on its way back: still slept, or restored. */
  ghost predicate WakingRecord(o0: map<Key, Body>, w: World, r: Record)
    requires w.objects.Keys == o0.Keys
  {
    && TrueRecord(o0, r)
    && (w.objects[r.key] == PutToSleep(o0[r.key]) || w.objects[r.key] == Restored(r, PutToSleep(o0[r.key])))
  }

  /** While waking, unrecorded objects keep the form the sleep passes left them in. */
  ghost predicate Waking(o0: map<Key, Body>, lost: set<Key>, w: World) {
    && w.objects.Keys == o0.Keys
    && lost <= o0.Keys
    && UniqueKeys(w.records)
    && (forall i :: 0 <= i < |w.records| ==> WakingRecord(o0, w, w.records[i]))
    && (forall k :: k in o0 && !Recorded(w.records, k) ==>
          if k in lost then SleptBySchedule(o0, w, k) else w.objects[k] == o0[k])
    && (forall k :: k in lost ==> !Recorded(w.records, k))
  }

  lemma TracksIsWaking(o0: map<Key, Body>, w: World)
    requires Tracks(o0, w)
    ensures Waking(o0, Unrecorded(o0, w), w)
  {
  }

  lemma UnrecordedWhileWaking(o0: map<Key, Body>, lost: set<Key>, w: World)
    requires Waking(o0, lost, w)
    ensures Unrecorded(o0, w) == lost
  {
    forall k | k in o0 && !Recorded(w.records, k) && k !in lost
      ensures !SleptBySchedule(o0, w, k)
    {
      if Awake(o0[k]) { SleepTakesEffect(o0[k]); }
    }
  }

  /** The record's original has been written back. */
  ghost predicate Woken(o0: map<Key, Body>, w: World, r: Record)
    requires r.key in o0 && r.key in w.objects
  {
    w.objects[r.key] == Restored(r, PutToSleep(o0[r.key]))
  }

  lemma WakeOneWaking(o0: map<Key, Body>, lost: set<Key>, run: Run, r: Record, weather: Weather)
    requires Waking(o0, lost, run.world) && r in run.world.records
    ensures
      var after := WakeOne(run, r, weather);
      && Waking(o0, lost, after.world)
      && after.world.records == run.world.records && after.world.statusFailures == run.world.statusFailures
      && (forall k :: k in o0 && k != r.key ==> after.world.objects[k] == run.world.objects[k])
      && (Woken(o0, run.world, r) ==> Woken(o0, after.world, r))
      && (after.ok && weather.get(r.key) ==> run.ok && Woken(o0, after.world, r))
      && (run.ok && weather.update(r.key) ==> after.ok)
  {
    RestoredTwice(r, PutToSleep(o0[r.key]));
    var w, after := run.world, WakeOne(run, r, weather).world;
    assert after.objects.Keys == o0.Keys;
    var j :| 0 <= j < |w.records| && w.records[j] == r;
    forall i | 0 <= i < |w.records|
      ensures WakingRecord(o0, after, w.records[i])
    {
      assert WakingRecord(o0, w, w.records[i]);
      assert i != j ==> w.records[i].key != r.key;
    }
  }

  lemma {:induction false} WakeRecordsWaking(
    o0: map<Key, Body>, lost: set<Key>, run: Run, records: seq<Record>, operators: bool, weather: Weather)
    requires Waking(o0, lost, run.world) && forall r :: r in records ==> r in run.world.records
    ensures
      var after := WakeRecords(run, records, operators, weather);
      && Waking(o0, lost, after.world)
      && after.world.records == run.world.records && after.world.statusFailures == run.world.statusFailures
      && (forall k :: k in o0 && IsOperator(k.kind) != operators ==>
            after.world.objects[k] == run.world.objects[k])
      && (forall r :: r in run.world.records && Woken(o0, run.world, r) ==> Woken(o0, after.world, r))
      && (after.ok ==> run.ok)
      && ((forall k :: weather.get(k)) && after.ok ==>
            forall r :: r in records && IsOperator(r.key.kind) == operators ==> Woken(o0, after.world, r))
      && ((forall k :: weather.update(k)) && run.ok ==> after.ok)
    decreases |records|
  {
    if records == [] {
    } else {
      var r := records[0];
      var next := if IsOperator(r.key.kind) == operators then WakeOne(run, r, weather) else run;
      if IsOperator(r.key.kind) == operators {
        WakeOneWaking(o0, lost, run, r, weather);
      }
      WakeRecordsWaking(o0, lost, next, records[1..], operators, weather);
      forall q | q in run.world.records && Woken(o0, run.world, q)
        ensures Woken(o0, next.world, q)
      {
        if q.key == r.key { SameKeySameRecord(run.world.records, q, r); }
      }
    }
  }

  lemma SameKeySameRecord(records: seq<Record>, a: Record, b: Record)
    requires UniqueKeys(records) && a in records && b in records && a.key == b.key
    ensures a == b
  {
  }

  /** One wake pass keeps the tracking facts; with every Get answered, an unbroken pass has restored every record. */
  lemma WakePassWaking(o0: map<Key, Body>, lost: set<Key>, run: Run, weather: Weather)
    requires Waking(o0, lost, run.world)
    ensures
      var after := WakePass(run, weather);
      && Waking(o0, lost, after.world)
      && after.world.records == run.world.records && after.world.statusFailures == run.world.statusFailures
      && ((forall k :: weather.get(k)) && after.ok ==>
            forall r :: r in run.world.records ==> Woken(o0, after.world, r))
      && ((forall k :: weather.update(k)) ==> after.ok)
  {
    var rs := run.world.records;
    WakeRecordsWaking(o0, lost, run.(ok := true), rs, false, weather);
    var mid := WakeRecords(run.(ok := true), rs, false, weather);
    WakeRecordsWaking(o0, lost, mid, rs, true, weather);
  }

  lemma {:induction false} WakePassesWaking(o0: map<Key, Body>, lost: set<Key>, run: Run, passes: seq<Weather>)
    requires Waking(o0, lost, run.world)
    ensures
      var after := AllWakePasses(run, passes);
      && Waking(o0, lost, after.world)
      && after.world.records == run.world.records && after.world.statusFailures == run.world.statusFailures
    decreases |passes|
  {
    if passes == [] {
    } else {
      WakePassWaking(o0, lost, run, passes[0]);
      WakePassesWaking(o0, lost, WakePass(run, passes[0]), passes[1..]);
    }
  }

  // ---------- round trip ----------

  /** A schedule's history: interrupted sleep passes, interrupted wake passes, then one last wake pass. */
  function NightAndMorning(
    o0: map<Key, Body>, sel: Selector, nights: seq<Weather>, mornings: seq<Weather>, last: Weather): Run
  {
    WakePass(AllWakePasses(AllSleepPasses(sel, Start(o0), nights), mornings), last)
  }

  /** After a last wake pass that ran to its end an object is back in its original form exactly when its record was not
      lost to a failed status write and, if it was put to sleep, the record can express the original. */
  lemma RoundTripExactly(
    o0: map<Key, Body>, sel: Selector, nights: seq<Weather>, mornings: seq<Weather>, last: Weather, k: Key)
    requires Typed(o0) && k in o0
    requires NightAndMorning(o0, sel, nights, mornings, last).ok && forall key :: last.get(key)
    ensures
      var after := NightAndMorning(o0, sel, nights, mornings, last);
      && after.world.objects.Keys == o0.Keys
      && |Unrecorded(o0, after.world)| == after.world.statusFailures
      && (Equivalent(after.world.objects[k], o0[k]) <==>
            k !in Unrecorded(o0, after.world) && (Recorded(after.world.records, k) ==> Recordable(o0[k])))
  {
    var slept := AllSleepPasses(sel, Start(o0), nights);
    CrashConsistency(o0, sel, nights);
    var lost := Unrecorded(o0, slept.world);
    TracksIsWaking(o0, slept.world);
    WakePassesWaking(o0, lost, slept, mornings);
    var before := AllWakePasses(slept, mornings);
    WakePassWaking(o0, lost, before, last);
    var w := WakePass(before, last).world;
    UnrecordedWhileWaking(o0, lost, w);
    if Recorded(w.records, k) {
      var i :| 0 <= i < |w.records| && w.records[i].key == k;
      assert WakingRecord(o0, w, w.records[i]) && Woken(o0, w, w.records[i]);
      RoundTrip(k, o0[k]);
    } else if k in lost {
      SleptIsNotEquivalent(o0[k]);
    }
  }

  /** Round trip under failure: when every status write of the sleep passes succeeded and the originals fit the
      records, a last wake pass that runs to its end leaves every object of every kind as it was before the first
      sleep pass. */
  lemma RoundTripUnderFailure(
    o0: map<Key, Body>, sel: Selector, nights: seq<Weather>, mornings: seq<Weather>, last: Weather)
    requires Typed(o0) && forall k :: k in o0 && Awake(o0[k]) ==> Recordable(o0[k])
    requires StatusWritesSucceed(nights)
    requires NightAndMorning(o0, sel, nights, mornings, last).ok && forall key :: last.get(key)
    ensures
      var after := NightAndMorning(o0, sel, nights, mornings, last).world;
      after.objects.Keys == o0.Keys && forall k :: k in o0 ==> Equivalent(after.objects[k], o0[k])
  {
    var slept := AllSleepPasses(sel, Start(o0), nights);
    CrashConsistency(o0, sel, nights);
    NoStatusFailuresInPasses(sel, Start(o0), nights);
    var lost := Unrecorded(o0, slept.world);
    assert lost == {};
    TracksIsWaking(o0, slept.world);
    WakePassesWaking(o0, lost, slept, mornings);
    var before := AllWakePasses(slept, mornings);
    WakePassWaking(o0, lost, before, last);
    var w := WakePass(before, last).world;
    UnrecordedWhileWaking(o0, lost, w);
    forall k | k in o0
      ensures Equivalent(w.objects[k], o0[k])
    {
      RoundTripExactly(o0, sel, nights, mornings, last, k);
      if Recorded(w.records, k) {
        var i :| 0 <= i < |w.records| && w.records[i].key == k;
        assert WakingRecord(o0, w, w.records[i]);
      }
    }
  }

  // ---------- what a wake pass leaves alone ----------

  lemma {:induction false} LeftAloneByRecords(
    run: Run, records: seq<Record>, operators: bool, weather: Weather, k: Key)
    requires k in run.world.objects && (!weather.get(k) || !Recorded(records, k))
    ensures
      var after := WakeRecords(run, records, operators, weather).world.objects;
      k in after && after[k] == run.world.objects[k]
    decreases |records|
  {
    if records == [] {
    } else {
      assert !Recorded(records, k) ==> records[0].key != k && !Recorded(records[1..], k) by {
        if Recorded(records[1..], k) {
          var i :| 0 <= i < |records[1..]| && records[1..][i].key == k;
          assert records[i + 1].key == k;
        }
      }
      var next := if IsOperator(records[0].key.kind) == operators then WakeOne(run, records[0], weather) else run;
      LeftAloneByRecords(next, records[1..], operators, weather, k);
    }
  }

  /** A wake pass leaves a workload alone that is not recorded or whose Get fails, and goes on. */
  lemma WakeLeavesAlone(run: Run, weather: Weather, k: Key)
    requires k in run.world.objects && (!weather.get(k) || !Recorded(run.world.records, k))
    ensures
      var after := WakePass(run, weather).world.objects;
      k in after && after[k] == run.world.objects[k]
  {
    var rs := run.world.records;
    LeftAloneByRecords(run.(ok := true), rs, false, weather, k);
    LeftAloneByRecords(WakeRecords(run.(ok := true), rs, false, weather), rs, true, weather, k);
  }
}
