/**
 The sleep schedule reconciler over a mutable store: its loops overwrite objects in place and persist one record at a
 time. Every method is proved to produce exactly the run of SleepPasses, so the theorems there speak about this code.
 */
module SleepController {
  import opened Common
  import opened SleepWindows
  import opened RequeueTiming
  import opened Workloads
  import opened SleepPasses

  /** Captures the counts of a cluster's nodeSets and zeroes them, one nodeSet at a time. */
  method SleepNodeSets(sets: seq<NodeSet>) returns (counts: map<string, int>, positive: bool, zeroed: seq<NodeSet>)
    ensures counts == Counts(sets) && positive == AnyPositive(sets) && zeroed == Zeroed(sets)
  {
    counts, positive := map[], false;
    for i := 0 to |sets|
      invariant counts == Counts(sets[..i])
      invariant positive <==> exists j :: 0 <= j < i && NodeSetCount(sets[j]) > 0
    {
      assert sets[..i + 1][..i] == sets[..i];
      var count := ToInt32(sets[i].count.GetOr(0));
      counts := counts[sets[i].name := count];
      if count > 0 {
        positive := true;
      }
    }
    assert sets[..|sets|] == sets;
    zeroed := sets;
    for i := 0 to |sets|
      invariant |zeroed| == |sets|
      invariant forall j :: 0 <= j < |sets| ==> zeroed[j] == if j < i then sets[j].(count := Some(0)) else sets[j]
    {
      zeroed := zeroed[i := zeroed[i].(count := Some(0))];
    }
  }

  /** Writes recorded counts back by name. */
  method RestoreNodeSets(sets: seq<NodeSet>, counts: map<string, int>) returns (restored: seq<NodeSet>)
    ensures restored == WithCounts(sets, counts)
  {
    restored := sets;
    for i := 0 to |sets|
      invariant |restored| == |sets|
      invariant forall j :: 0 <= j < |sets| ==>
        restored[j] ==
        if j < i && sets[j].name in counts then sets[j].(count := Some(counts[sets[j].name])) else sets[j]
    {
      if restored[i].name in counts {
        restored := restored[i := restored[i].(count := Some(counts[restored[i].name]))];
      }
    }
  }

  /** What a sleep pass makes of one object: the record to keep and the form to write, or nothing to do. */
  method PlanSleep(key: Key, body: Body) returns (touch: bool, slept: Body, r: Record)
    ensures touch == Awake(body)
    ensures touch ==> slept == PutToSleep(body) && r == RecordOf(key, body)
  {
    touch, slept, r := false, body, Record(key, None, None, None, None);
    match body {
      case ReplicaSpec(replicas) =>
        if replicas.Some? && replicas.value > 0 {
          touch, slept, r := true, ReplicaSpec(Some(0)), r.(replicas := Some(replicas.value));
        }
      case JobSuspend(suspend) =>
        if suspend.None? || !suspend.value {
          var original := false;
          if suspend.Some? {
            original := suspend.value;
          }
          touch, slept, r := true, JobSuspend(Some(true)), r.(suspend := Some(original));
        }
      case Annotated(annotations) =>
        var current := "";
        if HIBERNATION in annotations {
          current := annotations[HIBERNATION];
        }
        if current != "on" {
          touch, slept := true, Annotated(annotations[HIBERNATION := "on"]);
          r := r.(hibernation := Some(current));
        }
      case CrdSuspend(suspended) =>
        var current := false;
        if suspended.Some? {
          current := suspended.value;
        }
        if !current {
          touch, slept, r := true, CrdSuspend(Some(true)), r.(suspend := Some(current));
        }
      case CrdCount(count) =>
        if count.Some? {
          var current := ToInt32(count.value);
          if current > 0 {
            touch, slept, r := true, CrdCount(Some(0)), r.(replicas := Some(current));
          }
        }
      case NodeSets(sets) =>
        var counts, positive, zeroed := SleepNodeSets(sets);
        if positive {
          touch, slept, r := true, NodeSets(zeroed), r.(nodeSetCounts := Some(counts));
        }
    }
  }

  /** What a wake pass writes over one object, if it writes at all. */
  method PlanWake(r: Record, body: Body) returns (touch: bool, woken: Body)
    ensures touch == WakeWrites(r, body) && woken == Restored(r, body)
  {
    touch, woken := false, body;
    match body {
      case ReplicaSpec(_) =>
        if r.replicas.Some? {
          touch, woken := true, ReplicaSpec(r.replicas);
        }
      case JobSuspend(_) =>
        if r.suspend.Some? {
          touch, woken := true, JobSuspend(r.suspend);
        }
      case Annotated(annotations) =>
        if r.hibernation.Some? && r.hibernation.value != "" {
          annotations := annotations[HIBERNATION := r.hibernation.value];
        } else {
          annotations := annotations - {HIBERNATION};
        }
        touch, woken := true, Annotated(annotations);
      case CrdSuspend(_) =>
        touch, woken := true, CrdSuspend(r.suspend);
      case CrdCount(_) =>
        if r.replicas.Some? {
          touch, woken := true, CrdCount(r.replicas);
        }
      case NodeSets(sets) =>
        if r.nodeSetCounts.Some? {
          var restored := RestoreNodeSets(sets, r.nodeSetCounts.value);
          touch, woken := true, NodeSets(restored);
        }
    }
  }

  /** The record a lookup by kind and name finds: the last one of that key. */
  function RecordFor(records: seq<Record>, key: Key): Option<Record> {
    if records == [] then None
    else if records[|records| - 1].key == key then Some(records[|records| - 1])
    else RecordFor(records[..|records| - 1], key)
  }

  lemma {:induction false} RecordForUnique(records: seq<Record>, r: Record)
    requires UniqueKeys(records) && r in records
    ensures RecordFor(records, r.key) == Some(r)
  {
    var last := |records| - 1;
    if records[last].key == r.key {
      SameKeySameRecord(records, r, records[last]);
    } else {
      RecordForUnique(records[..last], r);
    }
  }

  lemma {:induction false} RecordForIsThere(records: seq<Record>, key: Key)
    ensures
      match RecordFor(records, key)
      case Some(r) => r in records && r.key == key
      case None => !Recorded(records, key)
  {
    if records == [] {
    } else if records[|records| - 1].key != key {
      RecordForIsThere(records[..|records| - 1], key);
    }
  }

  /** The desync test of the verification window for one recorded object. */
  predicate Desynced(r: Record, body: Body) {
    match body
    case ReplicaSpec(replicas) => replicas == Some(0) && r.replicas.Some? && r.replicas.value > 0
    case JobSuspend(suspend) => suspend == Some(true) && r.suspend == Some(false)
    case Annotated(annotations) => Lookup(annotations, HIBERNATION) == "on"
    case CrdSuspend(suspended) => suspended == Some(true) && r.suspend == Some(false)
    case CrdCount(count) => count.GetOr(0) == 0 && r.replicas.Some? && r.replicas.value > 0
    case NodeSets(sets) => r.nodeSetCounts.Some? && exists i :: 0 <= i < |sets| && sets[i].count.GetOr(0) == 0
  }

  method IsDesynced(r: Record, body: Body) returns (desynced: bool)
    ensures desynced == Desynced(r, body)
  {
    match body {
      case ReplicaSpec(replicas) =>
        return replicas.Some? && replicas.value == 0 && r.replicas.Some? && r.replicas.value > 0;
      case JobSuspend(suspend) =>
        return suspend.Some? && suspend.value && r.suspend.Some? && !r.suspend.value;
      case Annotated(annotations) =>
        return HIBERNATION in annotations && annotations[HIBERNATION] == "on";
      case CrdSuspend(suspended) =>
        return suspended.Some? && suspended.value && r.suspend.Some? && !r.suspend.value;
      case CrdCount(count) =>
        return count.GetOr(0) == 0 && r.replicas.Some? && r.replicas.value > 0;
      case NodeSets(sets) =>
        if r.nodeSetCounts.None? {
          return false;
        }
        for i := 0 to |sets|
          invariant forall j :: 0 <= j < i ==> sets[j].count.GetOr(0) != 0
        {
          if sets[i].count.GetOr(0) == 0 {
            return true;
          }
        }
        return false;
    }
  }

  const VERIFY_ORDER: seq<Kind> :=
    [Deployment, StatefulSet, CronJob, HelmRelease, Kustomization, MariaDB, MaxScale, Cluster,
     ThanosRuler, Alertmanager, Prometheus, Kibana, Elasticsearch]

  /** Some listed object of the given kinds has a record it is out of sync with. */
  ghost predicate DesyncAmong(sel: Selector, w: World, kinds: seq<Kind>, weather: Weather) {
    DesyncAmongItems(w, Worklist(sel, kinds, weather))
  }

  ghost predicate DesyncAmongItems(w: World, items: seq<Item>) {
    exists k :: SleepPasses.Visit(k) in items && DesyncedKey(w, k)
  }

  ghost predicate DesyncedKey(w: World, k: Key) {
    && k in w.objects && RecordFor(w.records, k).Some?
    && Desynced(RecordFor(w.records, k).value, w.objects[k])
  }

  /** The desired state of a schedule as its spec gives it. */
  datatype Spec = Spec(
    suspend: bool, schedule: Option<SleepWindow>, schedules: seq<SleepWindow>, selector: Selector,
    interval: Option<int>)
  {
    function Windows(): seq<SleepWindow> {
      GetWindows(schedule, schedules)
    }
  }

  /** The environment of one reconcile: its API calls, the two plain status writes, and the clock at the end. */
  datatype Env = Env(weather: Weather, clearStatus: bool, finalStatus: bool, end: int)

  /** The store and the persisted status of one schedule. */
  datatype Controller = Controller(run: Run, sleeping: bool, lastTransition: Option<int>)

  /** The status write that ends a reconcile. */
  function Finish(c: Controller, run: Run, changed: bool, sleeping: bool, env: Env): Controller {
    if changed && env.finalStatus then Controller(run, sleeping, Some(env.end))
    else c.(run := run)
  }

  ghost function Verified(sel: Selector, run: Run, weather: Weather): Run {
    if run.world.records == [] then run.(ok := true)
    else if Abort in Worklist(sel, VERIFY_ORDER, weather) then run.(ok := false)
    else if DesyncAmong(sel, run.world, VERIFY_ORDER, weather) then WakePass(run, weather)
    else run.(ok := true)
  }

  /** One reconcile of the schedule at instant now. */
  ghost function Reconciled(spec: Spec, c: Controller, now: int, env: Env): Controller {
    var asleep := Asleep(spec.Windows(), now);
    if spec.suspend then
      if !c.sleeping then c
      else
        var run := WakePass(c.run, env.weather);
        if !run.ok then c.(run := run) else Finish(c, run, true, false, env)
    else if spec.Windows() == [] then c
    else if asleep != c.sleeping then
      var run := if asleep then SleepPass(spec.selector, c.run, env.weather) else WakePass(c.run, env.weather);
      if !run.ok then c.(run := run) else Finish(c, run, true, asleep, env)
    else if asleep then c
    else if ShouldVerify(c.lastTransition, |c.run.world.records|, now) then
      c.(run := Verified(spec.selector, c.run, env.weather))
    else if c.run.world.records != [] && env.clearStatus then
      c.(run := c.run.(world := c.run.world.(records := [])))
    else c
  }

  /** The status write that clears the records is due and fails; the reconcile then returns an error. */
  ghost predicate ClearingFails(spec: Spec, c: Controller, now: int, env: Env) {
    && !spec.suspend && spec.Windows() != [] && !Asleep(spec.Windows(), now) && !c.sleeping
    && !ShouldVerify(c.lastTransition, |c.run.world.records|, now)
    && c.run.world.records != [] && !env.clearStatus
  }

  class SleepScheduleReconciler {
    var objects: map<Key, Body>           // the workloads of the schedule's namespace
    var records: seq<Record>              // persisted status.managedWorkloads
    var sleeping: bool                    // persisted status.sleeping
    var lastTransition: Option<int>       // persisted status.lastTransitionTime
    const defaultInterval: int

    ghost var statusFailures: nat
    ghost var steps: seq<Step>

    constructor (objects: map<Key, Body>, defaultInterval: int)
      ensures Progress(true) == Start(objects) && !sleeping && lastTransition == None
    {
      this.objects, this.records, this.sleeping, this.lastTransition := objects, [], false, None;
      this.defaultInterval := defaultInterval;
      statusFailures, steps := 0, [];
    }

    ghost function Progress(ok: bool): Run
      reads this
    {
      Run(World(objects, records, statusFailures), ok, steps)
    }

    ghost function State(ok: bool): Controller
      reads this
    {
      Controller(Progress(ok), sleeping, lastTransition)
    }

    /** r.Update on a workload. */
    method UpdateObject(key: Key, body: Body, accepted: bool) returns (ok: bool)
      requires key in objects
      modifies `objects, `steps
      ensures ok == accepted
      ensures !ok ==> objects == old(objects) && steps == old(steps)
      ensures ok ==> objects == old(objects)[key := body]
      ensures ok ==> steps == old(steps) + [WorkloadWrite(World(objects, records, statusFailures))]
    {
      ok := accepted;
      if ok {
        objects := objects[key := body];
        steps := steps + [WorkloadWrite(World(objects, records, statusFailures))];
      }
    }

    /** r.Status().Update with one more managed workload. */
    method PersistRecords(managed: seq<Record>, accepted: bool) returns (ok: bool)
      modifies `records, `statusFailures, `steps
      ensures ok == accepted
      ensures records == if ok then managed else old(records)
      ensures statusFailures == old(statusFailures) + if ok then 0 else 1
      ensures steps == old(steps) + [StatusWrite(World(objects, records, statusFailures))]
    {
      ok := accepted;
      if ok {
        records := managed;
      } else {
        statusFailures := statusFailures + 1;
      }
      steps := steps + [StatusWrite(World(objects, records, statusFailures))];
    }

    /** The in-memory bookkeeping of a pass mirrors the persisted records. */
    ghost predicate Mirrors(managed: seq<Record>, lookup: set<Key>)
      reads this
    {
      managed == records && forall k :: k in lookup <==> Recorded(records, k)
    }

    /** Puts one object to sleep unless it is recorded or not awake: workload write, then status write. */
    method SleepObject(key: Key, weather: Weather, managed0: seq<Record>, lookup0: set<Key>)
      returns (ok: bool, managed: seq<Record>, lookup: set<Key>)
      requires key in objects && Mirrors(managed0, lookup0)
      modifies `objects, `records, `statusFailures, `steps
      ensures Progress(ok) == SleepOne(old(Progress(true)), key, weather)
      ensures ok ==> Mirrors(managed, lookup)
      ensures objects.Keys == old(objects.Keys)
    {
      ok, managed, lookup := true, managed0, lookup0;
      if key in lookup {
        return;
      }
      var touch, slept, r := PlanSleep(key, objects[key]);
      if touch {
        ok := UpdateObject(key, slept, weather.update(key));
        if !ok {
          return;
        }
        managed := managed + [r];
        ok := PersistRecords(managed, weather.status(key));
        if !ok {
          return;
        }
        lookup := lookup + {key};
        forall k
          ensures k in lookup <==> Recorded(records, k)
        {
          RecordedAfterAppend(managed0, r, k);
        }
      }
    }

    method SleepObjects(kind: Kind, names: seq<string>, weather: Weather, managed0: seq<Record>, lookup0: set<Key>)
      returns (ok: bool, managed: seq<Record>, lookup: set<Key>)
      requires forall name :: name in names ==> Key(kind, name) in objects
      requires Mirrors(managed0, lookup0)
      modifies `objects, `records, `statusFailures, `steps
      ensures Progress(ok) == SleepItems(old(Progress(true)), VisitAll(kind, names), weather)
      ensures ok ==> Mirrors(managed, lookup)
      ensures objects.Keys == old(objects.Keys)
    {
      ok, managed, lookup := true, managed0, lookup0;
      ghost var items := VisitAll(kind, names);
      for i := 0 to |names|
        invariant ok
        invariant SleepItems(old(Progress(true)), items, weather) == SleepItems(Progress(true), items[i..], weather)
        invariant Mirrors(managed, lookup)
        invariant objects.Keys == old(objects.Keys)
      {
        assert items[i..][0] == SleepPasses.Visit(Key(kind, names[i])) && items[i..][1..] == items[i + 1..];
        ok, managed, lookup := SleepObject(Key(kind, names[i]), weather, managed, lookup);
        if !ok {
          SleepItemsAfterFailure(Progress(false), items[i + 1..], weather);
          return;
        }
      }
      assert items[|names|..] == [];
    }

    /** One kind of a sleep pass: skipped if unmanaged or not installed, ended by a List that fails. */
    method SleepKind(sel: Selector, kind: Kind, weather: Weather, managed0: seq<Record>, lookup0: set<Key>)
      returns (ok: bool, managed: seq<Record>, lookup: set<Key>)
      requires Faithful(sel, objects, weather)
      requires Mirrors(managed0, lookup0)
      modifies `objects, `records, `statusFailures, `steps
      ensures Progress(ok) == SleepItems(old(Progress(true)), KindItems(sel, kind, weather), weather)
      ensures ok ==> Mirrors(managed, lookup)
      ensures objects.Keys == old(objects.Keys)
    {
      ok, managed, lookup := true, managed0, lookup0;
      if sel.types != [] && KindName(kind) !in sel.types {
        return;
      }
      match weather.list(kind) {
        case ListFailed =>
          ok := false;
        case NoMatch =>
          ok := !BuiltIn(kind);
        case Listed(names) =>
          ok, managed, lookup := SleepObjects(kind, names, weather, managed, lookup);
      }
    }

    /** Puts every selected workload to sleep, operators first, persisting each record as it goes. */
    method SleepWorkloads(sel: Selector, weather: Weather) returns (ok: bool)
      requires Faithful(sel, objects, weather)
      modifies `objects, `records, `statusFailures, `steps
      ensures Progress(ok) == SleepPass(sel, old(Progress(true)), weather)
      ensures objects.Keys == old(objects.Keys)
    {
      var managed := records;
      var lookup := set i | 0 <= i < |records| :: records[i].key;
      ghost var result := SleepPass(sel, Progress(true), weather);
      for i := 0 to |SLEEP_ORDER|
        invariant result == SleepItems(Progress(true), Worklist(sel, SLEEP_ORDER[i..], weather), weather)
        invariant Mirrors(managed, lookup)
        invariant objects.Keys == old(objects.Keys)
      {
        ghost var rest := Worklist(sel, SLEEP_ORDER[i..][1..], weather);
        assert SLEEP_ORDER[i..][1..] == SLEEP_ORDER[i + 1..];
        SleepItemsConcat(Progress(true), KindItems(sel, SLEEP_ORDER[i], weather), rest, weather);
        ok, managed, lookup := SleepKind(sel, SLEEP_ORDER[i], weather, managed, lookup);
        if !ok {
          SleepItemsAfterFailure(Progress(false), rest, weather);
          return;
        }
      }
      assert SLEEP_ORDER[|SLEEP_ORDER|..] == [];
      return true;
    }

    /** Restores the records of one pass; a Get that fails is skipped. */
    method WakeListed(operators: bool, weather: Weather) returns (ok: bool)
      modifies `objects, `steps
      ensures Progress(ok) == WakeRecords(old(Progress(true)), records, operators, weather)
    {
      for i := 0 to |records|
        invariant WakeRecords(old(Progress(true)), records, operators, weather)
               == WakeRecords(Progress(true), records[i..], operators, weather)
      {
        var r := records[i];
        assert records[i..][0] == r && records[i..][1..] == records[i + 1..];
        if IsOperator(r.key.kind) != operators {
          continue;
        }
        if r.key !in objects || !weather.get(r.key) {
          continue;
        }
        ghost var before := Progress(true);
        var touch, woken := PlanWake(r, objects[r.key]);
        if touch {
          var updated := UpdateObject(r.key, woken, weather.update(r.key));
          assert Progress(updated) == WakeOne(before, r, weather);
          if !updated {
            WakeAfterFailure(Progress(false), records[i + 1..], operators, weather);
            return false;
          }
        }
      }
      assert records[|records|..] == [];
      return true;
    }

    /** Wakes workloads in a first pass over the records and operators in a second one. */
    method WakeWorkloads(weather: Weather) returns (ok: bool)
      modifies `objects, `steps
      ensures Progress(ok) == WakePass(old(Progress(true)), weather)
    {
      ok := WakeListed(false, weather);
      if !ok {
        WakeAfterFailure(Progress(false), records, true, weather);
        return;
      }
      ok := WakeListed(true, weather);
    }

    /** The lookup table of the verification: for every key the last record of it. */
    method ManagedSet() returns (managedSet: map<Key, Record>)
      ensures IsManagedSet(managedSet)
    {
      managedSet := map[];
      for i := 0 to |records|
        invariant forall k ::
          RecordFor(records[..i], k) == if k in managedSet then Some(managedSet[k]) else None
      {
        assert records[..i + 1][..i] == records[..i];
        managedSet := managedSet[records[i].key := records[i]];
      }
      assert records[..|records|] == records;
    }

    ghost predicate IsManagedSet(managedSet: map<Key, Record>)
      reads this
    {
      forall k :: RecordFor(records, k) == if k in managedSet then Some(managedSet[k]) else None
    }

    /** The check of one kind; not ok if its List fails. */
    method FindDesyncOfKind(sel: Selector, kind: Kind, weather: Weather, managedSet: map<Key, Record>)
      returns (ok: bool, desynced: bool)
      requires Faithful(sel, objects, weather) && IsManagedSet(managedSet)
      ensures ok <==> Abort !in KindItems(sel, kind, weather)
      ensures ok ==> (desynced <==> DesyncAmongItems(Progress(true).world, KindItems(sel, kind, weather)))
    {
      if sel.types != [] && KindName(kind) !in sel.types {
        return true, false;
      }
      ghost var items := KindItems(sel, kind, weather);
      match weather.list(kind) {
        case ListFailed =>
          assert items[0] == Abort;
          return false, false;
        case NoMatch =>
          assert BuiltIn(kind) ==> items[0] == Abort;
          return !BuiltIn(kind), false;
        case Listed(names) =>
          ok, desynced := true, false;
          for j := 0 to |names|
            invariant desynced <==> exists m :: 0 <= m < j && DesyncedKey(Progress(true).world, Key(kind, names[m]))
          {
            var key := Key(kind, names[j]);
            if key in managedSet {
              var bad := IsDesynced(managedSet[key], objects[key]);
              if bad {
                desynced := true;
              }
            }
          }
          assert forall m :: 0 <= m < |names| ==> items[m] == SleepPasses.Visit(Key(kind, names[m]));
      }
    }

    /** Whether some listed, recorded workload fell back into its slept form; not ok if a List fails. */
    method FindDesync(sel: Selector, weather: Weather) returns (ok: bool, desynced: bool)
      requires Faithful(sel, objects, weather)
      ensures ok <==> Abort !in Worklist(sel, VERIFY_ORDER, weather)
      ensures ok ==> (desynced <==> DesyncAmong(sel, Progress(true).world, VERIFY_ORDER, weather))
    {
      var managedSet := ManagedSet();
      desynced := false;
      for i := 0 to |VERIFY_ORDER|
        invariant Abort !in Worklist(sel, VERIFY_ORDER[..i], weather)
        invariant desynced <==> DesyncAmong(sel, Progress(true).world, VERIFY_ORDER[..i], weather)
      {
        VerifyOrderStep(sel, i, weather);
        var listed, bad := FindDesyncOfKind(sel, VERIFY_ORDER[i], weather, managedSet);
        if !listed {
          return false, false;
        }
        desynced := desynced || bad;
      }
      assert VERIFY_ORDER[..|VERIFY_ORDER|] == VERIFY_ORDER;
      return true, desynced;
    }

    /** Wakes everything again if verification finds a desynced workload. */
    method VerifyAndCorrectWorkloads(sel: Selector, weather: Weather) returns (ok: bool, desynced: bool)
      requires Faithful(sel, objects, weather)
      modifies `objects, `steps
      ensures Progress(ok) == Verified(sel, old(Progress(true)), weather)
      ensures ok && records != [] ==>
        (desynced <==> old(DesyncAmong(sel, Progress(true).world, VERIFY_ORDER, weather)))
    {
      if |records| == 0 {
        return true, false;
      }
      ok, desynced := FindDesync(sel, weather);
      if ok && desynced {
        ok := WakeWorkloads(weather);
      }
    }

    /** The reconcile loop of one schedule; the delay is None when the reconcile returned an error. */
    method Reconcile(spec: Spec, now: int, env: Env) returns (delay: Option<int>, ghost ok: bool)
      requires Faithful(spec.selector, objects, env.weather)
      modifies this
      ensures State(ok) == Reconciled(spec, old(State(true)), now, env)
      ensures delay.Some? <==> ok && env.finalStatus && !old(ClearingFails(spec, State(true), now, env))
      ensures delay.Some? && (spec.suspend || spec.Windows() == []) ==> delay.value == MINUTE
      ensures delay.Some? && !spec.suspend && spec.Windows() != [] ==>
        delay.value ==
        RequeueDelay(
          RequeueInput(spec.Windows(), sleeping, lastTransition, |records|, spec.interval, defaultInterval), now)
    {
      var windows := spec.Windows();
      if spec.suspend {
        if sleeping {
          var woken := WakeWorkloads(env.weather);
          if !woken {
            return None, false;
          }
          if env.finalStatus {
            sleeping, lastTransition := false, Some(env.end);
          }
        }
        return if env.finalStatus then Some(MINUTE) else None, true;
      }
      if |windows| == 0 {
        return if env.finalStatus then Some(MINUTE) else None, true;
      }

      var shouldSleep := ShouldBeSleepingAt(windows, now);
      var statusChanged := shouldSleep != sleeping;
      if statusChanged {
        if shouldSleep {
          var slept := SleepWorkloads(spec.selector, env.weather);
          if !slept {
            return None, false;
          }
        } else {
          var woken := WakeWorkloads(env.weather);
          if !woken {
            return None, false;
          }
        }
      } else if !shouldSleep && !sleeping {
        if ShouldVerify(lastTransition, |records|, now) {
          var verified, desynced := VerifyAndCorrectWorkloads(spec.selector, env.weather);
          if !verified {
            return None, false;
          }
        } else if |records| > 0 {
          if !env.clearStatus {
            return None, true;
          }
          records := [];
        }
      }
      if !env.finalStatus {
        return None, true;
      }
      if statusChanged {
        sleeping, lastTransition := shouldSleep, Some(env.end);
      }
      var d := ComputeRequeueInterval(
        RequeueInput(windows, sleeping, lastTransition, |records|, spec.interval, defaultInterval), now);
      return Some(d), true;
    }
  }

  lemma VerifyOrderStep(sel: Selector, i: nat, weather: Weather)
    requires i < |VERIFY_ORDER|
    ensures Worklist(sel, VERIFY_ORDER[..i + 1], weather)
         == Worklist(sel, VERIFY_ORDER[..i], weather) + KindItems(sel, VERIFY_ORDER[i], weather)
    ensures forall x :: x in Worklist(sel, VERIFY_ORDER[..i + 1], weather) ==>
              x in Worklist(sel, VERIFY_ORDER, weather)
  {
    var a, b, c := VERIFY_ORDER[..i], [VERIFY_ORDER[i]], VERIFY_ORDER[i + 1..];
    WorklistConcat(sel, a, b, weather);
    assert a + b == VERIFY_ORDER[..i + 1];
    assert b[1..] == [];
    WorklistConcat(sel, a + b, c, weather);
    assert a + b + c == VERIFY_ORDER;
  }

  // ---------- verification ----------

  /** At most one record per kind and name, each of an awake original. */
  ghost predicate RecordsSound(records: seq<Record>) {
    UniqueKeys(records) && forall r :: r in records ==> AwakeOriginal(r)
  }

  /** A body in the form sleep passes write. */
  ghost predicate SleptForm(kind: Kind, body: Body) {
    exists original :: HasForm(kind, original) && Awake(original) && body == PutToSleep(original)
  }

  lemma SleptFormIsDesynced(r: Record, body: Body)
    requires AwakeOriginal(r) && SleptForm(r.key.kind, body)
    ensures Desynced(r, body)
  {
    var original :| HasForm(r.key.kind, original) && Awake(original) && body == PutToSleep(original);
    if original.NodeSets? {
      var i :| 0 <= i < |original.sets| && NodeSetCount(original.sets[i]) > 0;
      assert body.sets[i].count.GetOr(0) == 0;
    }
  }

  /** Only records of awake originals lead to a report, except for hibernation, where the annotation alone decides. */
  lemma ReportNeedsAwakeRecord(r: Record, body: Body)
    requires Desynced(r, body) && !body.Annotated?
    ensures
      match body
      case ReplicaSpec(_) | CrdCount(_) => r.replicas.Some? && r.replicas.value > 0
      case JobSuspend(_) | CrdSuspend(_) => r.suspend == Some(false)
      case NodeSets(_) => r.nodeSetCounts.Some?
      case Annotated(_) => true
  {
  }

  /** An absent count of a recorded custom resource is reported, absent replicas of a Deployment are not. */
  lemma AbsentCounts(r: Record, d: Record)
    requires AwakeOriginal(r) && r.key.kind == Kibana && AwakeOriginal(d) && d.key.kind == Deployment
    ensures Desynced(r, CrdCount(None)) && !Desynced(d, ReplicaSpec(None))
  {
  }

  /** Everything the object manages is running. */
  predicate FullyRunning(body: Body) {
    match body
    case NodeSets(sets) => forall i :: 0 <= i < |sets| ==> NodeSetCount(sets[i]) > 0
    case _ => Awake(body)
  }

  /** A recorded workload is reported exactly if it does not fully run, whatever count it runs with. */
  lemma DesyncedExactly(r: Record, body: Body)
    requires AwakeOriginal(r) && HasForm(r.key.kind, body) && Countable(body)
    ensures Desynced(r, body) <==> !FullyRunning(body)
  {
    match body {
      case NodeSets(sets) =>
        forall i | 0 <= i < |sets|
          ensures NodeSetCount(sets[i]) == sets[i].count.GetOr(0)
        {
          ToInt32Range(sets[i].count.GetOr(0));
        }
      case CrdCount(count) => ToInt32Range(count.value);
      case _ =>
    }
  }

  /** A listed, recorded workload that is still in slept form is always reported. */
  lemma DesyncIsReported(sel: Selector, w: World, weather: Weather, r: Record)
    requires RecordsSound(w.records)
    requires Faithful(sel, w.objects, weather) && Abort !in Worklist(sel, VERIFY_ORDER, weather)
    requires r in w.records && r.key in w.objects && SleptForm(r.key.kind, w.objects[r.key])
    requires ShouldManageType(sel, r.key.kind) && sel.matchesLabels(r.key)
    ensures DesyncAmong(sel, w, VERIFY_ORDER, weather)
  {
    RecordForUnique(w.records, r);
    SleptFormIsDesynced(r, w.objects[r.key]);
    assert DesyncedKey(w, r.key);
    assert r.key.kind in VERIFY_ORDER by { EveryKindIsVerified(r.key.kind); }
    WorklistComplete(sel, w.objects, VERIFY_ORDER, weather, r.key);
  }

  lemma EveryKindIsVerified(kind: Kind)
    ensures kind in VERIFY_ORDER
  {
    match kind
    case Deployment => assert VERIFY_ORDER[0] == kind;
    case StatefulSet => assert VERIFY_ORDER[1] == kind;
    case CronJob => assert VERIFY_ORDER[2] == kind;
    case HelmRelease => assert VERIFY_ORDER[3] == kind;
    case Kustomization => assert VERIFY_ORDER[4] == kind;
    case MariaDB => assert VERIFY_ORDER[5] == kind;
    case MaxScale => assert VERIFY_ORDER[6] == kind;
    case Cluster => assert VERIFY_ORDER[7] == kind;
    case ThanosRuler => assert VERIFY_ORDER[8] == kind;
    case Alertmanager => assert VERIFY_ORDER[9] == kind;
    case Prometheus => assert VERIFY_ORDER[10] == kind;
    case Kibana => assert VERIFY_ORDER[11] == kind;
    case Elasticsearch => assert VERIFY_ORDER[12] == kind;
  }

  /** Without failing calls a wake pass restores exactly the recorded objects it handles. */
  lemma {:induction false} WakeRecordsRestores(run: Run, records: seq<Record>, operators: bool, weather: Weather)
    requires run.ok && UniqueKeys(records)
    requires forall k :: weather.get(k) && weather.update(k)
    ensures
      var after := WakeRecords(run, records, operators, weather);
      && after.ok && after.world.records == run.world.records
      && after.world.objects.Keys == run.world.objects.Keys
      && (forall k :: k in run.world.objects && (!Recorded(records, k) || IsOperator(k.kind) != operators) ==>
            after.world.objects[k] == run.world.objects[k])
      && (forall r :: r in records && r.key in run.world.objects && IsOperator(r.key.kind) == operators ==>
            after.world.objects[r.key] == Restored(r, run.world.objects[r.key]))
    decreases |records|
  {
    if records == [] {
    } else {
      var r, rest := records[0], records[1..];
      var next := if IsOperator(r.key.kind) == operators then WakeOne(run, r, weather) else run;
      WakeRecordsRestores(next, rest, operators, weather);
      assert forall k :: Recorded(records, k) <==> k == r.key || Recorded(rest, k) by {
        forall k | Recorded(rest, k)
          ensures Recorded(records, k)
        {
          var i :| 0 <= i < |rest| && rest[i].key == k;
          assert records[i + 1].key == k;
        }
      }
      assert !Recorded(rest, r.key);
      forall q | q in rest
        ensures q.key != r.key
      {
        var i :| 0 <= i < |rest| && rest[i] == q;
        assert records[i + 1] == q;
      }
    }
  }

  lemma WakePassRestores(run: Run, weather: Weather)
    requires UniqueKeys(run.world.records)
    requires forall k :: weather.get(k) && weather.update(k)
    ensures
      var after := WakePass(run, weather);
      && after.ok && after.world.records == run.world.records
      && after.world.objects.Keys == run.world.objects.Keys
      && (forall r :: r in run.world.records && r.key in run.world.objects ==>
            after.world.objects[r.key] == Restored(r, run.world.objects[r.key]))
  {
    var rs := run.world.records;
    WakeRecordsRestores(run.(ok := true), rs, false, weather);
    var mid := WakeRecords(run.(ok := true), rs, false, weather);
    WakeRecordsRestores(mid, rs, true, weather);
  }

  /** A nodeSet that waking leaves at 0: recorded as 0, or not recorded and at 0 already. */
  predicate LeavesZero(r: Record, body: Body) {
    && body.NodeSets? && r.nodeSetCounts.Some?
    && exists i :: 0 <= i < |body.sets| &&
         (if body.sets[i].name in r.nodeSetCounts.value then r.nodeSetCounts.value[body.sets[i].name]
          else body.sets[i].count.GetOr(0)) == 0
  }

  lemma DesyncedAfterRestore(r: Record, body: Body)
    requires AwakeOriginal(r) && HasForm(r.key.kind, body)
    ensures Desynced(r, Restored(r, body)) <==> LeavesZero(r, body)
  {
    if body.NodeSets? {
      var sets, counts := body.sets, r.nodeSetCounts.value;
      forall i | 0 <= i < |sets|
        ensures WithCounts(sets, counts)[i].count.GetOr(0)
             == if sets[i].name in counts then counts[sets[i].name] else sets[i].count.GetOr(0)
      {
      }
    }
  }

  /** Right after a wake whose calls all succeeded, verification reports something exactly when a listed, recorded
      Elasticsearch cluster has a nodeSet the wake left at 0; in particular nothing when all counts are positive. */
  lemma ReportAfterWake(sel: Selector, run: Run, weather: Weather, listing: Weather)
    requires Typed(run.world.objects) && RecordsSound(run.world.records)
    requires forall k :: weather.get(k) && weather.update(k)
    ensures
      var w := run.world;
      DesyncAmong(sel, WakePass(run, weather).world, VERIFY_ORDER, listing) <==>
      exists k ::
        && SleepPasses.Visit(k) in Worklist(sel, VERIFY_ORDER, listing)
        && k in w.objects && RecordFor(w.records, k).Some? && LeavesZero(RecordFor(w.records, k).value, w.objects[k])
  {
    var w, after := run.world, WakePass(run, weather).world;
    WakePassRestores(run, weather);
    forall k
      ensures DesyncedKey(after, k) <==>
        k in w.objects && RecordFor(w.records, k).Some? && LeavesZero(RecordFor(w.records, k).value, w.objects[k])
    {
      RecordForIsThere(w.records, k);
      if k in w.objects && RecordFor(w.records, k).Some? {
        DesyncedAfterRestore(RecordFor(w.records, k).value, w.objects[k]);
      }
    }
  }
}
