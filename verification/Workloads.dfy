/**
 The 13 workload kinds of a sleep schedule: what "awake" and "slept" mean for one object, the record the controller
 keeps of the original, and what waking writes back. Every kind is one of six forms of managed field.
 */
module Workloads {
  import opened Common

  datatype Kind =
    | HelmRelease | Kustomization | MariaDB | MaxScale
    | Deployment | StatefulSet | CronJob | Cluster
    | ThanosRuler | Alertmanager | Prometheus | Kibana | Elasticsearch

  function KindName(kind: Kind): string {
    match kind
    case HelmRelease => "HelmRelease"
    case Kustomization => "Kustomization"
    case MariaDB => "MariaDB"
    case MaxScale => "MaxScale"
    case Deployment => "Deployment"
    case StatefulSet => "StatefulSet"
    case CronJob => "CronJob"
    case Cluster => "Cluster"
    case ThanosRuler => "ThanosRuler"
    case Alertmanager => "Alertmanager"
    case Prometheus => "Prometheus"
    case Kibana => "Kibana"
    case Elasticsearch => "Elasticsearch"
  }

  /** The suspend-based kinds: suspended before and resumed after the workloads their operators drive. */
  predicate IsOperator(kind: Kind) {
    kind == HelmRelease || kind == Kustomization || kind == MariaDB || kind == MaxScale
  }

  datatype Key = Key(kind: Kind, name: string)

  datatype NodeSet = NodeSet(name: string, count: Option<int>)

  /** The part of an object a schedule reads and writes. An absent spec and an absent field are both None. */
  datatype Body =
    | ReplicaSpec(replicas: Option<int>)              // Deployment, StatefulSet
    | JobSuspend(suspend: Option<bool>)               // CronJob
    | Annotated(annotations: map<string, string>)     // Cluster
    | CrdSuspend(suspended: Option<bool>)             // HelmRelease, Kustomization, MariaDB, MaxScale
    | CrdCount(count: Option<int>)                    // ThanosRuler, Alertmanager, Prometheus, Kibana
    | NodeSets(sets: seq<NodeSet>)                    // Elasticsearch

  predicate HasForm(kind: Kind, body: Body) {
    match kind
    case Deployment | StatefulSet => body.ReplicaSpec?
    case CronJob => body.JobSuspend?
    case Cluster => body.Annotated?
    case HelmRelease | Kustomization | MariaDB | MaxScale => body.CrdSuspend?
    case ThanosRuler | Alertmanager | Prometheus | Kibana => body.CrdCount?
    case Elasticsearch => body.NodeSets?
  }

  const HIBERNATION: string := "cnpg.io/hibernation"

  /** One entry of status.managedWorkloads. */
  datatype Record = Record(
    key: Key, replicas: Option<int>, suspend: Option<bool>, hibernation: Option<string>,
    nodeSetCounts: Option<map<string, int>>)

  /** Go's conversion to int32: wraps around at 32 bits. */
  function ToInt32(v: int): int {
    (v + 0x8000_0000) % 0x1_0000_0000 - 0x8000_0000
  }

  predicate FitsInt32(v: int) {
    -0x8000_0000 <= v < 0x8000_0000
  }

  function NodeSetCount(ns: NodeSet): int {
    ToInt32(ns.count.GetOr(0))
  }

  /** The captured counts by name; the last nodeSet of a name wins. */
  function Counts(sets: seq<NodeSet>): map<string, int> {
    if sets == [] then map[]
    else Counts(sets[..|sets| - 1])[sets[|sets| - 1].name := NodeSetCount(sets[|sets| - 1])]
  }

  predicate AnyPositive(sets: seq<NodeSet>) {
    exists i :: 0 <= i < |sets| && NodeSetCount(sets[i]) > 0
  }

  function Zeroed(sets: seq<NodeSet>): seq<NodeSet> {
    seq(|sets|, i requires 0 <= i < |sets| => sets[i].(count := Some(0)))
  }

  function WithCounts(sets: seq<NodeSet>, counts: map<string, int>): seq<NodeSet> {
    seq(|sets|, i requires 0 <= i < |sets| =>
      if sets[i].name in counts then sets[i].(count := Some(counts[sets[i].name])) else sets[i])
  }

  /** The test that makes a sleep pass touch an object. */
  predicate Awake(body: Body) {
    match body
    case ReplicaSpec(replicas) => replicas.Some? && replicas.value > 0
    case JobSuspend(suspend) => suspend.None? || !suspend.value
    case Annotated(annotations) => Lookup(annotations, HIBERNATION) != "on"
    case CrdSuspend(suspended) => !suspended.GetOr(false)
    case CrdCount(count) => count.Some? && ToInt32(count.value) > 0
    case NodeSets(sets) => AnyPositive(sets)
  }

  function PutToSleep(body: Body): Body {
    match body
    case ReplicaSpec(_) => ReplicaSpec(Some(0))
    case JobSuspend(_) => JobSuspend(Some(true))
    case Annotated(annotations) => Annotated(annotations[HIBERNATION := "on"])
    case CrdSuspend(_) => CrdSuspend(Some(true))
    case CrdCount(_) => CrdCount(Some(0))
    case NodeSets(sets) => NodeSets(Zeroed(sets))
  }

  /** The record of the original that is persisted after an object was put to sleep. */
  function RecordOf(key: Key, body: Body): Record {
    var blank := Record(key, None, None, None, None);
    match body
    case ReplicaSpec(replicas) => blank.(replicas := replicas)
    case JobSuspend(suspend) => blank.(suspend := Some(suspend.GetOr(false)))
    case Annotated(annotations) => blank.(hibernation := Some(Lookup(annotations, HIBERNATION)))
    case CrdSuspend(suspended) => blank.(suspend := Some(suspended.GetOr(false)))
    case CrdCount(count) => blank.(replicas := Some(ToInt32(count.GetOr(0))))
    case NodeSets(sets) => blank.(nodeSetCounts := Some(Counts(sets)))
  }

  /** Whether waking attempts a write at all. */
  predicate WakeWrites(r: Record, body: Body) {
    match body
    case ReplicaSpec(_) => r.replicas.Some?
    case JobSuspend(_) => r.suspend.Some?
    case Annotated(_) => true
    case CrdSuspend(_) => true
    case CrdCount(_) => r.replicas.Some?
    case NodeSets(_) => r.nodeSetCounts.Some?
  }

  /** What waking writes over the current body. */
  function Restored(r: Record, body: Body): Body {
    if !WakeWrites(r, body) then body else
    match body
    case ReplicaSpec(_) => ReplicaSpec(r.replicas)
    case JobSuspend(_) => JobSuspend(r.suspend)
    case Annotated(annotations) =>
      if r.hibernation.Some? && r.hibernation.value != ""
      then Annotated(annotations[HIBERNATION := r.hibernation.value])
      else Annotated(annotations - {HIBERNATION})
    case CrdSuspend(_) => CrdSuspend(r.suspend)
    case CrdCount(_) => CrdCount(r.replicas)
    case NodeSets(sets) => NodeSets(WithCounts(sets, r.nodeSetCounts.value))
  }

  /** The recorded original is one a sleep pass would have touched. */
  predicate AwakeOriginal(r: Record) {
    match r.key.kind
    case Deployment | StatefulSet | ThanosRuler | Alertmanager | Prometheus | Kibana =>
      r.replicas.Some? && r.replicas.value > 0
    case CronJob | HelmRelease | Kustomization | MariaDB | MaxScale => r.suspend == Some(false)
    case Cluster => r.hibernation.Some? && r.hibernation.value != "on"
    case Elasticsearch =>
      r.nodeSetCounts.Some? && exists name :: name in r.nodeSetCounts.value && r.nodeSetCounts.value[name] > 0
  }

  /** Absent reads as false, "" or 0. */
  function Normal(body: Body): Body {
    match body
    case ReplicaSpec(_) => body
    case JobSuspend(suspend) => JobSuspend(Some(suspend.GetOr(false)))
    case Annotated(annotations) =>
      if Lookup(annotations, HIBERNATION) == "" then Annotated(annotations - {HIBERNATION}) else body
    case CrdSuspend(suspended) => CrdSuspend(Some(suspended.GetOr(false)))
    case CrdCount(_) => body
    case NodeSets(sets) =>
      NodeSets(seq(|sets|, i requires 0 <= i < |sets| => sets[i].(count := Some(sets[i].count.GetOr(0)))))
  }

  predicate Equivalent(a: Body, b: Body) {
    Normal(a) == Normal(b)
  }

  /** The originals a record can express: counts within int32, nodeSets of one name agreeing on their count. */
  predicate Recordable(body: Body) {
    match body
    case CrdCount(count) => FitsInt32(count.GetOr(0))
    case NodeSets(sets) =>
      && (forall i :: 0 <= i < |sets| ==> FitsInt32(sets[i].count.GetOr(0)))
      && (forall i, j :: 0 <= i < j < |sets| && sets[i].name == sets[j].name ==>
            sets[i].count.GetOr(0) == sets[j].count.GetOr(0))
    case _ => true
  }

  lemma {:induction false} CountsHasNames(sets: seq<NodeSet>, i: nat)
    requires i < |sets|
    ensures sets[i].name in Counts(sets)
  {
    if i == |sets| - 1 {
    } else {
      CountsHasNames(sets[..|sets| - 1], i);
    }
  }

  /** Every captured count is that of the last nodeSet of its name. */
  lemma {:induction false} CountsLastWins(sets: seq<NodeSet>, name: string) returns (i: nat)
    requires name in Counts(sets)
    ensures i < |sets| && sets[i].name == name && Counts(sets)[name] == NodeSetCount(sets[i])
    ensures forall j :: i < j < |sets| ==> sets[j].name != name
  {
    i := |sets| - 1;
    if sets[i].name == name {
    } else {
      i := CountsLastWins(sets[..|sets| - 1], name);
    }
  }

  lemma ToInt32Range(v: int)
    ensures FitsInt32(ToInt32(v))
    ensures FitsInt32(v) <==> ToInt32(v) == v
  {
  }

  ghost predicate LastOfName(sets: seq<NodeSet>, i: int) {
    0 <= i < |sets| && forall j :: i < j < |sets| ==> sets[j].name != sets[i].name
  }

  /** Some nodeSet that runs is the last of its name; one nodeSet per name is enough for that. */
  ghost predicate ShowsAwake(body: Body) {
    body.NodeSets? ==> exists i :: LastOfName(body.sets, i) && NodeSetCount(body.sets[i]) > 0
  }

  /** An object put to sleep by a pass leaves a record of an awake original exactly when, among its nodeSets, the last
      one of some name was running. */
  lemma RecordOfAwake(key: Key, body: Body)
    requires HasForm(key.kind, body) && Awake(body)
    ensures AwakeOriginal(RecordOf(key, body)) <==> ShowsAwake(body)
  {
    if body.NodeSets? {
      var sets, counts := body.sets, Counts(body.sets);
      if AwakeOriginal(RecordOf(key, body)) {
        var name :| name in counts && counts[name] > 0;
        var i := CountsLastWins(sets, name);
        assert LastOfName(sets, i);
      }
      if ShowsAwake(body) {
        var i :| LastOfName(sets, i) && NodeSetCount(sets[i]) > 0;
        CountsHasNames(sets, i);
        var j := CountsLastWins(sets, sets[i].name);
        assert i == j;
        assert sets[i].name in RecordOf(key, body).nodeSetCounts.value;
      }
    }
  }

  /** With two nodeSets of one name the record can claim that nothing was running; the order decides. */
  lemma DuplicateNamesHideTheOriginal()
    ensures
      var running, stopped := NodeSet("data", Some(3)), NodeSet("data", Some(0));
      && Awake(NodeSets([running, stopped])) && !ShowsAwake(NodeSets([running, stopped]))
      && Awake(NodeSets([stopped, running])) && ShowsAwake(NodeSets([stopped, running]))
  {
    var running, stopped := NodeSet("data", Some(3)), NodeSet("data", Some(0));
    assert NodeSetCount([running, stopped][0]) == 3;
    assert forall i :: LastOfName([running, stopped], i) ==> i == 1 by {
      assert [running, stopped][1].name == "data";
    }
    assert NodeSetCount([stopped, running][1]) == 3 && LastOfName([stopped, running], 1);
  }

  ghost predicate EndsRunning(sets: seq<NodeSet>, name: string) {
    exists j :: LastOfName(sets, j) && sets[j].name == name && NodeSetCount(sets[j]) > 0
  }

  /** Wherever a name has a running nodeSet, the last nodeSet of that name runs. */
  ghost predicate NamesTell(body: Body) {
    body.NodeSets? ==>
      forall i :: 0 <= i < |body.sets| && NodeSetCount(body.sets[i]) > 0 ==> EndsRunning(body.sets, body.sets[i].name)
  }

  lemma NamesTellShowsAwake(body: Body)
    requires Awake(body) && NamesTell(body)
    ensures ShowsAwake(body)
  {
  }

  lemma LastOfNameExists(sets: seq<NodeSet>, i: nat) returns (j: nat)
    requires i < |sets|
    ensures LastOfName(sets, j) && sets[j].name == sets[i].name
  {
    CountsHasNames(sets, i);
    j := CountsLastWins(sets, sets[i].name);
  }

  lemma NamesTellRestored(sets: seq<NodeSet>, counts: map<string, int>, i: nat)
    requires NamesTell(NodeSets(sets)) && i < |sets| && NodeSetCount(WithCounts(sets, counts)[i]) > 0
    ensures EndsRunning(WithCounts(sets, counts), sets[i].name)
  {
    var back := WithCounts(sets, counts);
    var j: int;
    if sets[i].name in counts {
      j := LastOfNameExists(sets, i);
    } else {
      assert back[i] == sets[i] && EndsRunning(sets, sets[i].name);
      j :| LastOfName(sets, j) && sets[j].name == sets[i].name && NodeSetCount(sets[j]) > 0;
    }
    assert LastOfName(back, j) && back[j].name == sets[i].name && NodeSetCount(back[j]) > 0;
  }

  lemma NamesTellKept(r: Record, body: Body)
    requires NamesTell(body)
    ensures NamesTell(PutToSleep(body)) && NamesTell(Restored(r, body))
  {
    if body.NodeSets? && r.nodeSetCounts.Some? {
      var back := WithCounts(body.sets, r.nodeSetCounts.value);
      forall i | 0 <= i < |back| && NodeSetCount(back[i]) > 0
        ensures EndsRunning(back, back[i].name)
      {
        NamesTellRestored(body.sets, r.nodeSetCounts.value, i);
      }
    }
  }

  /** Putting an awake object to sleep changes it and leaves nothing for a later pass to do. */
  lemma SleepTakesEffect(body: Body)
    requires Awake(body)
    ensures PutToSleep(body) != body && !Awake(PutToSleep(body))
  {
    if body.NodeSets? {
      var i :| 0 <= i < |body.sets| && NodeSetCount(body.sets[i]) > 0;
      assert Zeroed(body.sets)[i].count == Some(0);
    }
  }

  lemma RestoredNodeSets(sets: seq<NodeSet>)
    ensures
      var back := WithCounts(Zeroed(sets), Counts(sets));
      Equivalent(NodeSets(back), NodeSets(sets)) <==> Recordable(NodeSets(sets))
  {
    var back := WithCounts(Zeroed(sets), Counts(sets));
    forall i | 0 <= i < |sets|
      ensures sets[i].name in Counts(sets) && back[i] == NodeSet(sets[i].name, Some(Counts(sets)[sets[i].name]))
      ensures Normal(NodeSets(back)).sets[i] == back[i]
      ensures FitsInt32(back[i].count.value)
    {
      CountsHasNames(sets, i);
      var j := CountsLastWins(sets, sets[i].name);
      ToInt32Range(sets[j].count.GetOr(0));
    }
    if Recordable(NodeSets(sets)) {
      forall i | 0 <= i < |sets|
        ensures back[i].count.value == sets[i].count.GetOr(0)
      {
        var j := CountsLastWins(sets, sets[i].name);
        ToInt32Range(sets[j].count.GetOr(0));
      }
      assert Normal(NodeSets(back)).sets == Normal(NodeSets(sets)).sets;
    }
    if Equivalent(NodeSets(back), NodeSets(sets)) {
      forall i | 0 <= i < |sets|
        ensures sets[i].count.GetOr(0) == back[i].count.value
      {
        assert Normal(NodeSets(back)).sets[i] == Normal(NodeSets(sets)).sets[i];
      }
    }
  }

  /** Round trip of one object: waking an object that a pass put to sleep gives the original back, up to absent
      fields, exactly when the record can express that original. */
  lemma RoundTrip(key: Key, body: Body)
    requires HasForm(key.kind, body) && Awake(body)
    ensures Equivalent(Restored(RecordOf(key, body), PutToSleep(body)), body) <==> Recordable(body)
  {
    match body {
      case NodeSets(sets) => RestoredNodeSets(sets);
      case CrdCount(count) => ToInt32Range(count.value);
      case Annotated(annotations) =>
        var back := Restored(RecordOf(key, body), PutToSleep(body));
        if Lookup(annotations, HIBERNATION) == "" {
          assert back.annotations == annotations - {HIBERNATION};
        } else {
          assert back.annotations == annotations;
        }
      case _ =>
    }
  }

  /** Waking twice is waking once. */
  lemma RestoredTwice(r: Record, body: Body)
    ensures Restored(r, Restored(r, body)) == Restored(r, body)
  {
    match body {
      case NodeSets(sets) =>
        if r.nodeSetCounts.Some? {
          assert WithCounts(WithCounts(sets, r.nodeSetCounts.value), r.nodeSetCounts.value)
              == WithCounts(sets, r.nodeSetCounts.value);
        }
      case _ =>
    }
  }

  /** Some name's last nodeSet had a count other than 0, so that restoring it shows. */
  ghost predicate LeavesTrace(body: Body) {
    body.NodeSets? ==> exists i :: LastOfName(body.sets, i) && NodeSetCount(body.sets[i]) != 0
  }

  /** Waking shows: the slept form is gone afterwards, exactly when the original left a trace in its record. */
  lemma WakeTakesEffect(key: Key, body: Body)
    requires HasForm(key.kind, body) && Awake(body)
    ensures Restored(RecordOf(key, body), PutToSleep(body)) != PutToSleep(body) <==> LeavesTrace(body)
  {
    if body.NodeSets? {
      RestoredSetsDiffer(body.sets);
    } else if body.Annotated? {
      var slept := PutToSleep(body).annotations;
      var back := Restored(RecordOf(key, body), PutToSleep(body)).annotations;
      assert Lookup(slept, HIBERNATION) == "on" && Lookup(back, HIBERNATION) != "on";
    }
  }

  lemma RestoredSetsDiffer(sets: seq<NodeSet>)
    ensures WithCounts(Zeroed(sets), Counts(sets)) != Zeroed(sets) <==> LeavesTrace(NodeSets(sets))
  {
    var slept, counts := Zeroed(sets), Counts(sets);
    var back := WithCounts(slept, counts);
    if LeavesTrace(NodeSets(sets)) {
      var i :| LastOfName(sets, i) && NodeSetCount(sets[i]) != 0;
      CountsHasNames(sets, i);
      var j := CountsLastWins(sets, sets[i].name);
      assert i == j && back[i].count == Some(NodeSetCount(sets[i])) && slept[i].count == Some(0);
    }
    if back != slept {
      var i :| 0 <= i < |sets| && back[i] != slept[i];
      assert sets[i].name in counts;
      var j := CountsLastWins(sets, sets[i].name);
      assert LastOfName(sets, j);
    }
  }

  lemma FormsKept(kind: Kind, r: Record, body: Body)
    requires HasForm(kind, body)
    ensures HasForm(kind, PutToSleep(body)) && HasForm(kind, Restored(r, body))
  {
  }

  ghost predicate DistinctSetNames(body: Body) {
    body.NodeSets? ==> forall i, j :: 0 <= i < j < |body.sets| ==> body.sets[i].name != body.sets[j].name
  }

  /** One nodeSet per name, as the Elasticsearch operator demands, is enough for every condition on names. */
  lemma DistinctNamesSuffice(body: Body)
    requires DistinctSetNames(body)
    ensures NamesTell(body) && (Awake(body) ==> ShowsAwake(body) && LeavesTrace(body))
  {
    if body.NodeSets? {
      forall i | 0 <= i < |body.sets| && NodeSetCount(body.sets[i]) > 0
        ensures EndsRunning(body.sets, body.sets[i].name)
      {
        assert LastOfName(body.sets, i);
      }
      if Awake(body) {
        var i :| 0 <= i < |body.sets| && NodeSetCount(body.sets[i]) > 0;
        assert LastOfName(body.sets, i);
      }
    }
  }

  // ---------- equivalent bodies ----------

  lemma {:induction false} SameCounts(a: seq<NodeSet>, b: seq<NodeSet>)
    requires |a| == |b|
    requires forall i :: 0 <= i < |a| ==> a[i].name == b[i].name && a[i].count.GetOr(0) == b[i].count.GetOr(0)
    ensures Counts(a) == Counts(b)
  {
    if a == [] {
    } else {
      SameCounts(a[..|a| - 1], b[..|b| - 1]);
    }
  }

  lemma EquivalentSets(a: seq<NodeSet>, b: seq<NodeSet>)
    requires Equivalent(NodeSets(a), NodeSets(b))
    ensures |a| == |b|
    ensures forall i :: 0 <= i < |a| ==> a[i].name == b[i].name && a[i].count.GetOr(0) == b[i].count.GetOr(0)
  {
    forall i | 0 <= i < |a|
      ensures a[i].name == b[i].name && a[i].count.GetOr(0) == b[i].count.GetOr(0)
    {
      assert Normal(NodeSets(a)).sets[i] == Normal(NodeSets(b)).sets[i];
    }
  }

  /** A sleep pass treats equivalent objects alike. */
  lemma EquivalentSleepAlike(key: Key, a: Body, b: Body)
    requires Equivalent(a, b)
    ensures (Awake(a) <==> Awake(b)) && PutToSleep(a) == PutToSleep(b) && RecordOf(key, a) == RecordOf(key, b)
  {
    match a {
      case NodeSets(sets) =>
        EquivalentSets(sets, b.sets);
        SameCounts(sets, b.sets);
        assert Zeroed(sets) == Zeroed(b.sets);
        assert forall i :: 0 <= i < |sets| ==> NodeSetCount(sets[i]) == NodeSetCount(b.sets[i]);
      case Annotated(x) =>
        var y := b.annotations;
        assert HIBERNATION !in x - {HIBERNATION} && HIBERNATION !in y - {HIBERNATION};
        if Lookup(x, HIBERNATION) == "" {
          assert x - {HIBERNATION} == y - {HIBERNATION};
          assert x[HIBERNATION := "on"] == (x - {HIBERNATION})[HIBERNATION := "on"];
          assert y[HIBERNATION := "on"] == (y - {HIBERNATION})[HIBERNATION := "on"];
        }
      case _ =>
    }
  }

  /** Restoring an object that is already back changes nothing that matters. */
  lemma RestoredInPlace(key: Key, original: Body, body: Body)
    requires HasForm(key.kind, original) && Awake(original) && Recordable(original) && Equivalent(body, original)
    ensures Equivalent(Restored(RecordOf(key, original), body), original)
  {
    EquivalentSleepAlike(key, body, original);
    match body {
      case NodeSets(sets) =>
        EquivalentSets(sets, original.sets);
        RestoredSetsInPlace(sets, original.sets);
      case CrdCount(count) =>
        ToInt32Range(count.value);
      case Annotated(x) =>
        var back := Restored(RecordOf(key, original), body).annotations;
        if Lookup(x, HIBERNATION) == "" {
          assert back == x - {HIBERNATION} && back - {HIBERNATION} == back;
        } else {
          assert back == x;
        }
      case _ =>
    }
  }

  lemma RestoredSetsInPlace(sets: seq<NodeSet>, original: seq<NodeSet>)
    requires Equivalent(NodeSets(sets), NodeSets(original)) && Recordable(NodeSets(original))
    ensures Equivalent(NodeSets(WithCounts(sets, Counts(original))), NodeSets(original))
  {
    var back := WithCounts(sets, Counts(original));
    EquivalentSets(sets, original);
    forall i | 0 <= i < |sets|
      ensures back[i].name == original[i].name && back[i].count.GetOr(0) == original[i].count.GetOr(0)
    {
      CountsHasNames(original, i);
      var j := CountsLastWins(original, original[i].name);
      ToInt32Range(original[j].count.GetOr(0));
      assert original[i].count.GetOr(0) == original[j].count.GetOr(0);
    }
    assert Normal(NodeSets(back)).sets == Normal(NodeSets(original)).sets;
  }

  lemma SleptIsNotEquivalent(body: Body)
    requires Awake(body)
    ensures !Equivalent(PutToSleep(body), body)
  {
    if body.NodeSets? {
      var i :| 0 <= i < |body.sets| && NodeSetCount(body.sets[i]) > 0;
      assert Normal(PutToSleep(body)).sets[i].count == Some(0);
      assert Normal(body).sets[i].count == Some(body.sets[i].count.GetOr(0));
    } else if body.Annotated? {
      assert Lookup(Normal(PutToSleep(body)).annotations, HIBERNATION) == "on";
      assert Lookup(Normal(body).annotations, HIBERNATION) != "on";
    }
  }

  // ---------- awake and asleep in plain terms ----------

  /** Nothing is absent that a sleep pass counts, and no count is negative or beyond int32. */
  predicate Countable(body: Body) {
    match body
    case ReplicaSpec(replicas) => replicas.Some? && 0 <= replicas.value < 0x8000_0000
    case CrdCount(count) => count.Some? && 0 <= count.value < 0x8000_0000
    case NodeSets(sets) => forall i :: 0 <= i < |sets| ==> 0 <= sets[i].count.GetOr(0) < 0x8000_0000
    case _ => true
  }

  /** Awake means that sleeping makes a difference, from the first replica on. */
  lemma AwakeMakesADifference(body: Body)
    requires Countable(body)
    ensures Awake(body) <==> !Equivalent(PutToSleep(body), body)
  {
    match body {
      case NodeSets(sets) =>
        forall i | 0 <= i < |sets|
          ensures NodeSetCount(sets[i]) == sets[i].count.GetOr(0)
        {
          ToInt32Range(sets[i].count.GetOr(0));
        }
        if Awake(body) {
          var i :| 0 <= i < |sets| && NodeSetCount(sets[i]) > 0;
          assert Normal(PutToSleep(body)).sets[i].count == Some(0);
          assert Normal(body).sets[i].count == Some(sets[i].count.GetOr(0));
        } else {
          assert Normal(PutToSleep(body)).sets == Normal(body).sets;
        }
      case CrdCount(count) => ToInt32Range(count.value);
      case Annotated(annotations) =>
        if Lookup(annotations, HIBERNATION) == "on" {
          assert annotations[HIBERNATION := "on"] == annotations;
        } else {
          assert Lookup(Normal(PutToSleep(body)).annotations, HIBERNATION) == "on";
          assert Lookup(Normal(body).annotations, HIBERNATION) != "on";
        }
      case _ =>
    }
  }

  /** What is absent where a count or replica number is expected counts as asleep, so it is never touched. */
  lemma AbsentIsAsleep()
    ensures !Awake(ReplicaSpec(None)) && !Awake(CrdCount(None)) && !Awake(NodeSets([NodeSet("data", None)]))
    ensures Awake(JobSuspend(None)) && Awake(CrdSuspend(None)) && Awake(Annotated(map[]))
  {
  }

  /** A slept object runs nothing. */
  lemma SleptRunsNothing(body: Body)
    ensures
      match PutToSleep(body)
      case ReplicaSpec(replicas) => replicas == Some(0)
      case JobSuspend(suspend) => suspend == Some(true)
      case Annotated(annotations) => "cnpg.io/hibernation" in annotations && annotations["cnpg.io/hibernation"] == "on"
      case CrdSuspend(suspended) => suspended == Some(true)
      case CrdCount(count) => count == Some(0)
      case NodeSets(sets) => forall i :: 0 <= i < |sets| ==> sets[i].count == Some(0)
  {
  }


  // ---------- restoring in plain terms ----------

  /** What was suspended is resumed explicitly, even if the field was absent before. */
  lemma ResumedExplicitly(key: Key, body: Body)
    requires Awake(body) && (body.JobSuspend? || body.CrdSuspend?)
    ensures
      var back := Restored(RecordOf(key, body), PutToSleep(body));
      back == JobSuspend(Some(false)) || back == CrdSuspend(Some(false))
  {
  }

  /** A record that lacks its original: counts and jobs are left alone, a suspension and a hibernation are lifted. */
  lemma IncompleteRecord(r: Record, body: Body)
    requires r.replicas == None && r.suspend == None && r.hibernation == None && r.nodeSetCounts == None
    ensures
      match body
      case ReplicaSpec(_) | JobSuspend(_) | CrdCount(_) | NodeSets(_) =>
        !WakeWrites(r, body) && Restored(r, body) == body
      case CrdSuspend(_) => WakeWrites(r, body) && Restored(r, body) == CrdSuspend(None)
      case Annotated(annotations) => WakeWrites(r, body) && Restored(r, body) == Annotated(annotations - {HIBERNATION})
  {
  }
}
