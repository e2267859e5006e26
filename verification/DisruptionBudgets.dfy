/** Which pods may be evicted, which workload they belong to, and how many evictions each workload can bear. */
module DisruptionBudgets {
  import opened Common
  import opened PodPlacement

  datatype ControllerKind = Deployment | StatefulSet
  datatype WorkloadRef = WorkloadRef(ns: string, kind: ControllerKind, name: string)

  /** ReplicaSets by namespace and name: their owners. */
  type ReplicaSets = map<PodKey, seq<OwnerRef>>

  type Labels = map<string, string>

  /** Pod template labels and ready replicas of a Deployment or StatefulSet. */
  datatype Replicated = Replicated(labels: Labels, ready: nat)

  /** A disruption budget; matches is None when its selector is absent or does not parse. */
  datatype Pdb = Pdb(ns: string, matches: Option<Labels -> bool>, allowed: nat)

  function FirstDeployment(ns: string, owners: seq<OwnerRef>): Option<WorkloadRef> {
    if owners == [] then None
    else if owners[0].kind == "Deployment" then Some(WorkloadRef(ns, Deployment, owners[0].name))
    else FirstDeployment(ns, owners[1..])
  }

  /** The replicating controller behind a pod: the first StatefulSet or ReplicaSet owner decides. */
  function ResolveOwners(ns: string, owners: seq<OwnerRef>, rs: ReplicaSets): Option<WorkloadRef> {
    if owners == [] then None
    else if owners[0].kind == "StatefulSet" then Some(WorkloadRef(ns, StatefulSet, owners[0].name))
    else if owners[0].kind == "ReplicaSet" then
      var key := PodKey(ns, owners[0].name);
      if key in rs then FirstDeployment(ns, rs[key]) else None
    else ResolveOwners(ns, owners[1..], rs)
  }

  function ResolveWorkload(pod: Pod, rs: ReplicaSets): Option<WorkloadRef> {
    ResolveOwners(pod.key.ns, pod.owners, rs)
  }

  predicate DaemonSetOwned(owners: seq<OwnerRef>) {
    exists i :: 0 <= i < |owners| && owners[i].kind == "DaemonSet"
  }

  predicate IsEvictable(pod: Pod, excluded: set<string>, included: set<string>, rs: ReplicaSets) {
    && pod.key.ns !in excluded
    && (included == {} || pod.key.ns in included)
    && !pod.mirror
    && pod.owners != []
    && !DaemonSetOwned(pod.owners)
    && (forall i :: 0 <= i < |pod.owners| && pod.owners[i].kind == "ReplicaSet" ==>
          var key := PodKey(pod.key.ns, pod.owners[i].name);
          key in rs ==> !DaemonSetOwned(rs[key]))
    && ResolveWorkload(pod, rs).Some?
    && !pod.hostPath
    && !pod.terminating
  }

  /** Whether a pod may be evicted at all, owner by owner. */
  method CheckEvictable(pod: Pod, excluded: set<string>, included: set<string>, rs: ReplicaSets)
    returns (evictable: bool)
    ensures evictable <==> IsEvictable(pod, excluded, included, rs)
  {
    if pod.key.ns in excluded {
      return false;
    }
    if included != {} && pod.key.ns !in included {
      return false;
    }
    if pod.mirror {
      return false;
    }
    if |pod.owners| == 0 {
      return false;
    }
    for i := 0 to |pod.owners|
      invariant forall j :: 0 <= j < i ==> pod.owners[j].kind != "DaemonSet"
      invariant forall j :: 0 <= j < i && pod.owners[j].kind == "ReplicaSet" ==>
        var key := PodKey(pod.key.ns, pod.owners[j].name);
        key in rs ==> !DaemonSetOwned(rs[key])
    {
      if pod.owners[i].kind == "DaemonSet" {
        return false;
      }
      if pod.owners[i].kind == "ReplicaSet" {
        var key := PodKey(pod.key.ns, pod.owners[i].name);
        if key in rs && exists j :: 0 <= j < |rs[key]| && rs[key][j].kind == "DaemonSet" {
          return false;
        }
      }
    }
    return ResolveWorkload(pod, rs).Some? && !pod.hostPath && !pod.terminating;
  }

  /** A pod of a Deployment's ReplicaSet may be evicted from every namespace that is not excluded, as long as none is
      listed as included, if nothing else speaks against it. */
  lemma OrdinaryPodIsEvictable(pod: Pod, excluded: set<string>, rs: ReplicaSets, set0: OwnerRef, deployment: OwnerRef)
    requires pod.owners == [set0] && set0.kind == "ReplicaSet"
    requires PodKey(pod.key.ns, set0.name) in rs && rs[PodKey(pod.key.ns, set0.name)] == [deployment]
    requires deployment.kind == "Deployment"
    ensures IsEvictable(pod, excluded, {}, rs) <==>
      pod.key.ns !in excluded && !pod.mirror && !pod.hostPath && !pod.terminating
  {
  }

  /** The i-th owner is the first one of these kinds. */
  ghost predicate FirstOf(owners: seq<OwnerRef>, kinds: set<string>, i: int) {
    0 <= i < |owners| && owners[i].kind in kinds && forall j :: 0 <= j < i ==> owners[j].kind !in kinds
  }

  lemma FirstOfRest(owners: seq<OwnerRef>, kinds: set<string>, i: int)
    requires owners != [] && owners[0].kind !in kinds
    ensures FirstOf(owners, kinds, i) <==> FirstOf(owners[1..], kinds, i - 1)
  {
    if FirstOf(owners, kinds, i) {
      assert forall j :: 0 <= j < i - 1 ==> owners[1..][j] == owners[j + 1];
    }
    if FirstOf(owners[1..], kinds, i - 1) {
      forall j | 0 <= j < i
        ensures owners[j].kind !in kinds
      {
        assert j > 0 ==> owners[j] == owners[1..][j - 1];
      }
    }
  }

  /** The first owner of these kinds decides. */
  lemma {:induction false} FirstDecides(owners: seq<OwnerRef>, kinds: set<string>) returns (i: int)
    ensures if exists o :: o in owners && o.kind in kinds then FirstOf(owners, kinds, i) else i == |owners|
  {
    if owners == [] {
      i := 0;
    } else if owners[0].kind in kinds {
      i := 0;
    } else {
      i := FirstDecides(owners[1..], kinds);
      i := i + 1;
      FirstOfRest(owners, kinds, i);
      if o :| o in owners && o.kind in kinds {
        assert o in owners[1..];
      }
    }
  }

  lemma {:induction false} FirstDeploymentDecides(ns: string, owners: seq<OwnerRef>, i: int)
    requires FirstOf(owners, {"Deployment"}, i)
    ensures FirstDeployment(ns, owners) == Some(WorkloadRef(ns, Deployment, owners[i].name))
    decreases |owners|
  {
    if i == 0 {
    } else {
      FirstOfRest(owners, {"Deployment"}, i);
      FirstDeploymentDecides(ns, owners[1..], i - 1);
    }
  }

  lemma {:induction false} NoDeployment(ns: string, owners: seq<OwnerRef>)
    requires forall o :: o in owners ==> o.kind != "Deployment"
    ensures FirstDeployment(ns, owners) == None
  {
    if owners == [] {
    } else {
      assert owners[0] in owners;
      NoDeployment(ns, owners[1..]);
    }
  }

  lemma {:induction false} FirstControllerDecides(ns: string, owners: seq<OwnerRef>, rs: ReplicaSets, i: int)
    requires FirstOf(owners, {"StatefulSet", "ReplicaSet"}, i)
    ensures ResolveOwners(ns, owners, rs) ==
      if owners[i].kind == "StatefulSet" then Some(WorkloadRef(ns, StatefulSet, owners[i].name))
      else if PodKey(ns, owners[i].name) in rs then FirstDeployment(ns, rs[PodKey(ns, owners[i].name)])
      else None
    decreases |owners|
  {
    if i == 0 {
    } else {
      FirstOfRest(owners, {"StatefulSet", "ReplicaSet"}, i);
      FirstControllerDecides(ns, owners[1..], rs, i - 1);
    }
  }

  lemma {:induction false} NoController(ns: string, owners: seq<OwnerRef>, rs: ReplicaSets)
    requires forall o :: o in owners ==> o.kind !in {"StatefulSet", "ReplicaSet"}
    ensures ResolveOwners(ns, owners, rs) == None
  {
    if owners == [] {
    } else {
      assert owners[0] in owners;
      NoController(ns, owners[1..], rs);
    }
  }

  /** A pod belongs to a StatefulSet exactly if its first StatefulSet or ReplicaSet owner is that one, and to a
      Deployment exactly if this owner is a known ReplicaSet of which the Deployment is the first Deployment owner. */
  lemma ResolvesByFirstController(pod: Pod, rs: ReplicaSets, wl: WorkloadRef)
    ensures ResolveWorkload(pod, rs) == Some(wl) <==>
      wl.ns == pod.key.ns && exists i ::
        && FirstOf(pod.owners, {"StatefulSet", "ReplicaSet"}, i)
        && if pod.owners[i].kind == "StatefulSet" then wl.kind == StatefulSet && wl.name == pod.owners[i].name
           else
             && wl.kind == Deployment && PodKey(wl.ns, pod.owners[i].name) in rs
             && exists j ::
                  FirstOf(rs[PodKey(wl.ns, pod.owners[i].name)], {"Deployment"}, j) &&
                  rs[PodKey(wl.ns, pod.owners[i].name)][j].name == wl.name
  {
    var i := FirstDecides(pod.owners, {"StatefulSet", "ReplicaSet"});
    if i == |pod.owners| {
      NoController(pod.key.ns, pod.owners, rs);
    } else {
      FirstControllerDecides(pod.key.ns, pod.owners, rs, i);
      var key := PodKey(pod.key.ns, pod.owners[i].name);
      if pod.owners[i].kind == "ReplicaSet" && key in rs {
        var j := FirstDecides(rs[key], {"Deployment"});
        if j == |rs[key]| {
          NoDeployment(pod.key.ns, rs[key]);
        } else {
          FirstDeploymentDecides(pod.key.ns, rs[key], j);
        }
      }
    }
  }

  /** A PDB of the workload's namespace selects its pods; a missing workload has no labels. */
  predicate Guards(pdb: Pdb, wl: WorkloadRef, labels: Labels) {
    pdb.ns == wl.ns && pdb.matches.Some? && pdb.matches.value(labels)
  }

  function LabelsOf(wl: WorkloadRef, workloads: map<WorkloadRef, Replicated>): Labels {
    if wl in workloads then workloads[wl].labels else map[]
  }

  function ReadyOf(wl: WorkloadRef, workloads: map<WorkloadRef, Replicated>): nat {
    if wl in workloads then workloads[wl].ready else 0
  }

  /** The budget of a workload: the tightest matching PDB, or all but one of its ready replicas without one. */
  ghost predicate IsBudget(wl: WorkloadRef, pdbs: seq<Pdb>, workloads: map<WorkloadRef, Replicated>, b: int) {
    var labels := LabelsOf(wl, workloads);
    if exists i :: 0 <= i < |pdbs| && Guards(pdbs[i], wl, labels) then
      && (exists i :: 0 <= i < |pdbs| && Guards(pdbs[i], wl, labels) && pdbs[i].allowed == b)
      && (forall i :: 0 <= i < |pdbs| && Guards(pdbs[i], wl, labels) ==> b <= pdbs[i].allowed)
    else b == ReadyOf(wl, workloads) - 1
  }

  method WorkloadBudget(wl: WorkloadRef, pdbs: seq<Pdb>, workloads: map<WorkloadRef, Replicated>)
    returns (b: int)
    ensures IsBudget(wl, pdbs, workloads, b)
  {
    var podLabels: Labels := map[];
    var readyReplicas: int := 0;
    if wl in workloads {
      podLabels, readyReplicas := workloads[wl].labels, workloads[wl].ready;
    }
    var budget := -1;
    for i := 0 to |pdbs|
      invariant budget == -1 <==> forall j :: 0 <= j < i ==> !Guards(pdbs[j], wl, podLabels)
      invariant budget >= -1
      invariant budget >= 0 ==> exists j :: 0 <= j < i && Guards(pdbs[j], wl, podLabels) && pdbs[j].allowed == budget
      invariant forall j :: 0 <= j < i && Guards(pdbs[j], wl, podLabels) ==> budget <= pdbs[j].allowed
    {
      if pdbs[i].ns != wl.ns {
        continue;
      }
      if pdbs[i].matches.None? {
        continue;
      }
      if pdbs[i].matches.value(podLabels) {
        assert Guards(pdbs[i], wl, podLabels);
        if budget == -1 || pdbs[i].allowed < budget {
          budget := pdbs[i].allowed;
        }
      }
    }
    if budget >= 0 {
      return budget;
    }
    return readyReplicas - 1;
  }

  /** Resolves every evictable pod of the candidates and collects the workloads it meets. */
  method ResolvePods(pods: seq<Pod>, rs: ReplicaSets)
    returns (found: map<PodKey, WorkloadRef>, refs: set<WorkloadRef>)
    requires forall i, j :: 0 <= i < j < |pods| ==> pods[i].key != pods[j].key
    ensures ResolvesPods(found, pods, rs)
    ensures refs == found.Values
  {
    found, refs := map[], {};
    for i := 0 to |pods|
      invariant ResolvesFirst(found, pods, i, rs)
      invariant refs == found.Values
    {
      var wl := ResolveWorkload(pods[i], rs);
      if wl.Some? {
        ResolvesOneMore(found, pods, i, rs);
        found := found[pods[i].key := wl.value];
        refs := refs + {wl.value};
      }
    }
  }

  lemma ResolvesOneMore(found: map<PodKey, WorkloadRef>, pods: seq<Pod>, n: nat, rs: ReplicaSets)
    requires forall i, j :: 0 <= i < j < |pods| ==> pods[i].key != pods[j].key
    requires n < |pods| && ResolvesFirst(found, pods, n, rs) && ResolveWorkload(pods[n], rs).Some?
    ensures
      var more := found[pods[n].key := ResolveWorkload(pods[n], rs).value];
      ResolvesFirst(more, pods, n + 1, rs) && more.Values == found.Values + {ResolveWorkload(pods[n], rs).value}
  {
    var key, wl := pods[n].key, ResolveWorkload(pods[n], rs).value;
    var more := found[key := wl];
    assert key !in found;
    assert more[key] == wl && forall k :: k in found ==> more[k] == found[k];
    assert more.Values == found.Values + {wl};
  }

  method ComputeBudgets(refs: set<WorkloadRef>, pdbs: seq<Pdb>, workloads: map<WorkloadRef, Replicated>)
    returns (budgets: map<WorkloadRef, int>)
    ensures budgets.Keys == refs
    ensures forall wl :: wl in budgets ==> IsBudget(wl, pdbs, workloads, budgets[wl])
  {
    budgets := map[];
    var todo := refs;
    while todo != {}
      invariant todo <= refs && budgets.Keys == refs - todo
      invariant forall wl :: wl in budgets ==> IsBudget(wl, pdbs, workloads, budgets[wl])
      decreases todo
    {
      var wl :| wl in todo;
      var b := WorkloadBudget(wl, pdbs, workloads);
      budgets := budgets[wl := b];
      todo := todo - {wl};
    }
  }

  /** The safety facts the planner works from. */
  class SafetyContext {
    var podWorkloads: map<PodKey, WorkloadRef>
    var disruptionBudget: map<WorkloadRef, int>

    constructor (podWorkloads: map<PodKey, WorkloadRef>, disruptionBudget: map<WorkloadRef, int>)
      ensures this.podWorkloads == podWorkloads && this.disruptionBudget == disruptionBudget
    {
      this.podWorkloads, this.disruptionBudget := podWorkloads, disruptionBudget;
    }
  }

  /** What the three Lists behind the budgets returned; None is a List that failed. */
  datatype Listing = Listing(
    pdbs: Option<seq<Pdb>>, deployments: Option<map<WorkloadRef, Replicated>>,
    statefulSets: Option<map<WorkloadRef, Replicated>>)
  {
    predicate Complete() {
      pdbs.Some? && deployments.Some? && statefulSets.Some?
    }

    function Workloads(): map<WorkloadRef, Replicated> {
      deployments.GetOr(map[]) + statefulSets.GetOr(map[])
    }
  }

  /** Computes the safety context of the candidates' pods; None if a List was needed and failed. */
  method BuildSafetyContext(pods: seq<Pod>, rs: ReplicaSets, listing: Listing)
    returns (safety: Option<SafetyContext>)
    requires forall i, j :: 0 <= i < j < |pods| ==> pods[i].key != pods[j].key
    ensures safety.None? <==>
      !listing.Complete() && exists i :: 0 <= i < |pods| && ResolveWorkload(pods[i], rs).Some?
    ensures safety.Some? ==>
      && fresh(safety.value)
      && IsSafetyOf(safety.value.podWorkloads, safety.value.disruptionBudget, pods, rs, listing.pdbs.GetOr([]),
                    listing.Workloads())
  {
    var found, refs := ResolvePods(pods, rs);
    assert forall i :: 0 <= i < |pods| && ResolveWorkload(pods[i], rs).Some? ==>
      pods[i].key in found && found[pods[i].key] in refs;
    if refs == {} {
      var empty := new SafetyContext(found, map[]);
      return Some(empty);
    }
    assert exists i :: 0 <= i < |pods| && ResolveWorkload(pods[i], rs).Some? by {
      var k :| k in found;
      var i :| 0 <= i < |pods| && pods[i].key == k;
    }
    if listing.pdbs.None? {
      return None;
    }
    if listing.deployments.None? {
      return None;
    }
    if listing.statefulSets.None? {
      return None;
    }
    var budgets := ComputeBudgets(refs, listing.pdbs.value, listing.deployments.value + listing.statefulSets.value);
    var context := new SafetyContext(found, budgets);
    return Some(context);
  }

  /** What a safety context knows about the candidates' pods. */
  ghost predicate IsSafetyOf(
    podWorkloads: map<PodKey, WorkloadRef>, budget: map<WorkloadRef, int>,
    pods: seq<Pod>, rs: ReplicaSets, pdbs: seq<Pdb>, workloads: map<WorkloadRef, Replicated>)
  {
    && ResolvesPods(podWorkloads, pods, rs)
    && budget.Keys == podWorkloads.Values
    && forall wl :: wl in budget ==> IsBudget(wl, pdbs, workloads, budget[wl])
  }

  /** The table holds exactly the resolvable ones among the first n pods. */
  ghost predicate ResolvesFirst(podWorkloads: map<PodKey, WorkloadRef>, pods: seq<Pod>, n: nat, rs: ReplicaSets)
    requires n <= |pods|
  {
    && (forall i :: 0 <= i < n ==>
          if ResolveWorkload(pods[i], rs).Some?
          then pods[i].key in podWorkloads && podWorkloads[pods[i].key] == ResolveWorkload(pods[i], rs).value
          else pods[i].key !in podWorkloads)
    && (forall k :: k in podWorkloads ==> exists i :: 0 <= i < n && pods[i].key == k)
  }

  /** The pod-to-workload table holds exactly the resolvable pods. */
  ghost predicate ResolvesPods(podWorkloads: map<PodKey, WorkloadRef>, pods: seq<Pod>, rs: ReplicaSets) {
    ResolvesFirst(podWorkloads, pods, |pods|, rs)
  }

  lemma BudgetIsUnique(
    wl: WorkloadRef, pdbs: seq<Pdb>, workloads: map<WorkloadRef, Replicated>, a: int, b: int)
    requires IsBudget(wl, pdbs, workloads, a) && IsBudget(wl, pdbs, workloads, b)
    ensures a == b
  {
    var labels := LabelsOf(wl, workloads);
    if exists i :: 0 <= i < |pdbs| && Guards(pdbs[i], wl, labels) {
      var i :| 0 <= i < |pdbs| && Guards(pdbs[i], wl, labels) && pdbs[i].allowed == a;
      var j :| 0 <= j < |pdbs| && Guards(pdbs[j], wl, labels) && pdbs[j].allowed == b;
    }
  }

  /** A workload that does not exist has a positive budget exactly when some PDB of its namespace selects the empty
      label set and every such PDB allows disruptions. */
  lemma MissingWorkloadBudget(
    wl: WorkloadRef, pdbs: seq<Pdb>, workloads: map<WorkloadRef, Replicated>, b: int)
    requires wl !in workloads && IsBudget(wl, pdbs, workloads, b)
    ensures b > 0 <==>
      && (exists i :: 0 <= i < |pdbs| && Guards(pdbs[i], wl, map[]))
      && (forall i :: 0 <= i < |pdbs| && Guards(pdbs[i], wl, map[]) ==> pdbs[i].allowed > 0)
  {
    if exists i :: 0 <= i < |pdbs| && Guards(pdbs[i], wl, map[]) {
      var i :| 0 <= i < |pdbs| && Guards(pdbs[i], wl, map[]) && pdbs[i].allowed == b;
    }
  }

  /** An empty selector selects every label set, so its PDB lends a budget even to a workload that is gone. */
  lemma EmptySelectorLendsBudget()
    ensures
      IsBudget(WorkloadRef("ns", Deployment, "gone"), [Pdb("ns", Some((labels: Labels) => true), 3)], map[], 3)
  {
    var pdbs := [Pdb("ns", Some((labels: Labels) => true), 3)];
    assert Guards(pdbs[0], WorkloadRef("ns", Deployment, "gone"), map[]) && pdbs[0].allowed == 3;
  }


  /** The budget in plain terms: no more than any PDB of the workload's own namespace allows that selects its pods,
      and one less than its ready replicas if there is no such PDB; a missing workload has no labels and no replicas. */
  lemma BudgetMeaning(wl: WorkloadRef, pdbs: seq<Pdb>, workloads: map<WorkloadRef, Replicated>, b: int)
    requires IsBudget(wl, pdbs, workloads, b)
    ensures
      var labels: Labels := if wl in workloads then workloads[wl].labels else map[];
      forall i :: 0 <= i < |pdbs| && pdbs[i].ns == wl.ns && pdbs[i].matches.Some? && pdbs[i].matches.value(labels) ==>
        b <= pdbs[i].allowed
    ensures
      (forall i :: 0 <= i < |pdbs| ==> pdbs[i].ns != wl.ns || pdbs[i].matches.None?) ==>
        b == (if wl in workloads then workloads[wl].ready else 0) - 1
  {
    var labels := LabelsOf(wl, workloads);
    forall i | 0 <= i < |pdbs| && pdbs[i].ns == wl.ns && pdbs[i].matches.Some? && pdbs[i].matches.value(labels)
      ensures Guards(pdbs[i], wl, labels)
    {
    }
  }
}
