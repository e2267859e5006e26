/**
 The bin packer's planner: a greedy first-fit simulation over mutable node loads, per-workload disruption budgets and
 an eviction cap. The method works on node objects in place and is proved to compute the simulation PlanAll, whose
 properties are proved below for every input.
 */
module ConsolidationPlan {
  import opened Common
  import opened PodPlacement
  import opened DisruptionBudgets

  /** A node during the simulation: fixed description, growing load. */
  class NodeInfo {
    const spec: NodeSpec
    var scheduled: Requests

    constructor (spec: NodeSpec, scheduled: Requests)
      ensures this.spec == spec && this.scheduled == scheduled
    {
      this.spec, this.scheduled := spec, scheduled;
    }
  }

  datatype Candidate = Candidate(name: string, evictablePods: seq<Pod>)

  /** A candidate's pod, considered for eviction. */
  datatype Item = Item(source: string, pod: Pod)

  datatype Move = Move(item: Item, target: nat)

  datatype PlannedEviction = PlannedEviction(pod: PodKey, source: string, target: string)

  /** The pods in the order the planner considers them. */
  function PodItems(source: string, pods: seq<Pod>): seq<Item> {
    seq(|pods|, i requires 0 <= i < |pods| => Item(source, pods[i]))
  }

  function Items(candidates: seq<Candidate>): seq<Item> {
    if candidates == [] then []
    else PodItems(candidates[0].name, candidates[0].evictablePods) + Items(candidates[1..])
  }

  /** Pods are considered candidate by candidate, in order, and within a candidate in its pods' order. */
  lemma {:induction false} ItemsInOrder(a: seq<Candidate>, b: seq<Candidate>)
    ensures Items(a + b) == Items(a) + Items(b)
    ensures forall c :: Items([c]) == PodItems(c.name, c.evictablePods)
    decreases |a|
  {
    forall c
      ensures Items([c]) == PodItems(c.name, c.evictablePods)
    {
      assert [c][1..] == [];
    }
    if a == [] {
      assert a + b == b;
    } else {
      assert (a + b)[1..] == a[1..] + b;
      ItemsInOrder(a[1..], b);
    }
  }

  // ---------- the simulation ----------

  /** What does not change while planning. */
  datatype Problem = Problem(targets: seq<NodeSpec>, podWorkloads: map<PodKey, WorkloadRef>)

  datatype Sim = Sim(loads: seq<Requests>, budget: map<WorkloadRef, int>, moves: seq<Move>)

  function BudgetLeft(budget: map<WorkloadRef, int>, wl: WorkloadRef): int {
    if wl in budget then budget[wl] else 0
  }

  ghost predicate FitsTarget(p: Problem, s: Sim, pod: Pod, i: int) {
    0 <= i < |p.targets| && i < |s.loads| && Fits(pod, p.targets[i], s.loads[i])
  }

  /** The least target from i on that the pod fits on, or the number of targets. */
  ghost function FirstFit(p: Problem, s: Sim, pod: Pod, i: nat): (k: nat)
    requires i <= |p.targets| == |s.loads|
    ensures i <= k <= |p.targets|
    ensures k < |p.targets| ==> FitsTarget(p, s, pod, k)
    ensures forall j :: i <= j < k ==> !FitsTarget(p, s, pod, j)
    decreases |p.targets| - i
  {
    if i == |p.targets| || FitsTarget(p, s, pod, i) then i else FirstFit(p, s, pod, i + 1)
  }

  /** The pod's workload may not lose another pod. */
  ghost predicate Exhausted(p: Problem, s: Sim, pod: Pod) {
    pod.key in p.podWorkloads && BudgetLeft(s.budget, p.podWorkloads[pod.key]) <= 0
  }

  function Loaded(load: Requests, r: Requests): Requests {
    Requests(load.cpu + r.cpu, load.mem + r.mem)
  }

  function Charged(p: Problem, budget: map<WorkloadRef, int>, pod: Pod): map<WorkloadRef, int> {
    if pod.key in p.podWorkloads
    then var wl := p.podWorkloads[pod.key]; budget[wl := BudgetLeft(budget, wl) - 1]
    else budget
  }

  /** One pod: skipped if its budget is exhausted or it fits nowhere, otherwise moved to the first fitting target. */
  ghost function PlanOne(p: Problem, s: Sim, item: Item): (s': Sim)
    requires |p.targets| == |s.loads|
    ensures |s'.loads| == |s.loads|
  {
    if Exhausted(p, s, item.pod) then s
    else
      var k := FirstFit(p, s, item.pod, 0);
      if k == |p.targets| then s
      else Sim(s.loads[k := Loaded(s.loads[k], PodRequests(item.pod))],
               Charged(p, s.budget, item.pod), s.moves + [Move(item, k)])
  }

  /** A positive cap stops the planning once that many pods are planned. */
  ghost predicate Capped(s: Sim, cap: int) {
    cap > 0 && |s.moves| >= cap
  }

  ghost function PlanAll(p: Problem, s: Sim, items: seq<Item>, cap: int): (s': Sim)
    requires |p.targets| == |s.loads|
    ensures |s'.loads| == |s.loads|
    decreases |items|
  {
    if items == [] || Capped(s, cap) then s else PlanAll(p, PlanOne(p, s, items[0]), items[1..], cap)
  }

  /** Whatever is moved was considered. */
  lemma {:induction false} MovesComeFromItems(p: Problem, s: Sim, items: seq<Item>, cap: int)
    requires |p.targets| == |s.loads|
    ensures forall m :: m in PlanAll(p, s, items, cap).moves ==> m in s.moves || m.item in items
    decreases |items|
  {
    if items == [] {
    } else if !Capped(s, cap) {
      assert items[0] in items;
      MovesComeFromItems(p, PlanOne(p, s, items[0]), items[1..], cap);
    }
  }

  /** Every item considered is a pod of the candidate it names. */
  lemma {:induction false} ItemsComeFromCandidates(candidates: seq<Candidate>, item: Item)
    requires item in Items(candidates)
    ensures exists i ::
      0 <= i < |candidates| && item.source == candidates[i].name && item.pod in candidates[i].evictablePods
    decreases |candidates|
  {
    var first := PodItems(candidates[0].name, candidates[0].evictablePods);
    if item in first {
      var j :| 0 <= j < |first| && first[j] == item;
      assert item.source == candidates[0].name && item.pod in candidates[0].evictablePods;
    } else {
      ItemsComeFromCandidates(candidates[1..], item);
      var i :| 0 <= i < |candidates[1..]| &&
        item.source == candidates[1..][i].name && item.pod in candidates[1..][i].evictablePods;
      assert candidates[i + 1] == candidates[1..][i];
    }
  }

  ghost function Evictions(p: Problem, moves: seq<Move>): seq<PlannedEviction>
    requires forall m :: m in moves ==> m.target < |p.targets|
  {
    seq(|moves|, i requires 0 <= i < |moves| =>
      assert moves[i] in moves;
      PlannedEviction(moves[i].item.pod.key, moves[i].item.source, p.targets[moves[i].target].name))
  }

  // ---------- the code ----------

  function TargetsOf(nodes: seq<NodeInfo>, candidateNames: set<string>): seq<NodeInfo> {
    if nodes == [] then []
    else
      var rest := TargetsOf(nodes[..|nodes| - 1], candidateNames);
      if nodes[|nodes| - 1].spec.name in candidateNames then rest else rest + [nodes[|nodes| - 1]]
  }

  function NamesOf(candidates: seq<Candidate>): set<string> {
    set i | 0 <= i < |candidates| :: candidates[i].name
  }

  ghost function Specs(nodes: seq<NodeInfo>): seq<NodeSpec> {
    seq(|nodes|, i requires 0 <= i < |nodes| => nodes[i].spec)
  }

  ghost function Loads(nodes: seq<NodeInfo>): seq<Requests>
    reads nodes
  {
    seq(|nodes|, i requires 0 <= i < |nodes| reads nodes => nodes[i].scheduled)
  }

  lemma {:induction false} TargetsAreNodes(nodes: seq<NodeInfo>, names: set<string>)
    requires Distinct(nodes)
    ensures
      var targets := TargetsOf(nodes, names);
      && Distinct(targets)
      && forall n :: n in targets <==> n in nodes && n.spec.name !in names
  {
    if nodes == [] {
    } else {
      var front, last := nodes[..|nodes| - 1], nodes[|nodes| - 1];
      TargetsAreNodes(front, names);
      assert last !in front;
      assert nodes == front + [last];
    }
  }

  /** Finds the first target that takes the pod and books the pod's requests on it; |targets| if there is none. */
  method FindTargetNode(pod: Pod, targets: seq<NodeInfo>, ghost p: Problem, ghost s: Sim) returns (k: nat)
    requires Distinct(targets) && p.targets == Specs(targets) && s.loads == Loads(targets)
    modifies targets
    ensures k == FirstFit(p, s, pod, 0)
    ensures k == |targets| ==> Loads(targets) == s.loads
    ensures k < |targets| ==> Loads(targets) == s.loads[k := Loaded(s.loads[k], PodRequests(pod))]
  {
    var r := ComputePodRequests(pod);
    for i := 0 to |targets|
      invariant Loads(targets) == s.loads
      invariant FirstFit(p, s, pod, 0) == FirstFit(p, s, pod, i)
    {
      assert p.targets[i] == targets[i].spec && s.loads[i] == targets[i].scheduled;
      var fits := CanFitOnNode(pod, targets[i].spec, targets[i].scheduled, r);
      if fits {
        targets[i].scheduled := Requests(targets[i].scheduled.cpu + r.cpu, targets[i].scheduled.mem + r.mem);
        forall j | 0 <= j < |targets|
          ensures targets[j].scheduled == if j == i then Loaded(s.loads[i], PodRequests(pod)) else s.loads[j]
        {
          assert old(targets[j].scheduled) == s.loads[j] && (j != i ==> targets[j] != targets[i]);
        }
        return i;
      }
    }
    return |targets|;
  }

  lemma EvictionsAppend(p: Problem, moves: seq<Move>, m: Move)
    requires forall x :: x in moves + [m] ==> x.target < |p.targets|
    ensures Evictions(p, moves + [m]) ==
      Evictions(p, moves) + [PlannedEviction(m.item.pod.key, m.item.source, p.targets[m.target].name)]
  {
  }

  /** Considers one pod: skipped if its budget is exhausted or it fits nowhere, planned otherwise. */
  method PlanPod(
    source: string, pod: Pod, targets: seq<NodeInfo>, safety: SafetyContext, plan0: seq<PlannedEviction>,
    ghost p: Problem, ghost s0: Sim)
    returns (plan: seq<PlannedEviction>, ghost s: Sim)
    requires Distinct(targets) && p == Problem(Specs(targets), safety.podWorkloads)
    requires s0.loads == Loads(targets) && s0.budget == safety.disruptionBudget
    requires (forall m :: m in s0.moves ==> m.target < |p.targets|) && plan0 == Evictions(p, s0.moves)
    modifies targets, safety`disruptionBudget
    ensures s.loads == Loads(targets) && s.budget == safety.disruptionBudget
    ensures (forall m :: m in s.moves ==> m.target < |p.targets|) && plan == Evictions(p, s.moves)
    ensures s == PlanOne(p, s0, Item(source, pod))
  {
    plan, s := plan0, s0;
    if pod.key in safety.podWorkloads {
      var wl := safety.podWorkloads[pod.key];
      if wl !in safety.disruptionBudget || safety.disruptionBudget[wl] <= 0 {
        return;
      }
    }
    var k := FindTargetNode(pod, targets, p, s);
    if k == |targets| {
      return;
    }
    if pod.key in safety.podWorkloads {
      var wl := safety.podWorkloads[pod.key];
      safety.disruptionBudget := safety.disruptionBudget[wl := safety.disruptionBudget[wl] - 1];
    }
    EvictionsAppend(p, s.moves, Move(Item(source, pod), k));
    plan := plan + [PlannedEviction(pod.key, source, targets[k].spec.name)];
    s := PlanOne(p, s, Item(source, pod));
  }

  /** Plans the pods of one candidate; stopped tells that the cap was hit. */
  method PlanCandidate(
    c: Candidate, targets: seq<NodeInfo>, cap: int, safety: SafetyContext, plan0: seq<PlannedEviction>,
    ghost p: Problem, ghost s0: Sim)
    returns (plan: seq<PlannedEviction>, stopped: bool, ghost s: Sim)
    requires Distinct(targets) && p == Problem(Specs(targets), safety.podWorkloads)
    requires s0.loads == Loads(targets) && s0.budget == safety.disruptionBudget
    requires (forall m :: m in s0.moves ==> m.target < |p.targets|) && plan0 == Evictions(p, s0.moves)
    modifies targets, safety`disruptionBudget
    ensures s.loads == Loads(targets) && s.budget == safety.disruptionBudget
    ensures (forall m :: m in s.moves ==> m.target < |p.targets|) && plan == Evictions(p, s.moves)
    ensures s == PlanAll(p, s0, PodItems(c.name, c.evictablePods), cap)
    ensures stopped ==> Capped(s, cap)
  {
    plan, stopped, s := plan0, false, s0;
    ghost var items := PodItems(c.name, c.evictablePods);
    for i := 0 to |c.evictablePods|
      invariant s.loads == Loads(targets) && s.budget == safety.disruptionBudget
      invariant (forall m :: m in s.moves ==> m.target < |p.targets|) && plan == Evictions(p, s.moves)
      invariant PlanAll(p, s0, items, cap) == PlanAll(p, s, items[i..], cap)
    {
      assert items[i..][0] == Item(c.name, c.evictablePods[i]) && items[i..][1..] == items[i + 1..];
      if cap > 0 && |plan| >= cap {
        return plan, true, s;
      }
      plan, s := PlanPod(c.name, c.evictablePods[i], targets, safety, plan, p, s);
    }
    assert items[|c.evictablePods|..] == [];
  }

  lemma {:induction false} PlanAllConcat(p: Problem, s: Sim, a: seq<Item>, b: seq<Item>, cap: int)
    requires |p.targets| == |s.loads|
    ensures PlanAll(p, s, a + b, cap) == PlanAll(p, PlanAll(p, s, a, cap), b, cap)
    decreases |a|
  {
    if a == [] {
      assert a + b == b;
    } else if !Capped(s, cap) {
      assert (a + b)[1..] == a[1..] + b;
      PlanAllConcat(p, PlanOne(p, s, a[0]), a[1..], b, cap);
    }
  }

  /** The nodes to move pods to: everything that is not a candidate itself. */
  method SelectTargets(candidates: seq<Candidate>, allNodes: seq<NodeInfo>) returns (targets: seq<NodeInfo>)
    requires Distinct(allNodes)
    ensures targets == TargetsOf(allNodes, NamesOf(candidates)) && Distinct(targets)
    ensures forall n :: n in targets <==> n in allNodes && n.spec.name !in NamesOf(candidates)
  {
    var candidateSet := {};
    for i := 0 to |candidates|
      invariant candidateSet == set j | 0 <= j < i :: candidates[j].name
    {
      candidateSet := candidateSet + {candidates[i].name};
    }
    targets := [];
    for i := 0 to |allNodes|
      invariant targets == TargetsOf(allNodes[..i], candidateSet)
    {
      assert allNodes[..i + 1][..i] == allNodes[..i];
      if allNodes[i].spec.name !in candidateSet {
        targets := targets + [allNodes[i]];
      }
    }
    assert allNodes[..|allNodes|] == allNodes;
    TargetsAreNodes(allNodes, candidateSet);
  }

  /** Plans candidate after candidate until the cap stops it. */
  method PlanCandidates(
    candidates: seq<Candidate>, targets: seq<NodeInfo>, cap: int, safety: SafetyContext,
    ghost p: Problem, ghost s0: Sim)
    returns (plan: seq<PlannedEviction>, ghost s: Sim)
    requires Distinct(targets) && p == Problem(Specs(targets), safety.podWorkloads)
    requires s0 == Sim(Loads(targets), safety.disruptionBudget, [])
    modifies targets, safety`disruptionBudget
    ensures s.loads == Loads(targets) && s.budget == safety.disruptionBudget
    ensures (forall m :: m in s.moves ==> m.target < |p.targets|) && plan == Evictions(p, s.moves)
    ensures s == PlanAll(p, s0, Items(candidates), cap)
  {
    plan, s := [], s0;
    for i := 0 to |candidates|
      invariant s.loads == Loads(targets) && s.budget == safety.disruptionBudget
      invariant (forall m :: m in s.moves ==> m.target < |p.targets|) && plan == Evictions(p, s.moves)
      invariant PlanAll(p, s0, Items(candidates), cap) == PlanAll(p, s, Items(candidates[i..]), cap)
    {
      assert candidates[i..][0] == candidates[i] && candidates[i..][1..] == candidates[i + 1..];
      PlanAllConcat(p, s, PodItems(candidates[i].name, candidates[i].evictablePods), Items(candidates[i + 1..]), cap);
      var stopped;
      plan, stopped, s := PlanCandidate(candidates[i], targets, cap, safety, plan, p, s);
      if stopped {
        return;
      }
    }
    assert candidates[|candidates|..] == [];
  }

  /** Every planned eviction is from a candidate to a node that is none. */
  lemma PlanLeavesCandidates(candidates: seq<Candidate>, p: Problem, s0: Sim, cap: int)
    requires |p.targets| == |s0.loads| && s0.moves == []
    requires forall i :: 0 <= i < |p.targets| ==> p.targets[i].name !in NamesOf(candidates)
    ensures
      var moves := PlanAll(p, s0, Items(candidates), cap).moves;
      (forall m :: m in moves ==> m.target < |p.targets|) ==>
        forall e :: e in Evictions(p, moves) ==> e.source in NamesOf(candidates) && e.target !in NamesOf(candidates)
  {
    var moves := PlanAll(p, s0, Items(candidates), cap).moves;
    MovesComeFromItems(p, s0, Items(candidates), cap);
    if forall m :: m in moves ==> m.target < |p.targets| {
      forall e | e in Evictions(p, moves)
        ensures e.source in NamesOf(candidates) && e.target !in NamesOf(candidates)
      {
        var i :| 0 <= i < |moves| && Evictions(p, moves)[i] == e;
        assert moves[i] in moves;
        ItemsComeFromCandidates(candidates, moves[i].item);
      }
    }
  }

  /** The planning problem a call poses: its targets and the table of its safety context. */
  ghost function ProblemOf(candidates: seq<Candidate>, allNodes: seq<NodeInfo>, safety: SafetyContext): Problem
    reads safety
  {
    Problem(Specs(TargetsOf(allNodes, NamesOf(candidates))), safety.podWorkloads)
  }

  ghost function InitialSim(candidates: seq<Candidate>, allNodes: seq<NodeInfo>, safety: SafetyContext): Sim
    reads safety, allNodes, TargetsOf(allNodes, NamesOf(candidates))
  {
    Sim(Loads(TargetsOf(allNodes, NamesOf(candidates))), safety.disruptionBudget, [])
  }

  /** The plan: first-fit moves of the candidates' pods onto the other nodes, within budgets and cap. */
  method BuildConsolidationPlan(
    candidates: seq<Candidate>, allNodes: seq<NodeInfo>, maxEvictions: Option<int>, safety: SafetyContext)
    returns (plan: seq<PlannedEviction>, ghost s: Sim)
    requires Distinct(allNodes)
    modifies allNodes, safety`disruptionBudget
    ensures
      var p := ProblemOf(candidates, allNodes, safety);
      && p == old(ProblemOf(candidates, allNodes, safety))
      && s == PlanAll(p, old(InitialSim(candidates, allNodes, safety)), Items(candidates), maxEvictions.GetOr(0))
      && s.(moves := []) == InitialSim(candidates, allNodes, safety)
      && (forall m :: m in s.moves ==> m.target < |p.targets|) && plan == Evictions(p, s.moves)
    ensures forall n :: n in allNodes && n.spec.name in NamesOf(candidates) ==> n.scheduled == old(n.scheduled)
    ensures forall e :: e in plan ==> e.source in NamesOf(candidates) && e.target !in NamesOf(candidates)
  {
    var cap := 0;
    if maxEvictions.Some? {
      cap := maxEvictions.value;
    }
    ghost var p, s0 := ProblemOf(candidates, allNodes, safety), InitialSim(candidates, allNodes, safety);
    var targets := SelectTargets(candidates, allNodes);
    assert forall i :: 0 <= i < |targets| ==> targets[i] in targets && targets[i] in allNodes;
    plan, s := PlanCandidates(candidates, targets, cap, safety, p, s0);
    PlanLeavesCandidates(candidates, p, s0, cap);
  }
}
