/** What every plan of the bin packer guarantees, for all nodes, pods, budgets and caps. */
module PlanProperties {
  import opened Common
  import opened PodPlacement
  import opened DisruptionBudgets
  import opened ConsolidationPlan

  /** The requests of the pods moved to target i. */
  function Received(moves: seq<Move>, i: nat): Requests {
    if moves == [] then Requests(0, 0)
    else
      var last := moves[|moves| - 1];
      var rest := Received(moves[..|moves| - 1], i);
      if last.target == i
      then Requests(rest.cpu + PodRequests(last.item.pod).cpu, rest.mem + PodRequests(last.item.pod).mem)
      else rest
  }

  /** What the containers of the pods moved to target i request. */
  function ContainersOn(moves: seq<Move>, i: nat): Requests {
    if moves == [] then Requests(0, 0)
    else
      var pod, rest := moves[|moves| - 1].item.pod, ContainersOn(moves[..|moves| - 1], i);
      if moves[|moves| - 1].target == i
      then Requests(rest.cpu + SumCpu(pod.containers), rest.mem + SumMem(pod.containers))
      else rest
  }

  predicate Belongs(p: Problem, m: Move, wl: WorkloadRef) {
    m.item.pod.key in p.podWorkloads && p.podWorkloads[m.item.pod.key] == wl
  }

  /** How many pods of a workload the plan evicts. */
  function Planned(p: Problem, moves: seq<Move>, wl: WorkloadRef): nat {
    if moves == [] then 0
    else Planned(p, moves[..|moves| - 1], wl) + if Belongs(p, moves[|moves| - 1], wl) then 1 else 0
  }

  /** The planned evictions of a workload, by their place in the plan. */
  ghost function PlannedAt(p: Problem, moves: seq<Move>, wl: WorkloadRef): set<int> {
    set i | 0 <= i < |moves| && Belongs(p, moves[i], wl)
  }

  lemma PlannedAtOneMore(p: Problem, moves: seq<Move>, m: Move, wl: WorkloadRef)
    ensures PlannedAt(p, moves + [m], wl) == PlannedAt(p, moves, wl) + if Belongs(p, m, wl) then {|moves|} else {}
  {
    forall i
      ensures i in PlannedAt(p, moves + [m], wl) <==>
        i in PlannedAt(p, moves, wl) || (Belongs(p, m, wl) && i == |moves|)
    {
      if 0 <= i < |moves| {
        assert (moves + [m])[i] == moves[i];
      }
    }
  }

  /** The count of a workload's planned evictions is their number. */
  lemma {:induction false} PlannedCounts(p: Problem, moves: seq<Move>, wl: WorkloadRef)
    ensures Planned(p, moves, wl) == |PlannedAt(p, moves, wl)|
  {
    if moves == [] {
    } else {
      var front, last := moves[..|moves| - 1], moves[|moves| - 1];
      PlannedCounts(p, front, wl);
      PlannedAtOneMore(p, front, last, wl);
      assert front + [last] == moves;
    }
  }

  /** Every move was to a target that admits the pod and still holds it within its allocatable resources. */
  ghost predicate WithinCapacity(p: Problem, s: Sim) {
    forall m :: m in s.moves ==>
      && m.target < |p.targets| == |s.loads|
      && Admits(m.item.pod, p.targets[m.target])
      && s.loads[m.target].cpu <= p.targets[m.target].cpuAllocatable
      && s.loads[m.target].mem <= p.targets[m.target].memAllocatable
  }

  ghost predicate Conserves(s0: Sim, s: Sim) {
    && |s.loads| == |s0.loads|
    && forall i :: 0 <= i < |s.loads| ==>
         && s.loads[i].cpu == s0.loads[i].cpu + Received(s.moves, i).cpu
         && s.loads[i].mem == s0.loads[i].mem + Received(s.moves, i).mem
  }

  /** Budgets drop by exactly the planned evictions and a workload that lost a pod never goes below zero. */
  ghost predicate KeepsBudgets(p: Problem, s0: Sim, s: Sim) {
    forall wl ::
      && BudgetLeft(s.budget, wl) == BudgetLeft(s0.budget, wl) - Planned(p, s.moves, wl)
      && (Planned(p, s.moves, wl) > 0 ==> BudgetLeft(s.budget, wl) >= 0)
  }

  ghost predicate PlanInvariant(p: Problem, s0: Sim, s: Sim) {
    WithinCapacity(p, s) && Conserves(s0, s) && KeepsBudgets(p, s0, s)
  }

  lemma PlanOneWithinCapacity(p: Problem, s: Sim, item: Item)
    requires |p.targets| == |s.loads| && WithinCapacity(p, s)
    ensures WithinCapacity(p, PlanOne(p, s, item))
  {
    var s' := PlanOne(p, s, item);
    forall m | m in s'.moves
      ensures m.target < |p.targets| && Admits(m.item.pod, p.targets[m.target])
      ensures s'.loads[m.target].cpu <= p.targets[m.target].cpuAllocatable
      ensures s'.loads[m.target].mem <= p.targets[m.target].memAllocatable
    {
      var k := FirstFit(p, s, item.pod, 0);
      if m !in s.moves || m.target == k {
        assert s' != s ==> FitsTarget(p, s, item.pod, k);
      }
    }
  }

  lemma PlanOneConserves(p: Problem, s0: Sim, s: Sim, item: Item)
    requires |p.targets| == |s.loads| && Conserves(s0, s)
    ensures Conserves(s0, PlanOne(p, s, item))
  {
    var s' := PlanOne(p, s, item);
    if s'.moves != s.moves {
      assert s'.moves[..|s.moves|] == s.moves;
    }
  }

  lemma PlanOneKeepsBudgets(p: Problem, s0: Sim, s: Sim, item: Item)
    requires |p.targets| == |s.loads| && KeepsBudgets(p, s0, s)
    ensures KeepsBudgets(p, s0, PlanOne(p, s, item))
  {
    var s' := PlanOne(p, s, item);
    if s'.moves != s.moves {
      assert s'.moves[..|s.moves|] == s.moves;
      forall wl
        ensures BudgetLeft(s'.budget, wl) == BudgetLeft(s0.budget, wl) - Planned(p, s'.moves, wl)
        ensures Planned(p, s'.moves, wl) > 0 ==> BudgetLeft(s'.budget, wl) >= 0
      {
        assert BudgetLeft(s.budget, wl) == BudgetLeft(s0.budget, wl) - Planned(p, s.moves, wl);
      }
    }
  }

  lemma {:induction false} PlanAllInvariant(p: Problem, s0: Sim, s: Sim, items: seq<Item>, cap: int)
    requires |p.targets| == |s.loads| && PlanInvariant(p, s0, s)
    ensures PlanInvariant(p, s0, PlanAll(p, s, items, cap))
    decreases |items|
  {
    if items == [] {
    } else if !Capped(s, cap) {
      PlanOneWithinCapacity(p, s, items[0]);
      PlanOneConserves(p, s0, s, items[0]);
      PlanOneKeepsBudgets(p, s0, s, items[0]);
      PlanAllInvariant(p, s0, PlanOne(p, s, items[0]), items[1..], cap);
    }
  }

  /** Capacity and conservation: every target ends with its initial load plus the requests of the pods planned onto
      it, within its allocatable resources if there are any, and admits each of them. */
  lemma CapacityAndConservation(p: Problem, s0: Sim, items: seq<Item>, cap: int)
    requires |p.targets| == |s0.loads| && s0.moves == []
    ensures
      var s := PlanAll(p, s0, items, cap);
      && (forall i :: 0 <= i < |p.targets| ==>
            && s.loads[i].cpu == s0.loads[i].cpu + Received(s.moves, i).cpu
            && s.loads[i].mem == s0.loads[i].mem + Received(s.moves, i).mem)
      && (forall m :: m in s.moves ==>
            && m.target < |p.targets|
            && Admits(m.item.pod, p.targets[m.target])
            && s.loads[m.target].cpu <= p.targets[m.target].cpuAllocatable
            && s.loads[m.target].mem <= p.targets[m.target].memAllocatable)
  {
    assert PlanInvariant(p, s0, s0);
    PlanAllInvariant(p, s0, s0, items, cap);
  }

  lemma {:induction false} ReceivedCoversContainers(moves: seq<Move>, i: nat)
    ensures Received(moves, i).cpu >= ContainersOn(moves, i).cpu
    ensures Received(moves, i).mem >= ContainersOn(moves, i).mem
  {
    if moves == [] {
    } else {
      RequestsCoverContainers(moves[|moves| - 1].item.pod);
      ReceivedCoversContainers(moves[..|moves| - 1], i);
    }
  }

  /** Capacity in plain terms: on every target that received a pod, its initial load and all that the containers of
      the pods planned onto it request stay within what the node can allocate. */
  lemma ContainersFit(p: Problem, s0: Sim, items: seq<Item>, cap: int, m: Move)
    requires |p.targets| == |s0.loads| && s0.moves == []
    requires m in PlanAll(p, s0, items, cap).moves
    ensures
      var moves := PlanAll(p, s0, items, cap).moves;
      && m.target < |p.targets|
      && s0.loads[m.target].cpu + ContainersOn(moves, m.target).cpu <= p.targets[m.target].cpuAllocatable
      && s0.loads[m.target].mem + ContainersOn(moves, m.target).mem <= p.targets[m.target].memAllocatable
      && s0.loads[m.target].cpu + SumCpu(m.item.pod.containers) <= p.targets[m.target].cpuAllocatable
      && s0.loads[m.target].mem + SumMem(m.item.pod.containers) <= p.targets[m.target].memAllocatable
  {
    var moves := PlanAll(p, s0, items, cap).moves;
    CapacityAndConservation(p, s0, items, cap);
    ReceivedCoversContainers(moves, m.target);
    OneOfThem(moves, m);
  }

  lemma {:induction false} ContainersNonNegative(moves: seq<Move>, i: nat)
    ensures ContainersOn(moves, i).cpu >= 0 && ContainersOn(moves, i).mem >= 0
  {
    if moves == [] {
    } else {
      ContainersNonNegative(moves[..|moves| - 1], i);
    }
  }

  lemma {:induction false} OneOfThem(moves: seq<Move>, m: Move)
    requires m in moves
    ensures ContainersOn(moves, m.target).cpu >= SumCpu(m.item.pod.containers)
    ensures ContainersOn(moves, m.target).mem >= SumMem(m.item.pod.containers)
  {
    var front, last := moves[..|moves| - 1], moves[|moves| - 1];
    if last == m {
      ContainersNonNegative(front, m.target);
    } else {
      assert moves == front + [last];
      OneOfThem(front, m);
    }
  }

  ghost predicate DistinctPods(items: seq<Item>) {
    forall i, j :: 0 <= i < j < |items| ==> items[i].pod.key != items[j].pod.key
  }

  ghost predicate DistinctMoves(moves: seq<Move>) {
    forall i, j :: 0 <= i < j < |moves| ==> moves[i].item.pod.key != moves[j].item.pod.key
  }

  /** None of the items' pods has been moved yet. */
  ghost predicate NotMoved(moves: seq<Move>, items: seq<Item>) {
    forall m, x :: m in moves && x in items ==> m.item.pod.key != x.pod.key
  }

  lemma OneMoreMove(moves: seq<Move>, m: Move, items: seq<Item>)
    requires items != [] && m.item == items[0]
    requires DistinctPods(items) && DistinctMoves(moves) && NotMoved(moves, items)
    ensures DistinctMoves(moves + [m]) && NotMoved(moves + [m], items[1..])
  {
    assert items[0] in items;
    forall x | x in items[1..]
      ensures x in items && x.pod.key != items[0].pod.key
    {
      var i :| 0 <= i < |items[1..]| && items[1..][i] == x;
      assert items[i + 1] == x;
    }
    forall i | 0 <= i < |moves|
      ensures moves[i].item.pod.key != m.item.pod.key
    {
      assert moves[i] in moves;
    }
  }

  /** If the items considered are of distinct pods, no pod is planned twice. */
  lemma {:induction false} NoPodTwice(p: Problem, s: Sim, items: seq<Item>, cap: int)
    requires |p.targets| == |s.loads|
    requires DistinctPods(items) && DistinctMoves(s.moves) && NotMoved(s.moves, items)
    ensures DistinctMoves(PlanAll(p, s, items, cap).moves)
    decreases |items|
  {
    if items == [] {
    } else if !Capped(s, cap) {
      OneMoreMove(s.moves, Move(items[0], FirstFit(p, s, items[0].pod, 0)), items);
      NoPodTwice(p, PlanOne(p, s, items[0]), items[1..], cap);
    }
  }

  /** As the simulation proceeds, loads only grow, budgets only fall and the plan is only extended. */
  ghost predicate Later(s: Sim, s': Sim) {
    && |s.loads| == |s'.loads|
    && (forall i :: 0 <= i < |s.loads| ==>
          s.loads[i].cpu <= s'.loads[i].cpu && s.loads[i].mem <= s'.loads[i].mem)
    && (forall wl :: BudgetLeft(s'.budget, wl) <= BudgetLeft(s.budget, wl))
    && s.moves <= s'.moves
  }

  lemma {:induction false} PlanAllLater(p: Problem, s: Sim, items: seq<Item>, cap: int)
    requires |p.targets| == |s.loads|
    ensures Later(s, PlanAll(p, s, items, cap))
    decreases |items|
  {
    if items == [] {
    } else if !Capped(s, cap) {
      var next := PlanOne(p, s, items[0]);
      assert Later(s, next);
      PlanAllLater(p, next, items[1..], cap);
    }
  }

  /** The pod could not be planned any more: its workload is exhausted or no target has room for it. */
  ghost predicate Blocked(p: Problem, s: Sim, pod: Pod) {
    || (pod.key in p.podWorkloads && BudgetLeft(s.budget, p.podWorkloads[pod.key]) <= 0)
    || forall i :: 0 <= i < |p.targets| ==> !FitsTarget(p, s, pod, i)
  }

  lemma BlockedStaysBlocked(p: Problem, s: Sim, s': Sim, pod: Pod)
    requires |p.targets| == |s.loads| && Later(s, s') && Blocked(p, s, pod)
    ensures Blocked(p, s', pod)
  {
    if pod.key in p.podWorkloads && BudgetLeft(s.budget, p.podWorkloads[pod.key]) <= 0 {
      assert BudgetLeft(s'.budget, p.podWorkloads[pod.key]) <= BudgetLeft(s.budget, p.podWorkloads[pod.key]);
    } else {
      forall i | 0 <= i < |p.targets|
        ensures !FitsTarget(p, s', pod, i)
      {
        assert !FitsTarget(p, s, pod, i);
      }
    }
  }

  ghost predicate IsPlanned(s: Sim, item: Item) {
    exists m :: m in s.moves && m.item == item
  }

  /** No pod considered could still be added. */
  ghost predicate Maximal(p: Problem, s: Sim, items: seq<Item>) {
    forall j :: 0 <= j < |items| ==> IsPlanned(s, items[j]) || Blocked(p, s, items[j].pod)
  }

  lemma {:induction false} UncappedIsMaximal(p: Problem, s: Sim, items: seq<Item>)
    requires |p.targets| == |s.loads|
    ensures Maximal(p, PlanAll(p, s, items, 0), items)
    decreases |items|
  {
    if items == [] {
    } else {
      var next, last := PlanOne(p, s, items[0]), PlanAll(p, s, items, 0);
      UncappedIsMaximal(p, next, items[1..]);
      PlanAllLater(p, s, items, 0);
      PlanAllLater(p, next, items[1..], 0);
      if next.moves == s.moves {
        assert Blocked(p, s, items[0].pod);
        BlockedStaysBlocked(p, s, last, items[0].pod);
      } else {
        assert last.moves[|s.moves|] == next.moves[|s.moves|];
        assert last.moves[|s.moves|] in last.moves;
      }
      forall j | 1 <= j < |items|
        ensures IsPlanned(last, items[j]) || Blocked(p, last, items[j].pod)
      {
        assert items[j] == items[1..][j - 1];
      }
    }
  }

  lemma {:induction false} NoMoveNoChange(p: Problem, s: Sim, items: seq<Item>)
    requires |p.targets| == |s.loads| && PlanAll(p, s, items, 0).moves == s.moves
    ensures PlanAll(p, s, items, 0) == s
    decreases |items|
  {
    if items == [] {
    } else {
      PlanAllLater(p, PlanOne(p, s, items[0]), items[1..], 0);
      NoMoveNoChange(p, s, items[1..]);
    }
  }

  lemma {:induction false} SamePlanSameState(p: Problem, s: Sim, items: seq<Item>, cap: int)
    requires |p.targets| == |s.loads| && PlanAll(p, s, items, cap).moves == PlanAll(p, s, items, 0).moves
    ensures PlanAll(p, s, items, cap) == PlanAll(p, s, items, 0)
    decreases |items|
  {
    if items == [] {
    } else if Capped(s, cap) {
      NoMoveNoChange(p, s, items);
    } else {
      SamePlanSameState(p, PlanOne(p, s, items[0]), items[1..], cap);
    }
  }

  lemma {:induction false} AllBlockedNoMove(p: Problem, s: Sim, items: seq<Item>)
    requires |p.targets| == |s.loads|
    requires forall j :: 0 <= j < |items| ==> Blocked(p, s, items[j].pod)
    ensures PlanAll(p, s, items, 0) == s
    decreases |items|
  {
    if items == [] {
    } else {
      assert PlanOne(p, s, items[0]) == s;
      AllBlockedNoMove(p, s, items[1..]);
    }
  }

  lemma {:induction false} MaximalIsUncapped(p: Problem, s: Sim, items: seq<Item>, cap: int)
    requires |p.targets| == |s.loads|
    requires DistinctPods(items) && DistinctMoves(s.moves) && NotMoved(s.moves, items)
    requires Maximal(p, PlanAll(p, s, items, cap), items)
    ensures PlanAll(p, s, items, cap).moves == PlanAll(p, s, items, 0).moves
    decreases |items|
  {
    if items == [] {
    } else if Capped(s, cap) {
      forall j | 0 <= j < |items|
        ensures Blocked(p, s, items[j].pod)
      {
        assert items[j] in items;
      }
      AllBlockedNoMove(p, s, items);
    } else {
      var last := PlanAll(p, s, items, cap);
      OneMoreMove(s.moves, Move(items[0], FirstFit(p, s, items[0].pod, 0)), items);
      forall j | 0 <= j < |items[1..]|
        ensures IsPlanned(last, items[1..][j]) || Blocked(p, last, items[1..][j].pod)
      {
        assert items[1..][j] == items[j + 1];
      }
      MaximalIsUncapped(p, PlanOne(p, s, items[0]), items[1..], cap);
    }
  }

  /** Maximality: when the cap left nothing out, so that the plan is the uncapped one, every pod left out of it is, in
      the final state, of an exhausted workload or without a target that has room for it; and, the pods considered
      being distinct, only then. */
  lemma PlanIsMaximal(p: Problem, s: Sim, items: seq<Item>, cap: int)
    requires |p.targets| == |s.loads| && s.moves == []
    ensures PlanAll(p, s, items, cap).moves == PlanAll(p, s, items, 0).moves ==>
      Maximal(p, PlanAll(p, s, items, cap), items)
    ensures DistinctPods(items) && Maximal(p, PlanAll(p, s, items, cap), items) ==>
      PlanAll(p, s, items, cap).moves == PlanAll(p, s, items, 0).moves
  {
    if PlanAll(p, s, items, cap).moves == PlanAll(p, s, items, 0).moves {
      SamePlanSameState(p, s, items, cap);
      UncappedIsMaximal(p, s, items);
    }
    if DistinctPods(items) && Maximal(p, PlanAll(p, s, items, cap), items) {
      MaximalIsUncapped(p, s, items, cap);
    }
  }

  /** The cap is a prefix: a plan with cap k is the first k moves of the uncapped plan, or all of it if shorter. */
  lemma {:induction false} CapIsPrefix(p: Problem, s: Sim, items: seq<Item>, k: nat)
    requires |p.targets| == |s.loads| && 0 < k && |s.moves| <= k
    ensures
      var uncapped := PlanAll(p, s, items, 0).moves;
      PlanAll(p, s, items, k).moves == uncapped[..Min(k, |uncapped|)]
    decreases |items|
  {
    if items == [] {
    } else {
      if Capped(s, k) {
        PlanAllLater(p, s, items, 0);
      } else {
        CapIsPrefix(p, PlanOne(p, s, items[0]), items[1..], k);
      }
    }
  }

  function PodsOf(items: seq<Item>): seq<Pod> {
    seq(|items|, i requires 0 <= i < |items| => items[i].pod)
  }

  /** Evictable pods are resolvable, so every planned pod was checked against the budget of the workload it belongs
      to; and no pod is planned twice. */
  lemma PlannedPodsAreChecked(
    p: Problem, s0: Sim, items: seq<Item>, cap: int, rs: ReplicaSets,
    excluded: set<string>, included: set<string>)
    requires |p.targets| == |s0.loads| && s0.moves == []
    requires DistinctPods(items)
    requires forall i :: 0 <= i < |items| ==> IsEvictable(items[i].pod, excluded, included, rs)
    requires ResolvesPods(p.podWorkloads, PodsOf(items), rs)
    ensures
      var moves := PlanAll(p, s0, items, cap).moves;
      && (forall m :: m in moves ==>
            && m.item in items && m.item.pod.key in p.podWorkloads
            && !m.item.pod.mirror && !m.item.pod.hostPath && !m.item.pod.terminating
            && m.item.pod.key.ns !in excluded && (included == {} || m.item.pod.key.ns in included)
            && m.item.pod.owners != [] && (forall o :: o in m.item.pod.owners ==> o.kind != "DaemonSet")
            && (forall o :: o in m.item.pod.owners && o.kind == "ReplicaSet" ==>
                  forall d :: PodKey(m.item.pod.key.ns, o.name) in rs && d in rs[PodKey(m.item.pod.key.ns, o.name)] ==>
                    d.kind != "DaemonSet")
            && ResolveWorkload(m.item.pod, rs) == Some(p.podWorkloads[m.item.pod.key]))
      && DistinctMoves(moves)
  {
    NoPodTwice(p, s0, items, cap);
    MovesComeFromItems(p, s0, items, cap);
    forall m | m in PlanAll(p, s0, items, cap).moves
      ensures m.item.pod.key in p.podWorkloads
      ensures ResolveWorkload(m.item.pod, rs) == Some(p.podWorkloads[m.item.pod.key])
      ensures IsEvictable(m.item.pod, excluded, included, rs)
    {
      var i :| 0 <= i < |items| && items[i] == m.item;
      assert PodsOf(items)[i] == m.item.pod && ResolveWorkload(PodsOf(items)[i], rs).Some?;
    }
  }

  lemma PlannedWithinBudget(p: Problem, s0: Sim, items: seq<Item>, cap: int, wl: WorkloadRef)
    requires |p.targets| == |s0.loads| && s0.moves == []
    ensures Planned(p, PlanAll(p, s0, items, cap).moves, wl) <= Max(0, BudgetLeft(s0.budget, wl))
  {
    var s := PlanAll(p, s0, items, cap);
    assert PlanInvariant(p, s0, s0);
    PlanAllInvariant(p, s0, s0, items, cap);
    assert BudgetLeft(s.budget, wl) == BudgetLeft(s0.budget, wl) - Planned(p, s.moves, wl);
  }

  /** What staying within a budget means for the PDBs and replicas behind it. */
  lemma BudgetBounds(wl: WorkloadRef, pdbs: seq<Pdb>, workloads: map<WorkloadRef, Replicated>, b: int, n: nat)
    requires IsBudget(wl, pdbs, workloads, b) && n <= Max(0, b)
    ensures
      var labels := LabelsOf(wl, workloads);
      if exists i :: 0 <= i < |pdbs| && Guards(pdbs[i], wl, labels)
      then forall i :: 0 <= i < |pdbs| && Guards(pdbs[i], wl, labels) ==> n <= pdbs[i].allowed
      else n > 0 ==> wl in workloads && workloads[wl].ready - n >= 1
  {
    assert b >= 0 || n == 0;
  }

  /** Disruption safety: no workload loses more pods than any PDB selecting it allows, nor its last ready replica
      when no PDB does; a workload that is missing and not selected by any PDB loses none. */
  lemma DisruptionSafety(
    p: Problem, s0: Sim, items: seq<Item>, cap: int,
    rs: ReplicaSets, pdbs: seq<Pdb>, workloads: map<WorkloadRef, Replicated>, wl: WorkloadRef)
    requires |p.targets| == |s0.loads| && s0.moves == []
    requires IsSafetyOf(p.podWorkloads, s0.budget, PodsOf(items), rs, pdbs, workloads)
    ensures
      var n := |PlannedAt(p, PlanAll(p, s0, items, cap).moves, wl)|;
      var labels := LabelsOf(wl, workloads);
      if exists i :: 0 <= i < |pdbs| && Guards(pdbs[i], wl, labels)
      then forall i :: 0 <= i < |pdbs| && Guards(pdbs[i], wl, labels) ==> n <= pdbs[i].allowed
      else n > 0 ==> wl in workloads && workloads[wl].ready - n >= 1
  {
    var moves := PlanAll(p, s0, items, cap).moves;
    PlannedWithinBudget(p, s0, items, cap, wl);
    PlannedCounts(p, moves, wl);
    if wl in s0.budget {
      BudgetBounds(wl, pdbs, workloads, s0.budget[wl], Planned(p, moves, wl));
    }
  }
}
