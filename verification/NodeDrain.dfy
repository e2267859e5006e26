/**
 The node drain run: candidates below a utilization threshold are sorted, limited so that enough ready nodes remain,
 and drained one by one with calls that may fail. The bounds are proved for every outcome of those calls.
 */
module NodeDrain {
  import opened Common

  datatype Condition = Condition(kind: string, status: string)

  /** An evaluated node: utilization in percent of allocatable, conditions, and the pods a drain would evict. */
  datatype DrainNode = DrainNode(
    name: string, cpuPercent: int, memPercent: int, conditions: seq<Condition>, drainablePods: seq<string>)

  datatype Policy = Policy(
    cpuThreshold: Option<int>, memThreshold: Option<int>, maxNodesPerRun: Option<nat>, minReadyNodes: Option<nat>,
    dryRun: bool, deleteNodeAfterDrain: bool)

  datatype Action = DryRun | Failed | Drained | Deleted

  datatype NodeResult = NodeResult(name: string, cpuPercent: int, memPercent: int, action: Action, podsEvicted: nat)

  datatype RunStatus = RunStatus(
    evaluated: nat, candidates: nat, drained: nat, deleted: nat, results: seq<NodeResult>)

  function Utilization(n: DrainNode): int {
    n.cpuPercent + n.memPercent
  }

  /** The first Ready condition decides. */
  function IsReady(conditions: seq<Condition>): bool {
    if conditions == [] then false
    else if conditions[0].kind == "Ready" then conditions[0].status == "True"
    else IsReady(conditions[1..])
  }

  /** Below either threshold that is set. */
  predicate IsCandidate(p: Policy, n: DrainNode) {
    || (p.cpuThreshold.Some? && n.cpuPercent < p.cpuThreshold.value)
    || (p.memThreshold.Some? && n.memPercent < p.memThreshold.value)
  }

  ghost predicate DistinctNames(nodes: seq<DrainNode>) {
    forall i, j :: 0 <= i < j < |nodes| ==> nodes[i].name != nodes[j].name
  }

  /** Ready nodes among the given ones that are not in the given set. */
  function ReadyOutside(nodes: seq<DrainNode>, touched: set<string>): nat {
    if nodes == [] then 0
    else
      var last := nodes[|nodes| - 1];
      ReadyOutside(nodes[..|nodes| - 1], touched)
      + if IsReady(last.conditions) && last.name !in touched then 1 else 0
  }

  function CountActions(results: seq<NodeResult>, actions: set<Action>): nat {
    if results == [] then 0
    else CountActions(results[..|results| - 1], actions) + if results[|results| - 1].action in actions then 1 else 0
  }

  function Touched(results: seq<NodeResult>): set<string> {
    set i | 0 <= i < |results| :: results[i].name
  }

  function Candidates(nodes: seq<DrainNode>, p: Policy): seq<DrainNode> {
    if nodes == [] then []
    else
      var rest := Candidates(nodes[..|nodes| - 1], p);
      if IsCandidate(p, nodes[|nodes| - 1]) then rest + [nodes[|nodes| - 1]] else rest
  }

  // ---------- counts in plain terms ----------

  /** A node is ready exactly if its first condition of type Ready says True. */
  lemma {:induction false} ReadyExactly(conditions: seq<Condition>)
    ensures IsReady(conditions) <==>
      exists i :: 0 <= i < |conditions| && conditions[i] == Condition("Ready", "True")
        && forall j :: 0 <= j < i ==> conditions[j].kind != "Ready"
  {
    if conditions == [] {
    } else if conditions[0].kind == "Ready" {
      assert conditions[0].status == "True" ==> conditions[0] == Condition("Ready", "True");
    } else {
      var rest := conditions[1..];
      ReadyExactly(rest);
      if IsReady(conditions) {
        var i :| 0 <= i < |rest| && rest[i] == Condition("Ready", "True")
          && forall j :: 0 <= j < i ==> rest[j].kind != "Ready";
        forall j | 0 <= j < i + 1
          ensures conditions[j].kind != "Ready"
        {
          assert j > 0 ==> rest[j - 1] == conditions[j];
        }
        assert conditions[i + 1] == rest[i];
      }
      forall i | 0 <= i < |conditions| && conditions[i] == Condition("Ready", "True")
        && forall j :: 0 <= j < i ==> conditions[j].kind != "Ready"
        ensures IsReady(conditions)
      {
        assert rest[i - 1] == conditions[i];
        assert forall j :: 0 <= j < i - 1 ==> rest[j] == conditions[j + 1];
      }
    }
  }

  /** The places of the ready nodes that are not in the given set. */
  ghost function ReadyAt(nodes: seq<DrainNode>, touched: set<string>): set<int> {
    set i | 0 <= i < |nodes| && IsReady(nodes[i].conditions) && nodes[i].name !in touched
  }

  lemma {:induction false} ReadyOutsideCounts(nodes: seq<DrainNode>, touched: set<string>)
    ensures ReadyOutside(nodes, touched) == |ReadyAt(nodes, touched)|
  {
    if nodes == [] {
    } else {
      var front, n := nodes[..|nodes| - 1], |nodes| - 1;
      ReadyOutsideCounts(front, touched);
      assert ReadyAt(nodes, touched) == ReadyAt(front, touched) +
        if IsReady(nodes[n].conditions) && nodes[n].name !in touched then {n} else {};
    }
  }

  /** The places of the results with one of the actions. */
  ghost function ActionsAt(results: seq<NodeResult>, actions: set<Action>): set<int> {
    set i | 0 <= i < |results| && results[i].action in actions
  }

  lemma {:induction false} ActionsCount(results: seq<NodeResult>, actions: set<Action>)
    ensures CountActions(results, actions) == |ActionsAt(results, actions)|
  {
    if results == [] {
    } else {
      var front, n := results[..|results| - 1], |results| - 1;
      ActionsCount(front, actions);
      assert ActionsAt(results, actions) ==
        ActionsAt(front, actions) + if results[n].action in actions then {n} else {};
    }
  }

  // ---------- choosing the nodes ----------

  method FindDrainCandidates(nodes: seq<DrainNode>, p: Policy) returns (candidates: seq<DrainNode>)
    requires DistinctNames(nodes)
    ensures DistinctNames(candidates)
    ensures forall n :: n in candidates <==> n in nodes && IsCandidate(p, n)
    ensures forall n :: n in candidates <==>
              && n in nodes
              && (|| (p.cpuThreshold.Some? && n.cpuPercent < p.cpuThreshold.value)
                  || (p.memThreshold.Some? && n.memPercent < p.memThreshold.value))
    ensures candidates == Candidates(nodes, p)
  {
    candidates := [];
    for i := 0 to |nodes|
      invariant candidates == Candidates(nodes[..i], p)
      invariant DistinctNames(candidates)
      invariant forall n :: n in candidates <==> n in nodes[..i] && IsCandidate(p, n)
    {
      assert nodes[..i + 1] == nodes[..i] + [nodes[i]] && nodes[..i + 1][..i] == nodes[..i];
      var isCandidate := false;
      if p.cpuThreshold.Some? {
        if nodes[i].cpuPercent < p.cpuThreshold.value {
          isCandidate := true;
        }
      }
      if p.memThreshold.Some? {
        if nodes[i].memPercent < p.memThreshold.value {
          isCandidate := true;
        }
      }
      if isCandidate {
        forall j | 0 <= j < |candidates|
          ensures candidates[j].name != nodes[i].name
        {
          assert candidates[j] in candidates;
        }
        candidates := candidates + [nodes[i]];
      }
    }
    assert nodes[..|nodes|] == nodes;
  }

  ghost predicate SortedByUtilization(nodes: seq<DrainNode>) {
    forall i, j :: 0 <= i < j < |nodes| ==> Utilization(nodes[i]) <= Utilization(nodes[j])
  }

  lemma InsertedValue(s: seq<DrainNode>, n: DrainNode, i: nat, a: nat)
    requires i <= |s| && a <= |s|
    ensures (s[..i] + [n] + s[i..])[a] == if a < i then s[a] else if a == i then n else s[a - 1]
  {
  }

  lemma InsertedSorted(sorted: seq<DrainNode>, n: DrainNode, i: nat)
    requires SortedByUtilization(sorted) && i <= |sorted|
    requires forall j :: i <= j < |sorted| ==> Utilization(n) < Utilization(sorted[j])
    requires forall j :: 0 <= j < i ==> Utilization(sorted[j]) <= Utilization(n)
    ensures SortedByUtilization(sorted[..i] + [n] + sorted[i..])
  {
    var more := sorted[..i] + [n] + sorted[i..];
    forall a, b | 0 <= a < b < |more|
      ensures Utilization(more[a]) <= Utilization(more[b])
    {
      InsertedValue(sorted, n, i, a);
      InsertedValue(sorted, n, i, b);
    }
  }

  lemma InsertedMultiset(s: seq<DrainNode>, n: DrainNode, i: nat)
    requires i <= |s|
    ensures multiset(s[..i] + [n] + s[i..]) == multiset(s) + multiset{n}
  {
    assert s == s[..i] + s[i..];
  }

  method Insert(sorted: seq<DrainNode>, n: DrainNode) returns (more: seq<DrainNode>)
    requires SortedByUtilization(sorted)
    ensures SortedByUtilization(more) && multiset(more) == multiset(sorted) + multiset{n}
  {
    var i := |sorted|;
    while i > 0 && Utilization(n) < Utilization(sorted[i - 1])
      invariant 0 <= i <= |sorted|
      invariant forall j :: i <= j < |sorted| ==> Utilization(n) < Utilization(sorted[j])
    {
      i := i - 1;
    }
    assert forall j :: 0 <= j < i ==> Utilization(sorted[j]) <= Utilization(sorted[i - 1]);
    InsertedSorted(sorted, n, i);
    InsertedMultiset(sorted, n, i);
    more := sorted[..i] + [n] + sorted[i..];
  }

  /** Lowest utilization first; ties in any order. */
  method SortByUtilization(nodes: seq<DrainNode>) returns (sorted: seq<DrainNode>)
    ensures SortedByUtilization(sorted) && multiset(sorted) == multiset(nodes)
  {
    sorted := [];
    for i := 0 to |nodes|
      invariant SortedByUtilization(sorted) && multiset(sorted) == multiset(nodes[..i])
    {
      assert nodes[..i + 1] == nodes[..i] + [nodes[i]];
      sorted := Insert(sorted, nodes[i]);
    }
    assert nodes[..|nodes|] == nodes;
  }

  method CountReady(nodes: seq<DrainNode>) returns (ready: nat)
    ensures ready == ReadyOutside(nodes, {})
  {
    ready := 0;
    for i := 0 to |nodes|
      invariant ready == ReadyOutside(nodes[..i], {})
    {
      assert nodes[..i + 1][..i] == nodes[..i];
      if IsReady(nodes[i].conditions) {
        ready := ready + 1;
      }
    }
    assert nodes[..|nodes|] == nodes;
  }

  /** How many nodes a run may drain. */
  function Limit(p: Policy, ready: nat): nat {
    Min(p.maxNodesPerRun.GetOr(1), Max(0, ready - p.minReadyNodes.GetOr(1)))
  }

  /** The nodes a run works on: as many as allowed, all candidates if they are no more, the least utilized else. */
  ghost predicate IsSelection(nodes: seq<DrainNode>, p: Policy, chosen: seq<DrainNode>) {
    && DistinctNames(chosen)
    && (forall n :: n in chosen ==> n in nodes && IsCandidate(p, n))
    && |chosen| <= Limit(p, ReadyOutside(nodes, {}))
    && (|chosen| < Limit(p, ReadyOutside(nodes, {})) ==> forall n :: n in nodes && IsCandidate(p, n) ==> n in chosen)
    && (forall c, n :: c in chosen && n in nodes && IsCandidate(p, n) && n !in chosen ==>
          Utilization(c) <= Utilization(n))
  }

  /** A run works on no more nodes than its limits allow, one each unless the policy sets them, and on no fewer: if it
      stays below both, it works on every candidate. */
  lemma SelectionIsAsLargeAsAllowed(nodes: seq<DrainNode>, p: Policy, chosen: seq<DrainNode>)
    requires IsSelection(nodes, p, chosen)
    ensures
      var maxNodes := if p.maxNodesPerRun.Some? then p.maxNodesPerRun.value else 1;
      var minReady := if p.minReadyNodes.Some? then p.minReadyNodes.value else 1;
      var ready := |ReadyAt(nodes, {})|;
      && |chosen| <= maxNodes && (chosen != [] ==> |chosen| <= ready - minReady)
      && (|chosen| < maxNodes && |chosen| < ready - minReady ==>
            forall n :: n in nodes && IsCandidate(p, n) ==> n in chosen)
      && forall c, n :: c in chosen && n in nodes && IsCandidate(p, n) && n !in chosen ==>
           c.cpuPercent + c.memPercent <= n.cpuPercent + n.memPercent
  {
    ReadyOutsideCounts(nodes, {});
  }

  lemma DistinctNamesPermuted(a: seq<DrainNode>, b: seq<DrainNode>)
    requires DistinctNames(a) && multiset(a) == multiset(b)
    ensures DistinctNames(b)
  {
    forall i, j | 0 <= i < j < |b|
      ensures b[i].name != b[j].name
    {
      if b[i].name == b[j].name {
        assert b[i] in multiset(a) && b[j] in multiset(a);
        var x :| 0 <= x < |a| && a[x] == b[i];
        var y :| 0 <= y < |a| && a[y] == b[j];
        assert x == y;
        TwiceInMultiset(b, i, j);
        OnceInMultiset(a, x);
        assert false;
      }
    }
  }

  lemma TwiceInMultiset(s: seq<DrainNode>, i: nat, j: nat)
    requires i < j < |s| && s[i] == s[j]
    ensures multiset(s)[s[i]] >= 2
  {
    assert s == s[..i] + [s[i]] + s[i + 1..j] + [s[j]] + s[j + 1..];
  }

  lemma OnceInMultiset(s: seq<DrainNode>, x: nat)
    requires DistinctNames(s) && x < |s|
    ensures multiset(s)[s[x]] == 1
  {
    assert s == s[..x] + [s[x]] + s[x + 1..];
    assert s[x] !in s[..x] && s[x] !in s[x + 1..];
  }

  lemma PrefixMember(s: seq<DrainNode>, k: nat, j: nat)
    requires j < |s| && k <= |s|
    ensures k <= j || s[j] in s[..k]
  {
    if j < k {
      assert s[..k][j] == s[j];
    }
  }

  /** Cutting a sorted list of the candidates at the limit selects the least utilized ones. */
  lemma PrefixIsSelection(
    nodes: seq<DrainNode>, p: Policy, candidates: seq<DrainNode>, sorted: seq<DrainNode>, k: nat)
    requires DistinctNames(candidates)
    requires forall n :: n in candidates <==> n in nodes && IsCandidate(p, n)
    requires SortedByUtilization(sorted) && multiset(sorted) == multiset(candidates)
    requires k == Min(|sorted|, Limit(p, ReadyOutside(nodes, {})))
    ensures IsSelection(nodes, p, sorted[..k])
  {
    DistinctNamesPermuted(candidates, sorted);
    forall n
      ensures n in sorted <==> n in candidates
    {
      assert n in multiset(sorted) <==> n in multiset(candidates);
    }
    forall c, n | c in sorted[..k] && n in sorted && n !in sorted[..k]
      ensures Utilization(c) <= Utilization(n)
    {
      var i :| 0 <= i < k && sorted[i] == c;
      var j: nat :| j < |sorted| && sorted[j] == n;
      PrefixMember(sorted, k, j);
    }
    if k == |sorted| {
      assert sorted[..k] == sorted;
    }
  }

  method SelectNodes(nodes: seq<DrainNode>, p: Policy) returns (chosen: seq<DrainNode>, candidateCount: nat)
    requires DistinctNames(nodes)
    ensures IsSelection(nodes, p, chosen) && candidateCount == |Candidates(nodes, p)|
  {
    var candidates := FindDrainCandidates(nodes, p);
    candidateCount := |candidates|;
    var sorted := SortByUtilization(candidates);
    var maxDrainable := MaxDrainable(nodes, p);
    PrefixIsSelection(nodes, p, candidates, sorted, Min(|sorted|, maxDrainable));
    if |sorted| > maxDrainable {
      return sorted[..maxDrainable], candidateCount;
    }
    assert sorted[..|sorted|] == sorted;
    return sorted, candidateCount;
  }

  method MaxDrainable(nodes: seq<DrainNode>, p: Policy) returns (maxDrainable: nat)
    ensures maxDrainable == Limit(p, ReadyOutside(nodes, {}))
  {
    var maxNodes := if p.maxNodesPerRun.Some? then p.maxNodesPerRun.value else 1;
    var minReady := if p.minReadyNodes.Some? then p.minReadyNodes.value else 1;
    var ready := CountReady(nodes);
    var spare: int := ready - minReady;
    if spare < 0 {
      spare := 0;
    }
    if maxNodes < spare {
      spare := maxNodes;
    }
    return spare;
  }

  // ---------- the bound on ready nodes ----------

  lemma {:induction false} ReadyOutsideDrops(nodes: seq<DrainNode>, touched: set<string>)
    requires DistinctNames(nodes)
    ensures ReadyOutside(nodes, touched) + |touched| >= ReadyOutside(nodes, {})
    decreases |nodes|
  {
    if nodes == [] {
    } else {
      var front, last := nodes[..|nodes| - 1], nodes[|nodes| - 1];
      if last.name in touched {
        ReadyOutsideDrops(front, touched - {last.name});
        ReadyOutsideWithout(front, touched, last.name);
      } else {
        ReadyOutsideDrops(front, touched);
      }
    }
  }

  lemma {:induction false} ReadyOutsideWithout(nodes: seq<DrainNode>, touched: set<string>, name: string)
    requires forall i :: 0 <= i < |nodes| ==> nodes[i].name != name
    ensures ReadyOutside(nodes, touched - {name}) == ReadyOutside(nodes, touched)
    decreases |nodes|
  {
    if nodes == [] {
    } else {
      ReadyOutsideWithout(nodes[..|nodes| - 1], touched, name);
    }
  }

  /** Drain safety: whichever nodes a run selects, at least min(ready, minReady) ready ones stay out of it. */
  lemma EnoughReadyNodesRemain(nodes: seq<DrainNode>, p: Policy, chosen: seq<DrainNode>, touched: set<string>)
    requires DistinctNames(nodes) && IsSelection(nodes, p, chosen)
    requires forall x :: x in touched ==> exists i :: 0 <= i < |chosen| && chosen[i].name == x
    ensures |touched| <= |chosen| <= p.maxNodesPerRun.GetOr(1)
    ensures ReadyOutside(nodes, touched) >= Min(ReadyOutside(nodes, {}), p.minReadyNodes.GetOr(1))
  {
    TouchedAtMost(chosen, touched);
    ReadyOutsideDrops(nodes, touched);
  }

  lemma {:induction false} TouchedAtMost(chosen: seq<DrainNode>, touched: set<string>)
    requires forall x :: x in touched ==> exists i :: 0 <= i < |chosen| && chosen[i].name == x
    ensures |touched| <= |chosen|
    decreases |chosen|
  {
    if chosen == [] {
      assert touched == {} by {
        forall x
          ensures x !in touched
        {
        }
      }
    } else {
      var n := |chosen| - 1;
      var fewer := touched - {chosen[n].name};
      forall x | x in fewer
        ensures exists i :: 0 <= i < n && chosen[..n][i].name == x
      {
        var i :| 0 <= i < |chosen| && chosen[i].name == x;
        assert chosen[..n][i].name == x;
      }
      TouchedAtMost(chosen[..n], fewer);
    }
  }

  // ---------- draining ----------

  datatype Eviction = Evicted | Gone | Refused

  /** The outcome of every call of a run, by node or by pod. */
  datatype Weather = Weather(
    cordon: string -> bool, evict: string -> Eviction, emptied: string -> bool, uncordon: string -> bool,
    remove: string -> bool, progressSaved: string -> bool, finalSaved: bool)

  /** Pods that are gone already or refuse to go are not counted. */
  function CountEvicted(pods: seq<string>, evict: string -> Eviction): nat {
    if pods == [] then 0
    else CountEvicted(pods[..|pods| - 1], evict) + if evict(pods[|pods| - 1]).Evicted? then 1 else 0
  }

  /** The places of the pods whose eviction was accepted. */
  ghost function EvictedAt(pods: seq<string>, evict: string -> Eviction): set<int> {
    set i | 0 <= i < |pods| && evict(pods[i]).Evicted?
  }

  lemma {:induction false} EvictedCount(pods: seq<string>, evict: string -> Eviction)
    ensures CountEvicted(pods, evict) == |EvictedAt(pods, evict)|
  {
    if pods == [] {
    } else {
      var front, n := pods[..|pods| - 1], |pods| - 1;
      EvictedCount(front, evict);
      assert EvictedAt(pods, evict) == EvictedAt(front, evict) + if evict(pods[n]).Evicted? then {n} else {};
    }
  }

  function ActionOf(name: string, p: Policy, env: Weather): Action {
    if p.dryRun then DryRun
    else if !env.cordon(name) || !env.emptied(name) then Failed
    else if p.deleteNodeAfterDrain && env.remove(name) then Deleted
    else Drained
  }

  function ResultOf(c: DrainNode, p: Policy, env: Weather): NodeResult {
    var evicted :=
      if p.dryRun then |c.drainablePods|
      else if env.cordon(c.name) then CountEvicted(c.drainablePods, env.evict)
      else 0;
    NodeResult(c.name, c.cpuPercent, c.memPercent, ActionOf(c.name, p, env), evicted)
  }

  /** Whether a node ends the run unschedulable: cordoned, and not uncordoned after a drain that timed out. */
  predicate EndsCordoned(name: string, before: bool, p: Policy, env: Weather) {
    if p.dryRun || !env.cordon(name) then before else env.emptied(name) || !env.uncordon(name)
  }

  /** What the status of a policy persists of its runs. */
  datatype Saved = Saved(totalNodesDrained: nat, lastRun: Option<RunStatus>)

  function Results(chosen: seq<DrainNode>, p: Policy, env: Weather): seq<NodeResult> {
    seq(|chosen|, i requires 0 <= i < |chosen| => ResultOf(chosen[i], p, env))
  }

  /** How many of the nodes are drained or deleted. */
  function DrainedAmong(chosen: seq<DrainNode>, p: Policy, env: Weather): nat {
    CountActions(Results(chosen, p, env), {Drained, Deleted})
  }

  function RunOf(evaluated: nat, candidates: nat, results: seq<NodeResult>): RunStatus {
    RunStatus(
      evaluated, candidates, CountActions(results, {Drained, Deleted}), CountActions(results, {Deleted}), results)
  }

  /** The status persisted after the given nodes: that of the last drained one whose status write succeeded. */
  function Progress(start: Saved, total: nat, evaluated: nat, candidates: nat, done: seq<DrainNode>, p: Policy,
                    env: Weather): Saved
  {
    if done == [] then start
    else
      var last := done[|done| - 1];
      if ActionOf(last.name, p, env) in {Drained, Deleted} && env.progressSaved(last.name)
      then Saved(total + DrainedAmong(done, p, env), Some(RunOf(evaluated, candidates, Results(done, p, env))))
      else Progress(start, total, evaluated, candidates, done[..|done| - 1], p, env)
  }

  /** When a node may be reported as drained or deleted. */
  ghost predicate EarnedAction(r: NodeResult, p: Policy, env: Weather) {
    match r.action
    case DryRun => p.dryRun
    case Failed => !p.dryRun && (!env.cordon(r.name) || !env.emptied(r.name))
    case Drained =>
      && !p.dryRun && env.cordon(r.name) && env.emptied(r.name)
      && (p.deleteNodeAfterDrain ==> !env.remove(r.name))
    case Deleted =>
      && !p.dryRun && env.cordon(r.name) && env.emptied(r.name)
      && p.deleteNodeAfterDrain && env.remove(r.name)
  }

  /** What a run has made of one node: before and after, whether it is unschedulable and whether it is deleted. */
  ghost predicate EarnedEffect(
    x: string, p: Policy, env: Weather, cordoned0: bool, cordoned: bool, deleted0: bool, deleted: bool)
  {
    && (p.dryRun || !env.cordon(x) ==> cordoned == cordoned0 && deleted == deleted0)
    && (!p.dryRun && env.cordon(x) && env.emptied(x) ==>
          cordoned && (deleted <==> deleted0 || (p.deleteNodeAfterDrain && env.remove(x))))
    && (!p.dryRun && env.cordon(x) && !env.emptied(x) ==>
          (cordoned <==> !env.uncordon(x)) && deleted == deleted0)
  }

  class Cluster {
    var unschedulable: set<string>
    var deleted: set<string>
    var totalNodesDrained: nat       // in memory
    var saved: Saved                 // persisted status

    method EvictPods(pods: seq<string>, evict: string -> Eviction) returns (evicted: nat)
      ensures evicted == CountEvicted(pods, evict)
    {
      evicted := 0;
      for i := 0 to |pods|
        invariant evicted == CountEvicted(pods[..i], evict)
      {
        assert pods[..i + 1][..i] == pods[..i];
        match evict(pods[i]) {
          case Gone =>
            continue;
          case Refused =>
            continue;
          case Evicted =>
            evicted := evicted + 1;
        }
      }
      assert pods[..|pods|] == pods;
    }

    /** Cordon, evict, wait, and delete if configured; a drain that times out is undone. */
    method Drain(c: DrainNode, p: Policy, env: Weather) returns (r: NodeResult)
      modifies `unschedulable, `deleted, `totalNodesDrained
      ensures r == ResultOf(c, p, env)
      ensures forall x :: x in unschedulable <==>
                if x == c.name then EndsCordoned(x, x in old(unschedulable), p, env) else x in old(unschedulable)
      ensures deleted == if r.action.Deleted? then old(deleted) + {c.name} else old(deleted)
      ensures totalNodesDrained == old(totalNodesDrained) + if r.action in {Drained, Deleted} then 1 else 0
      ensures r.name == c.name && EarnedAction(r, p, env)
      ensures EarnedEffect(c.name, p, env, c.name in old(unschedulable), c.name in unschedulable,
                           c.name in old(deleted), c.name in deleted)
    {
      r := NodeResult(c.name, c.cpuPercent, c.memPercent, Failed, 0);
      if p.dryRun {
        return r.(action := DryRun, podsEvicted := |c.drainablePods|);
      }
      if !env.cordon(c.name) {
        return;
      }
      unschedulable := unschedulable + {c.name};
      var evicted := EvictPods(c.drainablePods, env.evict);
      r := r.(podsEvicted := evicted);
      if !env.emptied(c.name) {
        if env.uncordon(c.name) {
          unschedulable := unschedulable - {c.name};
        }
        return;
      }
      r := r.(action := Drained);
      if p.deleteNodeAfterDrain {
        if env.remove(c.name) {
          deleted := deleted + {c.name};
          r := r.(action := Deleted);
        }
      }
      totalNodesDrained := totalNodesDrained + 1;
    }

    /** After a node: its result is counted, and if it was drained the status is persisted. */
    method Conclude(run0: RunStatus, r: NodeResult, env: Weather) returns (run: RunStatus)
      modifies `saved
      ensures run == Counted(run0, r)
      ensures saved ==
        if r.action in {Drained, Deleted} && env.progressSaved(r.name)
        then Saved(totalNodesDrained, Some(run)) else old(saved)
    {
      run := run0.(results := run0.results + [r]);
      if r.action == Drained || r.action == Deleted {
        run := run.(drained := run.drained + 1);
        if r.action == Deleted {
          run := run.(deleted := run.deleted + 1);
        }
        if env.progressSaved(r.name) {
          saved := Saved(totalNodesDrained, Some(run));
        }
      }
    }

    /** Drains the selected nodes one by one, touching nothing else. */
    method DrainSelected(selected: seq<DrainNode>, p: Policy, env: Weather, evaluated: nat, candidates: nat)
      returns (run: RunStatus)
      requires DistinctNames(selected)
      modifies this
      ensures run == RunOf(evaluated, candidates, Results(selected, p, env))
      ensures forall x :: x in unschedulable <==>
                if x in Touched(run.results) then EndsCordoned(x, x in old(unschedulable), p, env)
                else x in old(unschedulable)
      ensures forall x :: x in deleted <==>
                x in old(deleted) || (x in Touched(run.results) && ActionOf(x, p, env) == Deleted)
      ensures totalNodesDrained == old(totalNodesDrained) + run.drained
      ensures saved == Progress(old(saved), old(totalNodesDrained), evaluated, candidates, selected, p, env)
    {
      run := RunStatus(evaluated, candidates, 0, 0, []);
      for i := 0 to |selected|
        invariant run == RunOf(evaluated, candidates, Results(selected[..i], p, env))
        invariant forall x :: x in unschedulable <==>
          if x in Touched(run.results) then EndsCordoned(x, x in old(unschedulable), p, env)
          else x in old(unschedulable)
        invariant forall x :: x in deleted <==>
          x in old(deleted) || (x in Touched(run.results) && ActionOf(x, p, env) == Deleted)
        invariant totalNodesDrained == old(totalNodesDrained) + run.drained
        invariant saved == Progress(old(saved), old(totalNodesDrained), evaluated, candidates, selected[..i], p, env)
      {
        NotTouchedYet(selected, i, p, env);
        var r := Drain(selected[i], p, env);
        TouchedOneMore(run.results, r);
        ResultsOneMore(evaluated, candidates, selected, i, p, env);
        run := Conclude(run, r, env);
      }
      assert selected[..|selected|] == selected;
    }

    /** A drain run over the evaluated nodes: exactly the results of the selected nodes, nothing else touched, and a
        persisted status that is the final one or, if its write fails, that of the last write that succeeded. */
    method DrainRun(nodes: seq<DrainNode>, p: Policy, env: Weather)
      returns (run: RunStatus, ghost chosen: seq<DrainNode>)
      requires DistinctNames(nodes)
      modifies this
      ensures IsSelection(nodes, p, chosen)
      ensures run == RunOf(|nodes|, |Candidates(nodes, p)|, Results(chosen, p, env))
      ensures |run.results| <= p.maxNodesPerRun.GetOr(1)
      ensures ReadyOutside(nodes, Touched(run.results)) >= Min(ReadyOutside(nodes, {}), p.minReadyNodes.GetOr(1))
      ensures forall x :: x in unschedulable <==>
                if x in Touched(run.results) then EndsCordoned(x, x in old(unschedulable), p, env)
                else x in old(unschedulable)
      ensures forall x :: x in deleted <==>
                x in old(deleted) || (x in Touched(run.results) && ActionOf(x, p, env) == Deleted)
      ensures totalNodesDrained == old(totalNodesDrained) + run.drained
      ensures saved ==
        if env.finalSaved then Saved(totalNodesDrained, Some(run))
        else Progress(old(saved), old(totalNodesDrained), |nodes|, |Candidates(nodes, p)|, chosen, p, env)
      ensures forall r :: r in run.results ==> EarnedAction(r, p, env)
      ensures forall x ::
                if x in Touched(run.results)
                then EarnedEffect(x, p, env, x in old(unschedulable), x in unschedulable,
                                  x in old(deleted), x in deleted)
                else (x in unschedulable <==> x in old(unschedulable)) && (x in deleted <==> x in old(deleted))
      ensures p.dryRun ==>
                unschedulable == old(unschedulable) && deleted == old(deleted) &&
                totalNodesDrained == old(totalNodesDrained)
      ensures run.drained == |ActionsAt(run.results, {Drained, Deleted})|
      ensures run.deleted == |ActionsAt(run.results, {Deleted})|
    {
      var selected, count := SelectNodes(nodes, p);
      chosen := selected;
      run := DrainSelected(selected, p, env, |nodes|, count);
      if env.finalSaved {
        saved := Saved(totalNodesDrained, Some(run));
      }
      EnoughReadyNodesRemain(nodes, p, chosen, Touched(run.results));
      ResultsEarned(selected, p, env);
      forall x
        ensures EffectEarned(x, p, env, x in old(unschedulable), x in old(deleted))
      {
        EffectIsEarned(x, p, env, x in old(unschedulable), x in old(deleted));
      }
    }
  }

  /** What a result reports about its node. */
  lemma ResultReports(c: DrainNode, p: Policy, env: Weather)
    ensures
      var r := ResultOf(c, p, env);
      && r.name == c.name && r.cpuPercent == c.cpuPercent && r.memPercent == c.memPercent
      && r.podsEvicted ==
         if p.dryRun then |c.drainablePods|
         else if env.cordon(c.name) then |EvictedAt(c.drainablePods, env.evict)| else 0
  {
    EvictedCount(c.drainablePods, env.evict);
  }

  lemma ResultsEarned(chosen: seq<DrainNode>, p: Policy, env: Weather)
    ensures
      var results := Results(chosen, p, env);
      && (forall r :: r in results ==> EarnedAction(r, p, env))
      && CountActions(results, {Drained, Deleted}) == |ActionsAt(results, {Drained, Deleted})|
      && CountActions(results, {Deleted}) == |ActionsAt(results, {Deleted})|
      && (p.dryRun ==> CountActions(results, {Drained, Deleted}) == 0)
  {
    var results := Results(chosen, p, env);
    ActionsCount(results, {Drained, Deleted});
    ActionsCount(results, {Deleted});
    if p.dryRun {
      assert ActionsAt(results, {Drained, Deleted}) == {};
    }
  }

  /** The effect that the calls' outcomes give a touched node is an earned one. */
  ghost predicate EffectEarned(x: string, p: Policy, env: Weather, cordoned: bool, deleted: bool) {
    EarnedEffect(x, p, env, cordoned, EndsCordoned(x, cordoned, p, env), deleted,
                 deleted || ActionOf(x, p, env) == Deleted)
  }

  lemma EffectIsEarned(x: string, p: Policy, env: Weather, cordoned: bool, deleted: bool)
    ensures EffectEarned(x, p, env, cordoned, deleted)
    ensures p.dryRun ==> EndsCordoned(x, cordoned, p, env) == cordoned && ActionOf(x, p, env) != Deleted
  {
  }

  /** The counters of a run after one more result. */
  function Counted(run: RunStatus, r: NodeResult): RunStatus {
    run.(
      results := run.results + [r],
      drained := run.drained + (if r.action in {Drained, Deleted} then 1 else 0),
      deleted := run.deleted + (if r.action == Deleted then 1 else 0))
  }

  lemma ResultsOneMore(
    evaluated: nat, candidates: nat, chosen: seq<DrainNode>, i: nat, p: Policy, env: Weather)
    requires i < |chosen|
    ensures chosen[..i + 1][..i] == chosen[..i]
    ensures RunOf(evaluated, candidates, Results(chosen[..i + 1], p, env))
         == Counted(RunOf(evaluated, candidates, Results(chosen[..i], p, env)), ResultOf(chosen[i], p, env))
  {
    var before, more := Results(chosen[..i], p, env), Results(chosen[..i + 1], p, env);
    assert more == before + [ResultOf(chosen[i], p, env)];
    assert more[..i] == before;
  }

  /** What a run whose final status write fails leaves uncounted: exactly the nodes drained after the last one whose
      own status write succeeded. */
  lemma {:induction false} UncountedNodes(
    start: Saved, total: nat, evaluated: nat, candidates: nat, done: seq<DrainNode>, p: Policy, env: Weather)
    returns (n: nat)
    requires start.totalNodesDrained == total
    ensures n <= |done|
    ensures
      var saved := Progress(start, total, evaluated, candidates, done, p, env);
      && saved.totalNodesDrained == total + DrainedAmong(done[..n], p, env) <= total + DrainedAmong(done, p, env)
      && (n == 0 || saved.lastRun == Some(RunOf(evaluated, candidates, Results(done[..n], p, env))))
    ensures forall i :: n <= i < |done| && ActionOf(done[i].name, p, env) in {Drained, Deleted} ==>
              !env.progressSaved(done[i].name)
  {
    if done == [] {
      n := 0;
    } else {
      var front, last := done[..|done| - 1], done[|done| - 1];
      if ActionOf(last.name, p, env) in {Drained, Deleted} && env.progressSaved(last.name) {
        n := |done|;
        assert done[..n] == done;
      } else {
        n := UncountedNodes(start, total, evaluated, candidates, front, p, env);
        assert front[..n] == done[..n];
        assert Results(done, p, env)[..|front|] == Results(front, p, env);
      }
    }
  }

  lemma NotTouchedYet(chosen: seq<DrainNode>, i: nat, p: Policy, env: Weather)
    requires DistinctNames(chosen) && i < |chosen|
    ensures chosen[i].name !in Touched(Results(chosen[..i], p, env))
  {
  }

  lemma TouchedOneMore(results: seq<NodeResult>, r: NodeResult)
    ensures Touched(results + [r]) == Touched(results) + {r.name}
  {
    forall x
      ensures x in Touched(results + [r]) <==> x in Touched(results) || x == r.name
    {
      if x in Touched(results) {
        var i :| 0 <= i < |results| && results[i].name == x;
        assert (results + [r])[i].name == x;
      }
      assert (results + [r])[|results|] == r;
    }
  }
}
