/** Whether a pod may run on a node: effective requests, node selectors, taints and tolerations. */
module PodPlacement {
  import opened Common

  datatype Requests = Requests(cpu: int, mem: int)

  /** Container requests; the API server admits no negative quantity. */
  datatype Container = Container(cpu: Option<nat>, mem: Option<nat>)

  datatype Taint = Taint(key: string, value: string, effect: string)
  datatype Toleration = Toleration(key: string, operator: string, value: string, effect: string)
  datatype OwnerRef = OwnerRef(kind: string, name: string)
  datatype PodKey = PodKey(ns: string, name: string)

  datatype Pod = Pod(
    key: PodKey, owners: seq<OwnerRef>, mirror: bool, hostPath: bool, terminating: bool,
    containers: seq<Container>, initContainers: seq<Container>,
    nodeSelector: map<string, string>, tolerations: seq<Toleration>)

  datatype NodeSpec = NodeSpec(
    name: string, labels: map<string, string>, taints: seq<Taint>, cpuAllocatable: int, memAllocatable: int)

  function SumCpu(cs: seq<Container>): nat {
    if cs == [] then 0 else SumCpu(cs[..|cs| - 1]) + cs[|cs| - 1].cpu.GetOr(0)
  }

  function SumMem(cs: seq<Container>): nat {
    if cs == [] then 0 else SumMem(cs[..|cs| - 1]) + cs[|cs| - 1].mem.GetOr(0)
  }

  /** What the scheduler reserves: per resource, the larger of the containers' and the init containers' sum. */
  function PodRequests(pod: Pod): (r: Requests)
    ensures r.cpu >= 0 && r.mem >= 0
  {
    Requests(
      Max(SumCpu(pod.containers), SumCpu(pod.initContainers)),
      Max(SumMem(pod.containers), SumMem(pod.initContainers)))
  }

  method SumRequests(cs: seq<Container>) returns (cpu: int, mem: int)
    ensures cpu == SumCpu(cs) && mem == SumMem(cs)
  {
    cpu, mem := 0, 0;
    for i := 0 to |cs|
      invariant cpu == SumCpu(cs[..i]) && mem == SumMem(cs[..i])
    {
      assert cs[..i + 1][..i] == cs[..i];
      if cs[i].cpu.Some? {
        cpu := cpu + cs[i].cpu.value;
      }
      if cs[i].mem.Some? {
        mem := mem + cs[i].mem.value;
      }
    }
    assert cs[..|cs|] == cs;
  }

  method ComputePodRequests(pod: Pod) returns (r: Requests)
    ensures r == PodRequests(pod)
  {
    var cpu, mem := SumRequests(pod.containers);
    var initCpu, initMem := SumRequests(pod.initContainers);
    if initCpu > cpu {
      cpu := initCpu;
    }
    if initMem > mem {
      mem := initMem;
    }
    return Requests(cpu, mem);
  }

  /** One toleration covers one taint. */
  predicate Covers(tol: Toleration, taint: Taint) {
    || (tol.operator == "Exists" && tol.key == "")
    || (&& tol.key == taint.key
        && (tol.effect == "" || tol.effect == taint.effect)
        && (tol.operator == "Exists"
            || ((tol.operator == "Equal" || tol.operator == "") && tol.value == taint.value)))
  }

  predicate Blocks(taint: Taint) {
    taint.effect == "NoSchedule" || taint.effect == "NoExecute"
  }

  /** Every scheduling-relevant taint of the node is covered by some toleration of the pod. */
  ghost predicate Tolerates(pod: Pod, node: NodeSpec) {
    forall i :: 0 <= i < |node.taints| && Blocks(node.taints[i]) ==>
      exists j :: 0 <= j < |pod.tolerations| && Covers(pod.tolerations[j], node.taints[i])
  }

  /** The node's labels and taints admit the pod. */
  ghost predicate Admits(pod: Pod, node: NodeSpec) {
    && (forall k :: k in pod.nodeSelector ==> Lookup(node.labels, k) == pod.nodeSelector[k])
    && Tolerates(pod, node)
  }

  /** The pod fits on the node on top of the given load. */
  ghost predicate Fits(pod: Pod, node: NodeSpec, load: Requests) {
    && load.cpu + PodRequests(pod).cpu <= node.cpuAllocatable
    && load.mem + PodRequests(pod).mem <= node.memAllocatable
    && Admits(pod, node)
  }

  method PodToleratesTaint(pod: Pod, taint: Taint) returns (tolerated: bool)
    ensures tolerated <==> exists j :: 0 <= j < |pod.tolerations| && Covers(pod.tolerations[j], taint)
  {
    for j := 0 to |pod.tolerations|
      invariant forall m :: 0 <= m < j ==> !Covers(pod.tolerations[m], taint)
    {
      var tol := pod.tolerations[j];
      if tol.operator == "Exists" && tol.key == "" {
        return true;
      }
      if tol.key == taint.key {
        if tol.operator == "Exists" {
          if tol.effect == "" || tol.effect == taint.effect {
            return true;
          }
          continue;
        }
        if tol.operator == "Equal" && tol.value == taint.value {
          if tol.effect == "" || tol.effect == taint.effect {
            return true;
          }
        }
        if tol.operator == "" && tol.value == taint.value {
          if tol.effect == "" || tol.effect == taint.effect {
            return true;
          }
        }
      }
    }
    return false;
  }

  method ToleratesTaints(pod: Pod, node: NodeSpec) returns (tolerated: bool)
    ensures tolerated <==> Tolerates(pod, node)
  {
    for i := 0 to |node.taints|
      invariant forall m :: 0 <= m < i && Blocks(node.taints[m]) ==>
        exists j :: 0 <= j < |pod.tolerations| && Covers(pod.tolerations[j], node.taints[m])
    {
      if node.taints[i].effect != "NoSchedule" && node.taints[i].effect != "NoExecute" {
        continue;
      }
      var covered := PodToleratesTaint(pod, node.taints[i]);
      if !covered {
        return false;
      }
    }
    return true;
  }

  method CanFitOnNode(pod: Pod, node: NodeSpec, load: Requests, r: Requests) returns (fits: bool)
    requires r == PodRequests(pod)
    ensures fits <==> Fits(pod, node, load)
  {
    if load.cpu + r.cpu > node.cpuAllocatable {
      return false;
    }
    if load.mem + r.mem > node.memAllocatable {
      return false;
    }
    if exists k :: k in pod.nodeSelector && Lookup(node.labels, k) != pod.nodeSelector[k] {
      return false;
    }
    fits := ToleratesTaints(pod, node);
  }

  // ---------- requests in plain terms ----------

  /** A pod reserves what its containers request together and what its init containers request together, and no more
      than the larger of the two. */
  lemma RequestsCoverContainers(pod: Pod)
    ensures
      var r := PodRequests(pod);
      && r.cpu >= SumCpu(pod.containers) && r.cpu >= SumCpu(pod.initContainers)
      && r.mem >= SumMem(pod.containers) && r.mem >= SumMem(pod.initContainers)
      && (r.cpu == SumCpu(pod.containers) || r.cpu == SumCpu(pod.initContainers))
      && (r.mem == SumMem(pod.containers) || r.mem == SumMem(pod.initContainers))
  {
  }

  /** One container more adds exactly its requests; what is absent counts as 0. */
  lemma SumOneMore(cs: seq<Container>, c: Container)
    ensures SumCpu([]) == 0 && SumMem([]) == 0
    ensures SumCpu(cs + [c]) == SumCpu(cs) + match c.cpu { case Some(v) => v case None => 0 }
    ensures SumMem(cs + [c]) == SumMem(cs) + match c.mem { case Some(v) => v case None => 0 }
  {
    assert (cs + [c])[..|cs|] == cs;
  }

  lemma {:induction false} SumConcat(a: seq<Container>, b: seq<Container>)
    ensures SumCpu(a + b) == SumCpu(a) + SumCpu(b) && SumMem(a + b) == SumMem(a) + SumMem(b)
    decreases |b|
  {
    if b == [] {
      assert a + b == a;
    } else {
      var front, last := b[..|b| - 1], b[|b| - 1];
      SumConcat(a, front);
      SumOneMore(a + front, last);
      SumOneMore(front, last);
      assert front + [last] == b && a + front + [last] == a + b;
    }
  }

  lemma OneLess(a: seq<Container>, c: Container, b: seq<Container>)
    ensures SumCpu(a + [c] + b) == SumCpu([c]) + SumCpu(a + b)
    ensures SumMem(a + [c] + b) == SumMem([c]) + SumMem(a + b)
  {
    SumConcat(a, b);
    SumConcat(a, [c]);
    SumConcat(a + [c], b);
  }

  lemma RestPermuted(a: seq<Container>, b: seq<Container>, i: nat)
    requires multiset(a) == multiset(b) && a != [] && i < |b| && b[i] == a[0]
    ensures multiset(a[1..]) == multiset(b[..i] + b[i + 1..])
  {
    assert a == [a[0]] + a[1..];
    assert b == b[..i] + [b[i]] + b[i + 1..];
    assert multiset(a) - multiset{a[0]} == multiset(a[1..]);
  }

  /** The order of the containers does not matter. */
  lemma {:induction false} SumPermuted(a: seq<Container>, b: seq<Container>)
    requires multiset(a) == multiset(b)
    ensures SumCpu(a) == SumCpu(b) && SumMem(a) == SumMem(b)
    decreases |a|
  {
    if a == [] {
      assert |b| == |multiset(b)| == 0;
    } else {
      assert a[0] in multiset(b);
      var i :| 0 <= i < |b| && b[i] == a[0];
      RestPermuted(a, b, i);
      SumPermuted(a[1..], b[..i] + b[i + 1..]);
      SumConcat([a[0]], a[1..]);
      OneLess(b[..i], a[0], b[i + 1..]);
      assert a == [a[0]] + a[1..] && b == b[..i] + [a[0]] + b[i + 1..];
    }
  }

  // ---------- taints in plain terms ----------

  /** A pod without tolerations is admitted by a node's taints exactly if they all merely prefer not to schedule. */
  lemma WithoutTolerations(pod: Pod, node: NodeSpec)
    requires pod.tolerations == []
    ensures Tolerates(pod, node) <==>
      forall i :: 0 <= i < |node.taints| ==>
        node.taints[i].effect != "NoSchedule" && node.taints[i].effect != "NoExecute"
  {
    forall i | 0 <= i < |node.taints|
      ensures Blocks(node.taints[i]) <==>
        node.taints[i].effect == "NoSchedule" || node.taints[i].effect == "NoExecute"
    {
    }
  }

  /** One toleration that exists for no key in particular tolerates every node. */
  lemma ToleratesEverything(pod: Pod, node: NodeSpec, j: nat)
    requires j < |pod.tolerations| && pod.tolerations[j].operator == "Exists" && pod.tolerations[j].key == ""
    ensures Tolerates(pod, node)
  {
    assert forall t :: Covers(pod.tolerations[j], t);
  }

  /** The operators: Exists ignores the taint's value, Equal and an absent operator compare it, any other covers
      nothing; the key must agree, and so must the effect unless the toleration leaves it open. */
  lemma CoversByOperator(key: string, value: string, effect: string, taint: Taint)
    requires key != ""
    ensures Covers(Toleration(key, "Exists", value, effect), taint) <==>
      key == taint.key && (effect == "" || effect == taint.effect)
    ensures Covers(Toleration(key, "Equal", value, effect), taint) <==>
      Covers(Toleration(key, "Exists", value, effect), taint) && value == taint.value
    ensures Covers(Toleration(key, "", value, effect), taint) <==>
      Covers(Toleration(key, "Equal", value, effect), taint)
    ensures !Covers(Toleration(key, "In", value, effect), taint)
  {
  }


  // ---------- fitting in plain terms ----------

  /** A node's labels satisfy a pod's node selector: each required label is there with its value; a required empty
      value is satisfied by a missing label, too. */
  lemma SelectorSatisfied(pod: Pod, node: NodeSpec)
    ensures Admits(pod, node) <==>
      && Tolerates(pod, node)
      && forall k :: k in pod.nodeSelector ==>
           || (k in node.labels && node.labels[k] == pod.nodeSelector[k])
           || (k !in node.labels && pod.nodeSelector[k] == "")
  {
  }

  /** A pod fits exactly if there is room for its containers and there is room for its init containers, in both
      resources and to the last unit, and the node admits it. */
  lemma FitsExactly(pod: Pod, node: NodeSpec, load: Requests)
    ensures Fits(pod, node, load) <==>
      && load.cpu + SumCpu(pod.containers) <= node.cpuAllocatable
      && load.cpu + SumCpu(pod.initContainers) <= node.cpuAllocatable
      && load.mem + SumMem(pod.containers) <= node.memAllocatable
      && load.mem + SumMem(pod.initContainers) <= node.memAllocatable
      && Admits(pod, node)
  {
    RequestsCoverContainers(pod);
  }
}
