/**
 Auto-schedule policies: each policy keeps one generated sleep schedule in every namespace it alone selects. The
 reconcile loop is proved to drive every object to the value Goal gives it, or, when a call fails, to have changed only
 some of the objects that way; convergence and the fail-closed treatment of overlaps follow for any interleaving.
 */
module AutoSchedulePolicies {
  import opened Common

  type Labels = map<string, string>

  datatype Window = Window(start: string, end: string, timezone: string, days: seq<int>)
  datatype WorkloadSelector = WorkloadSelector(matchLabels: Labels, matchNames: seq<string>, types: seq<string>)
  datatype ScheduleSpec = ScheduleSpec(
    suspend: bool, selector: WorkloadSelector, schedule: Option<Window>, schedules: seq<Window>,
    reconcileInterval: Option<int>)

  /** A sleep schedule object; managedBy is the value of its managed-by-policy label. */
  datatype SleepSchedule = SleepSchedule(managedBy: Option<string>, spec: ScheduleSpec)

  datatype ScheduleKey = ScheduleKey(ns: string, name: string)
  type Store = map<ScheduleKey, SleepSchedule>

  datatype Profile = Profile(suspend: bool, selector: WorkloadSelector, schedules: seq<Window>)

  /** A namespace selector: absent, unparsable, or a predicate on namespace labels. */
  datatype NamespaceSelector = DefaultSelector | InvalidSelector | Selecting(selects: Labels -> bool)

  datatype Policy = Policy(
    name: string, suspend: bool, deleting: bool, selector: NamespaceSelector,
    profileLabel: string, generatedName: string, profiles: map<string, Profile>)
  {
    function ProfileLabel(): string {
      if profileLabel != "" then profileLabel else "slumlord.io/sleep-profile"
    }

    function GeneratedName(): string {
      if generatedName != "" then generatedName else "auto-sleep"
    }
  }

  /** The inputs of all reconciles: namespaces with their labels, and the policies by name. */
  datatype Inputs = Inputs(namespaces: map<string, Labels>, policies: map<string, Policy>)

  ghost predicate WellNamed(inp: Inputs) {
    forall n :: n in inp.policies ==> inp.policies[n].name == n
  }

  /** Live policies under their own names. */
  ghost predicate LivePolicies(inp: Inputs) {
    WellNamed(inp) && forall q :: q in inp.policies ==> !inp.policies[q].deleting
  }

  /** The policy's selector is read, as there is a namespace to match, and does not parse. */
  ghost predicate Unparsable(inp: Inputs, p: Policy) {
    p.selector.InvalidSelector? && inp.namespaces.Keys != {}
  }

  /** The policy's reconciles look after its namespaces: not suspended, with a selector that parses. */
  ghost predicate Active(inp: Inputs, q: string) {
    q in inp.policies && !inp.policies[q].suspend && !Unparsable(inp, inp.policies[q])
  }

  // ---------- pure helpers ----------

  /** Whether the policy selects a namespace with these labels; None if its selector does not parse. */
  function NamespaceMatches(p: Policy, labels: Labels): Option<bool> {
    match p.selector
    case DefaultSelector => Some(p.ProfileLabel() in labels)
    case InvalidSelector => None
    case Selecting(selects) => Some(selects(labels))
  }

  function BuildSpec(profile: Profile): ScheduleSpec {
    ScheduleSpec(profile.suspend, profile.selector, None, profile.schedules, None)
  }

  predicate LabelsEqual(a: Labels, b: Labels) {
    |a| == |b| && forall k :: k in a ==> Lookup(b, k) == a[k]
  }

  /** The controller's comparison of the fields a policy manages. */
  predicate SleepSpecEqual(a: ScheduleSpec, b: ScheduleSpec) {
    && a.suspend == b.suspend
    && a.selector.types == b.selector.types
    && a.selector.matchNames == b.selector.matchNames
    && LabelsEqual(a.selector.matchLabels, b.selector.matchLabels)
    && a.schedules == b.schedules
  }

  predicate SameTemplate(a: ScheduleSpec, b: ScheduleSpec) {
    a.suspend == b.suspend && a.selector == b.selector && a.schedules == b.schedules
  }

  lemma {:induction false} SubsetOfSameSize<T>(a: set<T>, b: set<T>)
    requires a <= b && |a| == |b|
    ensures a == b
  {
    if a == {} {
    } else {
      var x :| x in a;
      SubsetOfSameSize(a - {x}, b - {x});
    }
  }

  /** The comparison is exact except for empty label values: it takes a missing label for one with value "". */
  lemma SleepSpecEqualExactly(a: ScheduleSpec, b: ScheduleSpec)
    ensures SameTemplate(a, b) <==>
      && SleepSpecEqual(a, b)
      && forall k :: k in a.selector.matchLabels && a.selector.matchLabels[k] == "" ==> k in b.selector.matchLabels
  {
    var la, lb := a.selector.matchLabels, b.selector.matchLabels;
    if SleepSpecEqual(a, b) && forall k :: k in la && la[k] == "" ==> k in lb {
      assert forall k :: k in la ==> k in lb && lb[k] == la[k];
      assert |la.Keys| == |lb.Keys|;
      SubsetOfSameSize(la.Keys, lb.Keys);
      assert la == lb;
    }
  }

  lemma EmptyLabelValueFools()
    ensures
      var blank := ScheduleSpec(false, WorkloadSelector(map["team" := ""], [], []), None, [], None);
      var other := ScheduleSpec(false, WorkloadSelector(map["app" := "x"], [], []), None, [], None);
      SleepSpecEqual(blank, other) && !SameTemplate(blank, other) && !SleepSpecEqual(other, blank)
  {
    var la: Labels, lb: Labels := map["team" := ""], map["app" := "x"];
    assert Lookup(la, "app") == "" && lb["app"] == "x";
    assert "team" in la && "team" !in lb;
  }

  // ---------- the goal of a reconcile ----------

  ghost predicate Selects(inp: Inputs, q: string, ns: string) {
    && q in inp.policies && ns in inp.namespaces
    && NamespaceMatches(inp.policies[q], inp.namespaces[ns]) == Some(true)
  }

  /** The other live policies that select the namespace; suspended ones count. */
  ghost function Overlap(inp: Inputs, name: string, ns: string): set<string> {
    set q | q in inp.policies && q != name && !inp.policies[q].deleting && Selects(inp, q, ns)
  }

  function ProfileOf(p: Policy, labels: Labels): string {
    Lookup(labels, p.ProfileLabel())
  }

  /** The namespace gets a generated schedule: selected by this policy alone, with a declared profile. */
  ghost predicate Eligible(inp: Inputs, p: Policy, ns: string) {
    && Selects(inp, p.name, ns) && Overlap(inp, p.name, ns) == {}
    && ProfileOf(p, inp.namespaces[ns]) in p.profiles
  }

  ghost function Template(inp: Inputs, p: Policy, ns: string): ScheduleSpec
    requires Eligible(inp, p, ns)
  {
    BuildSpec(p.profiles[ProfileOf(p, inp.namespaces[ns])])
  }

  /** A spec that says what the namespace's profile says. */
  ghost predicate FollowsProfile(inp: Inputs, p: Policy, ns: string, spec: ScheduleSpec) {
    && ns in inp.namespaces && ProfileOf(p, inp.namespaces[ns]) in p.profiles
    && var profile := p.profiles[ProfileOf(p, inp.namespaces[ns])];
       && spec.suspend == profile.suspend && spec.schedules == profile.schedules
       && spec.selector.types == profile.selector.types && spec.selector.matchNames == profile.selector.matchNames
       && LabelsEqual(spec.selector.matchLabels, profile.selector.matchLabels)
  }

  function At(s: Store, k: ScheduleKey): Option<SleepSchedule> {
    if k in s then Some(s[k]) else None
  }

  predicate Owned(x: Option<SleepSchedule>, p: Policy) {
    x.Some? && x.value.managedBy == Some(p.name)
  }

  predicate Foreign(x: Option<SleepSchedule>, p: Policy) {
    x.Some? && x.value.managedBy != Some(p.name)
  }

  /** What a successful reconcile leaves at key k, given what was there. */
  ghost function Goal(inp: Inputs, p: Policy, k: ScheduleKey, x: Option<SleepSchedule>): Option<SleepSchedule> {
    if Foreign(x, p) then x
    else if k.name == p.GeneratedName() && Eligible(inp, p, k.ns) then
      var t := Template(inp, p, k.ns);
      if x.None? then Some(SleepSchedule(Some(p.name), t))
      else if SleepSpecEqual(x.value.spec, t) then x
      else Some(x.value.(spec := t))
    else None
  }

  ghost predicate Reached(inp: Inputs, p: Policy, s: Store, s': Store) {
    forall k :: At(s', k) == Goal(inp, p, k, At(s, k))
  }

  /** A reconcile that failed on the way has moved some objects to their goal and left the others alone. */
  ghost predicate OnTheWay(inp: Inputs, p: Policy, s: Store, s': Store) {
    forall k :: At(s', k) == At(s, k) || At(s', k) == Goal(inp, p, k, At(s, k))
  }

  /** The log grew only by objects that now differ from what they were. */
  ghost predicate EffectiveWrites(w0: seq<ScheduleKey>, w: seq<ScheduleKey>, s0: Store, s: Store) {
    w0 <= w && forall i :: |w0| <= i < |w| ==> At(s, w[i]) != At(s0, w[i])
  }

  lemma WrittenKeyChanged(w0: seq<ScheduleKey>, w: seq<ScheduleKey>, s0: Store, s: Store, i: nat)
    requires EffectiveWrites(w0, w, s0, s) && |w0| <= i < |w|
    ensures s != s0
  {
    assert At(s, w[i]) != At(s0, w[i]);
  }

  lemma EffectiveWritesCompose(
    w0: seq<ScheduleKey>, w1: seq<ScheduleKey>, w2: seq<ScheduleKey>, s0: Store, s1: Store, s2: Store)
    requires EffectiveWrites(w0, w1, s0, s1) && EffectiveWrites(w1, w2, s1, s2)
    requires forall k :: At(s2, k) == At(s1, k) || At(s1, k) == At(s0, k)
    ensures EffectiveWrites(w0, w2, s0, s2)
  {
    forall i | |w0| <= i < |w2|
      ensures At(s2, w2[i]) != At(s0, w2[i])
    {
      if i < |w1| {
        assert w2[i] == w1[i];
      }
    }
  }

  datatype Status = Status(matched: nat, generated: nat, conflicts: seq<string>, missing: seq<string>)

  // ---------- the code ----------

  class ApiServer {
    var schedules: Store
    var inputs: Inputs
    var finalizers: set<string>            // policies that carry the finalizer
    ghost var writes: seq<ScheduleKey>     // every object create, update and delete that went through

    ghost predicate WritesSince(w0: seq<ScheduleKey>, s0: Store)
      reads this
    {
      EffectiveWrites(w0, writes, s0, schedules)
    }

    method Put(k: ScheduleKey, x: SleepSchedule) returns (ok: bool)
      modifies `schedules, `writes
      ensures schedules == if ok then old(schedules)[k := x] else old(schedules)
      ensures writes == if ok then old(writes) + [k] else old(writes)
    {
      ok := *;
      if ok {
        schedules, writes := schedules[k := x], writes + [k];
      }
    }

    method Remove(k: ScheduleKey) returns (ok: bool)
      requires k in schedules
      modifies `schedules, `writes
      ensures schedules == if ok then old(schedules) - {k} else old(schedules)
      ensures writes == if ok then old(writes) + [k] else old(writes)
    {
      ok := *;
      if ok {
        schedules, writes := schedules - {k}, writes + [k];
      }
    }

    /** Names of the other live policies that select the namespace. */
    method OverlappingPolicies(name: string, ns: string) returns (overlap: set<string>)
      requires ns in inputs.namespaces
      ensures overlap == Overlap(inputs, name, ns)
    {
      overlap := {};
      var todo := inputs.policies.Keys;
      while todo != {}
        invariant todo <= inputs.policies.Keys
        invariant overlap == Overlap(inputs, name, ns) - todo
        decreases todo
      {
        var q :| q in todo;
        todo := todo - {q};
        if q == name || inputs.policies[q].deleting {
          continue;
        }
        if NamespaceMatches(inputs.policies[q], inputs.namespaces[ns]) == Some(true) {
          overlap := overlap + {q};
        }
      }
    }

    /** Deletes the policy's schedules, except those of the given name in the namespaces to keep. */
    method DeleteOwned(p: Policy, keep: set<string>, name: string) returns (ok: bool)
      modifies `schedules, `writes
      ensures forall k ::
        || At(schedules, k) == old(At(schedules, k))
        || (At(schedules, k) == None && Owned(old(At(schedules, k)), p) && !(k.ns in keep && k.name == name))
      ensures ok ==> forall k :: Owned(At(schedules, k), p) ==> k.ns in keep && k.name == name
      ensures WritesSince(old(writes), old(schedules))
    {
      var listed: bool := *;
      if !listed {
        return false;
      }
      var todo := set k | k in schedules && schedules[k].managedBy == Some(p.name)
                          && !(k.ns in keep && k.name == name);
      while todo != {}
        invariant forall k :: k in todo ==> Owned(At(schedules, k), p) && !(k.ns in keep && k.name == name)
        invariant forall k :: Owned(At(schedules, k), p) && !(k.ns in keep && k.name == name) ==> k in todo
        invariant forall k :: k in schedules ==> At(schedules, k) == old(At(schedules, k))
        invariant forall k :: k !in schedules && k in old(schedules) ==>
                    Owned(old(At(schedules, k)), p) && !(k.ns in keep && k.name == name)
        invariant WritesSince(old(writes), old(schedules))
        decreases todo
      {
        var k :| k in todo;
        var removed := Remove(k);
        if !removed {
          return false;
        }
        todo := todo - {k};
      }
      return true;
    }

    /** One selected namespace: conflict, missing profile, or its generated schedule created or brought up to date. */
    method ReconcileNamespace(p: Policy, ns: string) returns (ok: bool, outcome: Outcome)
      requires p.name in inputs.policies && inputs.policies[p.name] == p && Selects(inputs, p.name, ns)
      modifies `schedules, `writes
      ensures NamespaceDone(inputs, p, ns, ok, old(schedules), schedules)
      ensures ok ==> outcome == Expected(inputs, p, ns, old(schedules))
      ensures WritesSince(old(writes), old(schedules))
    {
      var labels := inputs.namespaces[ns];
      var overlap := OverlappingPolicies(p.name, ns);
      if overlap != {} {
        return true, Conflict;
      }
      if ProfileOf(p, labels) !in p.profiles {
        return true, Missing;
      }
      var desired := BuildSpec(p.profiles[ProfileOf(p, labels)]);
      var k := ScheduleKey(ns, p.GeneratedName());
      var found: bool := *;
      if !found {
        return false, Conflict;
      }
      if k !in schedules {
        ok := Put(k, SleepSchedule(Some(p.name), desired));
        return ok, Generated;
      }
      var existing := schedules[k];
      if existing.managedBy != Some(p.name) {
        return true, Conflict;
      }
      if !SleepSpecEqual(existing.spec, desired) {
        SleepSpecEqualReflexive(desired);
        ok := Put(k, existing.(spec := desired));
        return ok, Generated;
      }
      return true, Generated;
    }

    /** The listed namespaces the policy selects, in order; not ok if its selector does not parse. */
    method MatchedNamespaces(p: Policy, listed: seq<string>) returns (ok: bool, matched: seq<string>)
      requires p.name in inputs.policies && inputs.policies[p.name] == p
      requires forall ns :: ns in listed <==> ns in inputs.namespaces
      requires Distinct(listed)
      ensures ok <==> p.selector.InvalidSelector? ==> listed == []
      ensures ok ==> Distinct(matched) && forall ns :: ns in matched <==> Selects(inputs, p.name, ns)
    {
      matched := [];
      for i := 0 to |listed|
        invariant p.selector.InvalidSelector? ==> i == 0
        invariant Distinct(matched)
        invariant forall ns :: ns in matched <==> ns in listed[..i] && Selects(inputs, p.name, ns)
      {
        assert listed[..i + 1] == listed[..i] + [listed[i]] && listed[i] !in listed[..i];
        var selected := NamespaceMatches(p, inputs.namespaces[listed[i]]);
        if selected.None? {
          return false, [];
        }
        if selected.value {
          matched := matched + [listed[i]];
        }
      }
      assert listed[..|listed|] == listed;
      return true, matched;
    }

    /** The namespace loop of a reconcile, with its counts and lists. */
    method ReconcileNamespaces(p: Policy, matched: seq<string>)
      returns (ok: bool, desired: set<string>, status: Status, ghost n: nat)
      requires p.name in inputs.policies && inputs.policies[p.name] == p
      requires Distinct(matched) && forall ns :: ns in matched ==> Selects(inputs, p.name, ns)
      modifies `schedules, `writes
      ensures n <= |matched| && (ok ==> n == |matched|)
      ensures Progressed(inputs, p, matched[..n], old(schedules), schedules)
      ensures ok ==> Tally(Reports(inputs, p, old(schedules)), matched, desired, status)
      ensures WritesSince(old(writes), old(schedules))
    {
      desired, status := {}, Status(|matched|, 0, [], []);
      ghost var s0 := schedules;
      ghost var report := Reports(inputs, p, s0);
      for i := 0 to |matched|
        invariant Progressed(inputs, p, matched[..i], s0, schedules)
        invariant status.matched == |matched|
        invariant Tally(report, matched[..i], desired, status.(matched := i))
        invariant WritesSince(old(writes), s0)
      {
        var ns := matched[i];
        ghost var s1, w1 := schedules, writes;
        assert matched[..i + 1] == matched[..i] + [ns];
        NotYetReached(inputs, p, matched[..i], ns, s0, s1);
        var reconciled, outcome := ReconcileNamespace(p, ns);
        NamespaceProgress(inputs, p, matched[..i], ns, reconciled, s0, s1, schedules, old(writes), w1, writes);
        if !reconciled {
          return false, {}, status, i;
        }
        TallyOneMore(report, matched[..i], ns, desired, status.(matched := i));
        if outcome == Generated {
          desired := desired + {ns};
        }
        status := Tallied(status, ns, outcome);
      }
      assert matched[..|matched|] == matched;
      return true, desired, status, |matched|;
    }

    /** An unsuspended, undeleted policy: bring its namespaces up to date, then delete its orphans. */
    method ReconcileLive(p: Policy, listed: seq<string>)
      returns (ok: bool, status: Option<Status>, ghost matched: seq<string>)
      requires p.name in inputs.policies && inputs.policies[p.name] == p
      requires Distinct(listed) && forall ns :: ns in listed <==> ns in inputs.namespaces
      modifies `schedules, `writes
      ensures ok ==> Reached(inputs, p, old(schedules), schedules)
      ensures OnTheWay(inputs, p, old(schedules), schedules)
      ensures Unparsable(inputs, p) ==> !ok && schedules == old(schedules)
      ensures ok ==> status.Some? && IsStatus(inputs, p, old(schedules), matched, status.value)
      ensures WritesSince(old(writes), old(schedules))
    {
      var listing: bool := *;
      if !listing {
        return false, None, [];
      }
      ghost var s0, w0 := schedules, writes;
      var parsed, names := MatchedNamespaces(p, listed);
      if !parsed {
        return false, None, [];
      }
      var done, desired, counts, n := ReconcileNamespaces(p, names);
      if !done {
        PartlyOnTheWay(inputs, p, names[..n], s0, schedules);
        return false, None, [];
      }
      assert names[..n] == names;
      ghost var s1, w1 := schedules, writes;
      var pruned := DeleteOwned(p, desired, p.GeneratedName());
      OrphansGone(inputs, p, names, desired, s0, s1, schedules, pruned);
      EffectiveWritesCompose(w0, w1, writes, s0, s1, schedules);
      if !pruned {
        return false, None, [];
      }
      var written: bool := *;
      return written, Some(counts), names;
    }

    /** The reconcile loop of one policy. */
    method Reconcile(name: string, listed: seq<string>)
      returns (ok: bool, status: Option<Status>, ghost matched: seq<string>)
      requires WellNamed(inputs)
      requires Distinct(listed) && forall ns :: ns in listed <==> ns in inputs.namespaces
      modifies this
      ensures inputs == old(inputs) || (inputs == old(inputs).(policies := old(inputs).policies - {name})
                && name in old(inputs).policies && old(inputs).policies[name].deleting)
      ensures WritesSince(old(writes), old(schedules))
      ensures
        var inp := old(inputs);
        name !in inp.policies || (inp.policies[name].suspend && !inp.policies[name].deleting) ==>
          schedules == old(schedules)
      ensures
        var inp := old(inputs);
        name in inp.policies && !inp.policies[name].deleting && !inp.policies[name].suspend ==>
          var p := inp.policies[name];
          && OnTheWay(inp, p, old(schedules), schedules)
          && (Unparsable(inp, p) ==> !ok && schedules == old(schedules))
          && (ok ==> Reached(inp, p, old(schedules), schedules))
          && (ok ==> status.Some? && IsStatus(inp, p, old(schedules), matched, status.value))
      ensures
        var inp := old(inputs);
        name in inp.policies && inp.policies[name].deleting ==>
          var p := inp.policies[name];
          && (forall k :: At(schedules, k) == old(At(schedules, k))
                || (At(schedules, k) == None && Owned(old(At(schedules, k)), p)))
          && (inputs != inp ==> forall k :: !Owned(At(schedules, k), p))
    {
      status, matched := None, [];
      if name !in inputs.policies {
        return true, None, [];
      }
      var p := inputs.policies[name];
      if p.deleting {
        if name in finalizers {
          ok := DeleteOwned(p, {}, "");
          if !ok {
            return;
          }
          ok := *;
          if ok {
            finalizers := finalizers - {name};
            inputs := inputs.(policies := inputs.policies - {name});
          }
          return;
        }
        return true, None, [];
      }
      if name !in finalizers {
        ok := *;
        if !ok {
          return;
        }
        finalizers := finalizers + {name};
      }
      if p.suspend {
        return true, None, [];
      }
      ok, status, matched := ReconcileLive(p, listed);
    }
  }

  /** The status of a successful reconcile: its lists partition the namespaces the policy selects. */
  ghost predicate IsStatus(inp: Inputs, p: Policy, s: Store, matched: seq<string>, status: Status) {
    && Distinct(matched) && (forall ns :: ns in matched <==> Selects(inp, p.name, ns))
    && exists desired :: Tally(Reports(inp, p, s), matched, desired, status)
  }

  lemma PartlyOnTheWay(inp: Inputs, p: Policy, done: seq<string>, s0: Store, s: Store)
    requires Progressed(inp, p, done, s0, s)
    ensures OnTheWay(inp, p, s0, s)
  {
    forall k
      ensures At(s, k) == At(s0, k) || At(s, k) == Goal(inp, p, k, At(s0, k))
    {
      assert At(s, k) == AfterNamespaces(inp, p, done, k, At(s0, k));
    }
  }

  /** Deleting every owned schedule outside the generated ones completes the reconcile, and only removes objects
      that the namespace loop had left alone. */
  lemma OrphansGone(
    inp: Inputs, p: Policy, matched: seq<string>, desired: set<string>, s0: Store, s1: Store, s2: Store, ok: bool)
    requires Progressed(inp, p, matched, s0, s1)
    requires forall ns :: ns in matched <==> Selects(inp, p.name, ns)
    requires forall ns :: ns in desired <==> ns in matched && Expected(inp, p, ns, s0) == Generated
    requires forall k :: At(s2, k) == At(s1, k) ||
               (At(s2, k) == None && Owned(At(s1, k), p) && !(k.ns in desired && k.name == p.GeneratedName()))
    requires ok ==> forall k :: Owned(At(s2, k), p) ==> k.ns in desired && k.name == p.GeneratedName()
    ensures OnTheWay(inp, p, s0, s2)
    ensures ok ==> Reached(inp, p, s0, s2)
    ensures forall k :: At(s2, k) == At(s1, k) || At(s1, k) == At(s0, k)
  {
    forall k
      ensures At(s2, k) == At(s0, k) || At(s2, k) == Goal(inp, p, k, At(s0, k))
      ensures ok ==> At(s2, k) == Goal(inp, p, k, At(s0, k))
      ensures At(s2, k) == At(s1, k) || At(s1, k) == At(s0, k)
    {
      assert At(s1, k) == AfterNamespaces(inp, p, matched, k, At(s0, k));
      assert k.name == p.GeneratedName() ==> k == ScheduleKey(k.ns, p.GeneratedName());
    }
  }

  /** The store at key k once the given namespaces have been reconciled, before orphans are deleted. */
  ghost function AfterNamespaces(
    inp: Inputs, p: Policy, done: seq<string>, k: ScheduleKey, x: Option<SleepSchedule>): Option<SleepSchedule>
  {
    if k.name == p.GeneratedName() && k.ns in done && Eligible(inp, p, k.ns) then Goal(inp, p, k, x) else x
  }

  ghost predicate Progressed(inp: Inputs, p: Policy, done: seq<string>, s0: Store, s: Store) {
    forall k :: At(s, k) == AfterNamespaces(inp, p, done, k, At(s0, k))
  }

  lemma NotYetReached(inp: Inputs, p: Policy, done: seq<string>, ns: string, s0: Store, s: Store)
    requires Progressed(inp, p, done, s0, s) && ns !in done
    ensures var k := ScheduleKey(ns, p.GeneratedName()); At(s, k) == At(s0, k)
    ensures Expected(inp, p, ns, s) == Expected(inp, p, ns, s0)
  {
    var k := ScheduleKey(ns, p.GeneratedName());
    assert At(s, k) == AfterNamespaces(inp, p, done, k, At(s0, k));
  }

  /** One namespace was reconciled: at most its generated schedule changed, and only towards its goal. */
  ghost predicate NamespaceDone(inp: Inputs, p: Policy, ns: string, ok: bool, s1: Store, s2: Store) {
    var k := ScheduleKey(ns, p.GeneratedName());
    && (forall j :: j != k ==> At(s2, j) == At(s1, j))
    && At(s2, k) == if ok && Eligible(inp, p, ns) then Goal(inp, p, k, At(s1, k)) else At(s1, k)
  }

  lemma NamespaceProgress(
    inp: Inputs, p: Policy, done: seq<string>, ns: string, ok: bool, s0: Store, s1: Store, s2: Store,
    w0: seq<ScheduleKey>, w1: seq<ScheduleKey>, w2: seq<ScheduleKey>)
    requires Progressed(inp, p, done, s0, s1) && ns !in done && NamespaceDone(inp, p, ns, ok, s1, s2)
    requires EffectiveWrites(w0, w1, s0, s1) && EffectiveWrites(w1, w2, s1, s2)
    ensures Progressed(inp, p, if ok then done + [ns] else done, s0, s2)
    ensures EffectiveWrites(w0, w2, s0, s2)
  {
    var key := ScheduleKey(ns, p.GeneratedName());
    NotYetReached(inp, p, done, ns, s0, s1);
    EffectiveWritesCompose(w0, w1, w2, s0, s1, s2);
    forall k
      ensures At(s2, k) == AfterNamespaces(inp, p, if ok then done + [ns] else done, k, At(s0, k))
    {
      assert At(s1, k) == AfterNamespaces(inp, p, done, k, At(s0, k));
      assert k.name == p.GeneratedName() && k.ns == ns ==> k == key;
    }
  }

  datatype Outcome = Generated | Conflict | Missing

  /** How a selected namespace is reported. */
  ghost function Expected(inp: Inputs, p: Policy, ns: string, s: Store): Outcome {
    if ns !in inp.namespaces || Overlap(inp, p.name, ns) != {} then Conflict
    else if ProfileOf(p, inp.namespaces[ns]) !in p.profiles then Missing
    else if Foreign(At(s, ScheduleKey(ns, p.GeneratedName())), p) then Conflict
    else Generated
  }

  ghost function Reports(inp: Inputs, p: Policy, s: Store): string -> Outcome {
    ns => Expected(inp, p, ns, s)
  }

  function Reported(report: string -> Outcome, done: seq<string>, o: Outcome): seq<string> {
    if done == [] then []
    else
      var rest := Reported(report, done[..|done| - 1], o);
      if report(done[|done| - 1]) == o then rest + [done[|done| - 1]] else rest
  }

  function Tallied(status: Status, ns: string, o: Outcome): Status {
    match o
    case Generated => status.(generated := status.generated + 1)
    case Conflict => status.(conflicts := status.conflicts + [ns])
    case Missing => status.(missing := status.missing + [ns])
  }

  /** The counts and lists of a status describe the given namespaces, in order. */
  ghost predicate Tally(report: string -> Outcome, done: seq<string>, desired: set<string>, status: Status) {
    && status.matched == |done|
    && (forall ns :: ns in desired <==> ns in done && report(ns) == Generated)
    && status.generated == |Reported(report, done, Generated)|
    && status.conflicts == Reported(report, done, Conflict)
    && status.missing == Reported(report, done, Missing)
  }

  lemma TallyOneMore(
    report: string -> Outcome, done: seq<string>, ns: string, desired: set<string>, status: Status)
    requires Tally(report, done, desired, status)
    ensures Tally(report, done + [ns], if report(ns) == Generated then desired + {ns} else desired,
                  Tallied(status, ns, report(ns)).(matched := |done| + 1))
  {
    assert (done + [ns])[..|done|] == done;
  }

  /** Every matched namespace is generated, in conflict, or without a profile. */
  lemma {:induction false} ReportedAddUp(report: string -> Outcome, done: seq<string>)
    ensures |done| == |Reported(report, done, Generated)| + |Reported(report, done, Conflict)|
                    + |Reported(report, done, Missing)|
  {
    if done == [] {
    } else {
      ReportedAddUp(report, done[..|done| - 1]);
    }
  }

  lemma SleepSpecEqualReflexive(a: ScheduleSpec)
    ensures SleepSpecEqual(a, a)
  {
  }

  // ---------- convergence ----------

  /** Goals are stable: a second reconcile wants nothing else. */
  lemma GoalIsStable(inp: Inputs, p: Policy, k: ScheduleKey, x: Option<SleepSchedule>)
    ensures Goal(inp, p, k, Goal(inp, p, k, x)) == Goal(inp, p, k, x)
  {
    if k.name == p.GeneratedName() && Eligible(inp, p, k.ns) {
      SleepSpecEqualReflexive(Template(inp, p, k.ns));
    }
  }

  /** Convergence: a successful reconcile leaves the policy's schedules exactly at the generated name of the
      namespaces it alone selects, with a declared profile and no foreign object in the way, each up to date. */
  lemma Convergence(inp: Inputs, p: Policy, s: Store, s': Store, k: ScheduleKey)
    requires Reached(inp, p, s, s')
    ensures Owned(At(s', k), p) <==>
      k.name == p.GeneratedName() && Eligible(inp, p, k.ns) && !Foreign(At(s, k), p)
    ensures Owned(At(s', k), p) ==> FollowsProfile(inp, p, k.ns, s'[k].spec)
  {
    assert At(s', k) == Goal(inp, p, k, At(s, k));
    if k.name == p.GeneratedName() && Eligible(inp, p, k.ns) {
      SleepSpecEqualReflexive(Template(inp, p, k.ns));
    }
  }

  /** A schedule that a reconcile creates, or replaces because its managed fields differ, is exactly its profile: the
      same suspension, selector and windows, and nothing else. */
  lemma WrittenFromProfile(inp: Inputs, p: Policy, s: Store, s': Store, k: ScheduleKey)
    requires Reached(inp, p, s, s') && Owned(At(s', k), p) && At(s', k) != At(s, k)
    ensures k.ns in inp.namespaces && ProfileOf(p, inp.namespaces[k.ns]) in p.profiles
    ensures
      var profile := p.profiles[ProfileOf(p, inp.namespaces[k.ns])];
      s'[k] == SleepSchedule(
        Some(p.name), ScheduleSpec(profile.suspend, profile.selector, None, profile.schedules, None))
  {
    assert At(s', k) == Goal(inp, p, k, At(s, k));
  }

  /** A profile label and a schedule name of its own replace the defaults. */
  lemma OwnNames(p: Policy, labels: Labels)
    requires p.profileLabel != "" && p.generatedName != ""
    ensures p.GeneratedName() == p.generatedName
    ensures p.selector.DefaultSelector? ==> NamespaceMatches(p, labels) == Some(p.profileLabel in labels)
    ensures p.profileLabel in labels ==> ProfileOf(p, labels) == labels[p.profileLabel]
  {
  }

  /** A selector decides by itself, whatever the profile label says. */
  lemma SelectorDecides(p: Policy, labels: Labels)
    requires !p.selector.DefaultSelector?
    ensures NamespaceMatches(p, labels) ==
      if p.selector.Selecting? then Some(p.selector.selects(labels)) else None
  {
  }

  /** A policy without a selector, profile label or schedule name of its own selects exactly the namespaces labelled
      slumlord.io/sleep-profile, takes the profile of that name, and generates the schedule auto-sleep. */
  lemma DefaultPolicy(p: Policy, labels: Labels)
    requires p.selector.DefaultSelector? && p.profileLabel == "" && p.generatedName == ""
    ensures NamespaceMatches(p, labels) == Some("slumlord.io/sleep-profile" in labels)
    ensures "slumlord.io/sleep-profile" in labels ==> ProfileOf(p, labels) == labels["slumlord.io/sleep-profile"]
    ensures p.GeneratedName() == "auto-sleep"
  {
  }

  /** A namespace gets a schedule exactly if the policy selects it, no other policy does, unless that one is being
      deleted, and the profile its label names is declared. */
  lemma EligibleExactly(inp: Inputs, p: Policy, ns: string)
    ensures Eligible(inp, p, ns) <==>
      && Selects(inp, p.name, ns) && Lookup(inp.namespaces[ns], p.ProfileLabel()) in p.profiles
      && forall q :: q in inp.policies && q != p.name && Selects(inp, q, ns) ==> inp.policies[q].deleting
  {
    if !(forall q :: q in inp.policies && q != p.name && Selects(inp, q, ns) ==> inp.policies[q].deleting) {
      var q :| q in inp.policies && q != p.name && Selects(inp, q, ns) && !inp.policies[q].deleting;
      assert q in Overlap(inp, p.name, ns);
    }
    if q :| q in Overlap(inp, p.name, ns) {
      assert Selects(inp, q, ns);
    }
  }

  /** The reported counts add up: matched = generated + conflicts + missing. */
  lemma StatusAddsUp(inp: Inputs, p: Policy, s: Store, matched: seq<string>, status: Status)
    requires IsStatus(inp, p, s, matched, status)
    ensures status.matched == status.generated + |status.conflicts| + |status.missing|
  {
    ReportedAddUp(Reports(inp, p, s), matched);
  }

  lemma {:induction false} ReportedMembers(report: string -> Outcome, done: seq<string>, o: Outcome, ns: string)
    ensures ns in Reported(report, done, o) <==> ns in done && report(ns) == o
  {
    if done == [] {
    } else {
      var n := |done| - 1;
      ReportedMembers(report, done[..n], o, ns);
      assert done == done[..n] + [done[n]];
    }
  }

  /** What the status of a successful reconcile says about a selected namespace: it is in conflict exactly if another
      live policy selects it, or a schedule that is not the policy's has the generated name there; it misses its
      profile exactly if it is otherwise eligible; and in neither list exactly if it has its generated schedule. */
  lemma StatusDescribesStore(
    inp: Inputs, p: Policy, s: Store, s': Store, matched: seq<string>, status: Status, ns: string)
    requires Reached(inp, p, s, s') && IsStatus(inp, p, s, matched, status) && Selects(inp, p.name, ns)
    ensures
      var k, declared := ScheduleKey(ns, p.GeneratedName()), ProfileOf(p, inp.namespaces[ns]) in p.profiles;
      && (ns in status.conflicts <==> Overlap(inp, p.name, ns) != {} || (declared && Foreign(At(s, k), p)))
      && (ns in status.missing <==> Overlap(inp, p.name, ns) == {} && !declared)
      && (ns !in status.conflicts && ns !in status.missing <==> Owned(At(s', k), p))
  {
    var report := Reports(inp, p, s);
    assert ns in matched;
    ReportedMembers(report, matched, Conflict, ns);
    ReportedMembers(report, matched, Missing, ns);
    Convergence(inp, p, s, s', ScheduleKey(ns, p.GeneratedName()));
  }

  /** After a successful reconcile a further one, whether it succeeds or fails, writes no schedule. */
  lemma SecondReconcileIsQuiet(
    inp: Inputs, p: Policy, s0: Store, s1: Store, s2: Store, w1: seq<ScheduleKey>, w2: seq<ScheduleKey>)
    requires Reached(inp, p, s0, s1) && OnTheWay(inp, p, s1, s2) && EffectiveWrites(w1, w2, s1, s2)
    ensures s2 == s1 && w2 == w1
  {
    forall k
      ensures At(s2, k) == At(s1, k)
    {
      assert At(s1, k) == Goal(inp, p, k, At(s0, k));
      GoalIsStable(inp, p, k, At(s0, k));
    }
    assert forall k :: (k in s1 <==> k in s2) && (k in s1 ==> s1[k] == s2[k]) by {
      forall k
        ensures (k in s1 <==> k in s2) && (k in s1 ==> s1[k] == s2[k])
      {
        assert At(s2, k) == At(s1, k);
      }
    }
    if |w2| > |w1| {
      WrittenKeyChanged(w1, w2, s1, s2, |w1|);
      assert false;
    }
  }

  /** No reconcile, successful or not, changes a schedule that is not its policy's own. */
  lemma ForeignSchedulesUntouched(inp: Inputs, p: Policy, s: Store, s': Store, k: ScheduleKey)
    requires OnTheWay(inp, p, s, s')
    ensures At(s', k) != At(s, k) ==>
      (At(s, k) == None || Owned(At(s, k), p)) && (At(s', k) == None || Owned(At(s', k), p))
  {
    assert At(s', k) == At(s, k) || At(s', k) == Goal(inp, p, k, At(s, k));
  }

  // ---------- overlap over interleavings ----------

  /** One reconcile of an interleaving: whose turn it was and whether it succeeded in looking after its namespaces. */
  datatype Turn = Turn(policy: string, ok: bool)

  /** A suspended policy and one whose selector does not parse leave the store alone. */
  ghost predicate IsTurn(inp: Inputs, t: Turn, s: Store, s': Store) {
    && t.policy in inp.policies
    && if Active(inp, t.policy) then
         && OnTheWay(inp, inp.policies[t.policy], s, s')
         && (t.ok ==> Reached(inp, inp.policies[t.policy], s, s'))
       else !t.ok && s' == s
  }

  /** Policies reconcile in any order, some attempts failing, over fixed inputs. */
  ghost predicate IsInterleaving(inp: Inputs, turns: seq<Turn>, states: seq<Store>) {
    && LivePolicies(inp)
    && |states| == |turns| + 1
    && forall i :: 0 <= i < |turns| ==> IsTurn(inp, turns[i], states[i], states[i + 1])
  }

  ghost predicate NoneOf(s: Store, q: string, ns: string) {
    forall k :: k in s && k.ns == ns ==> s[k].managedBy != Some(q)
  }

  ghost predicate Overlapped(inp: Inputs, q: string, ns: string) {
    Selects(inp, q, ns) && exists r :: r in inp.policies && r != q && Selects(inp, r, ns)
  }

  lemma OverlappedIsIneligible(inp: Inputs, q: string, ns: string)
    requires LivePolicies(inp)
    requires Overlapped(inp, q, ns)
    ensures !Eligible(inp, inp.policies[q], ns)
  {
    var r :| r in inp.policies && r != q && Selects(inp, r, ns);
    assert r in Overlap(inp, q, ns);
  }

  /** A turn of any policy creates no schedule of q in a namespace q shares, and a successful turn of q removes the
      ones that were there. */
  lemma TurnFailsClosed(inp: Inputs, t: Turn, s: Store, s': Store, q: string, ns: string)
    requires LivePolicies(inp)
    requires IsTurn(inp, t, s, s') && Overlapped(inp, q, ns)
    requires NoneOf(s, q, ns) || (t.policy == q && t.ok)
    ensures NoneOf(s', q, ns)
  {
    OverlappedIsIneligible(inp, q, ns);
    var p := inp.policies[t.policy];
    forall k | k in s' && k.ns == ns
      ensures s'[k].managedBy != Some(q)
    {
      assert At(s', k) == At(s, k) || At(s', k) == Goal(inp, p, k, At(s, k));
      if t.policy == q && t.ok {
        assert At(s', k) == Goal(inp, p, k, At(s, k));
      }
    }
  }

  /** A single policy: once it has succeeded in a namespace it shares, none of its schedules is there ever after,
      whatever the others have done. */
  lemma {:induction false} OnceGoneStaysGone(
    inp: Inputs, turns: seq<Turn>, states: seq<Store>, q: string, ns: string, i: nat, j: nat)
    requires IsInterleaving(inp, turns, states) && Overlapped(inp, q, ns)
    requires i < j <= |turns| && turns[i] == Turn(q, true)
    ensures NoneOf(states[j], q, ns)
    decreases j
  {
    if j == i + 1 {
    } else {
      OnceGoneStaysGone(inp, turns, states, q, ns, i, j - 1);
    }
    TurnFailsClosed(inp, turns[j - 1], states[j - 1], states[j], q, ns);
  }

  /** Overlap fails closed: in any interleaving, once every active policy selecting a namespace that at least two
      policies select, suspended ones counted, has succeeded once, no schedule labelled by any of the active ones is
      there, then or ever after. */
  lemma OverlapFailsClosed(inp: Inputs, turns: seq<Turn>, states: seq<Store>, ns: string, m: nat, j: nat)
    requires IsInterleaving(inp, turns, states) && m <= j <= |turns|
    requires exists q :: Overlapped(inp, q, ns)
    requires forall q :: Active(inp, q) && Selects(inp, q, ns) ==> exists i :: 0 <= i < m && turns[i] == Turn(q, true)
    ensures forall q :: Active(inp, q) && Selects(inp, q, ns) ==> NoneOf(states[j], q, ns)
  {
    var a :| Overlapped(inp, a, ns);
    var b :| b in inp.policies && b != a && Selects(inp, b, ns);
    forall q | Active(inp, q) && Selects(inp, q, ns)
      ensures NoneOf(states[j], q, ns)
    {
      assert Overlapped(inp, q, ns);
      var i :| 0 <= i < m && turns[i] == Turn(q, true);
      OnceGoneStaysGone(inp, turns, states, q, ns, i, j);
    }
  }

  // ---------- convergence of all policies together ----------

  /** Every schedule of p is where p wants one, so p has none left to delete. */
  ghost predicate Tidy(inp: Inputs, p: Policy, s: Store) {
    forall k :: Owned(At(s, k), p) ==> k.name == p.GeneratedName() && Eligible(inp, p, k.ns)
  }

  /** A reconcile of p has nothing to do. */
  ghost predicate Settled(inp: Inputs, p: Policy, s: Store) {
    forall k :: At(s, k) == Goal(inp, p, k, At(s, k))
  }

  /** A turn of any policy keeps q tidy, and a successful turn of q makes it so. */
  lemma TurnTidies(inp: Inputs, t: Turn, s: Store, s': Store, q: string)
    requires WellNamed(inp) && IsTurn(inp, t, s, s') && q in inp.policies
    requires Tidy(inp, inp.policies[q], s) || t == Turn(q, true)
    ensures Tidy(inp, inp.policies[q], s')
  {
    var p := inp.policies[t.policy];
    forall k | Owned(At(s', k), inp.policies[q])
      ensures k.name == inp.policies[q].GeneratedName() && Eligible(inp, inp.policies[q], k.ns)
    {
      assert At(s', k) == At(s, k) || At(s', k) == Goal(inp, p, k, At(s, k));
      assert t.ok ==> At(s', k) == Goal(inp, p, k, At(s, k));
    }
  }

  /** A turn of a tidy policy deletes nothing, so it keeps q settled; a successful turn of q makes it so. */
  lemma TurnSettles(inp: Inputs, t: Turn, s: Store, s': Store, q: string)
    requires WellNamed(inp) && IsTurn(inp, t, s, s') && q in inp.policies
    requires Settled(inp, inp.policies[q], s) || t == Turn(q, true)
    requires Active(inp, t.policy) ==> Tidy(inp, inp.policies[t.policy], s)
    ensures Settled(inp, inp.policies[q], s')
  {
    var p := inp.policies[t.policy];
    forall k
      ensures At(s', k) == Goal(inp, inp.policies[q], k, At(s', k))
    {
      assert At(s', k) == At(s, k) || At(s', k) == Goal(inp, p, k, At(s, k));
      assert t.ok ==> At(s', k) == Goal(inp, p, k, At(s, k));
      GoalIsStable(inp, p, k, At(s, k));
      if At(s', k) == At(s, k) && t != Turn(q, true) {
        assert At(s, k) == Goal(inp, inp.policies[q], k, At(s, k));
      } else if t.policy != q {
        assert Owned(At(s', k), p);
      }
    }
  }

  lemma {:induction false} StaysTidy(inp: Inputs, turns: seq<Turn>, states: seq<Store>, q: string, i: nat, j: nat)
    requires IsInterleaving(inp, turns, states) && q in inp.policies
    requires i < j <= |turns| && turns[i] == Turn(q, true)
    ensures Tidy(inp, inp.policies[q], states[j])
    decreases j
  {
    assert IsTurn(inp, turns[i], states[i], states[i + 1]);
    if j == i + 1 {
    } else {
      StaysTidy(inp, turns, states, q, i, j - 1);
    }
    TurnTidies(inp, turns[j - 1], states[j - 1], states[j], q);
  }

  /** After the first round whoever reconciles next has nothing left to delete. */
  lemma NextIsTidy(inp: Inputs, turns: seq<Turn>, states: seq<Store>, m: nat, j: nat)
    requires IsInterleaving(inp, turns, states) && SucceedsWithin(inp, turns, 0, m) && m <= j < |turns|
    ensures Active(inp, turns[j].policy) ==> Tidy(inp, inp.policies[turns[j].policy], states[j])
  {
    var p := turns[j].policy;
    if Active(inp, p) {
      var first :| 0 <= first < m && turns[first] == Turn(p, true);
      StaysTidy(inp, turns, states, p, first, j);
    }
  }

  lemma SettledStep(inp: Inputs, turns: seq<Turn>, states: seq<Store>, q: string, m: nat, j: nat)
    requires IsInterleaving(inp, turns, states) && SucceedsWithin(inp, turns, 0, m) && q in inp.policies
    requires m < j <= |turns| && (Settled(inp, inp.policies[q], states[j - 1]) || turns[j - 1] == Turn(q, true))
    ensures Settled(inp, inp.policies[q], states[j])
  {
    NextIsTidy(inp, turns, states, m, j - 1);
    TurnSettles(inp, turns[j - 1], states[j - 1], states[j], q);
  }

  lemma {:induction false} StaysSettled(
    inp: Inputs, turns: seq<Turn>, states: seq<Store>, q: string, m: nat, i: nat, j: nat)
    requires IsInterleaving(inp, turns, states) && SucceedsWithin(inp, turns, 0, m)
    requires q in inp.policies
    requires m <= i < j <= |turns| && turns[i] == Turn(q, true)
    ensures Settled(inp, inp.policies[q], states[j])
    decreases j
  {
    if j == i + 1 {
    } else {
      StaysSettled(inp, turns, states, q, m, i, j - 1);
    }
    SettledStep(inp, turns, states, q, m, j);
  }

  /** Every active policy has a successful turn in [from, to). */
  ghost predicate SucceedsWithin(inp: Inputs, turns: seq<Turn>, from: nat, to: nat) {
    to <= |turns| && forall q :: Active(inp, q) ==> exists i :: from <= i < to && turns[i] == Turn(q, true)
  }

  /** The policy wants its generated schedule at k. */
  ghost predicate Wants(inp: Inputs, p: Policy, k: ScheduleKey) {
    k.name == p.GeneratedName() && Eligible(inp, p, k.ns)
  }

  lemma WantedByOne(inp: Inputs, p: string, q: string, k: ScheduleKey)
    requires LivePolicies(inp) && p in inp.policies && q in inp.policies && p != q
    requires Wants(inp, inp.policies[p], k)
    ensures !Eligible(inp, inp.policies[q], k.ns)
  {
    assert Selects(inp, q, k.ns) ==> q in Overlap(inp, p, k.ns);
  }

  /** Something labelled by no active policy is at k. */
  ghost predicate InTheWay(inp: Inputs, s: Store, k: ScheduleKey) {
    At(s, k).Some? && forall r :: Active(inp, r) ==> !Owned(At(s, k), inp.policies[r])
  }

  ghost predicate AsWanted(inp: Inputs, s: Store, p: Policy, k: ScheduleKey) {
    && (Owned(At(s, k), p) <==> Wants(inp, p, k) && !InTheWay(inp, s, k))
    && (Owned(At(s, k), p) ==> FollowsProfile(inp, p, k.ns, s[k].spec))
  }

  /** The state all policies together converge to: an active policy's schedules are exactly those at the generated
      name of the namespaces it alone selects, with a declared profile, unless something labelled by no active policy
      is in the way; each is up to date. */
  ghost predicate Converged(inp: Inputs, s: Store) {
    forall q, k :: Active(inp, q) ==> AsWanted(inp, s, inp.policies[q], k)
  }

  lemma SettledIsConverged(inp: Inputs, s: Store)
    requires LivePolicies(inp)
    requires forall q :: Active(inp, q) ==> Settled(inp, inp.policies[q], s) && Tidy(inp, inp.policies[q], s)
    ensures Converged(inp, s)
  {
    forall q, k | Active(inp, q)
      ensures AsWanted(inp, s, inp.policies[q], k)
    {
      var p := inp.policies[q];
      assert At(s, k) == Goal(inp, p, k, At(s, k));
      if Wants(inp, p, k) {
        SleepSpecEqualReflexive(Template(inp, p, k.ns));
        forall r | Active(inp, r) && r != q
          ensures !Owned(At(s, k), inp.policies[r])
        {
          WantedByOne(inp, q, r, k);
        }
      }
    }
  }

  lemma SameAtIsSame(s: Store, s': Store)
    requires forall k :: At(s', k) == At(s, k)
    ensures s' == s
  {
    forall k
      ensures (k in s <==> k in s') && (k in s ==> s[k] == s'[k])
    {
      assert At(s', k) == At(s, k);
    }
  }

  /** Two rounds converge: in any interleaving, with attempts failing at will, once every active policy has succeeded
      and then succeeded once more, the store has converged and no turn, successful or not, changes it again. */
  lemma ConvergesInTwoRounds(inp: Inputs, turns: seq<Turn>, states: seq<Store>, m1: nat, m2: nat, j: nat)
    requires IsInterleaving(inp, turns, states) && m1 <= m2 <= j <= |turns|
    requires SucceedsWithin(inp, turns, 0, m1) && SucceedsWithin(inp, turns, m1, m2)
    ensures Converged(inp, states[j])
    ensures j < |turns| ==> states[j + 1] == states[j]
  {
    forall q | Active(inp, q)
      ensures Settled(inp, inp.policies[q], states[j]) && Tidy(inp, inp.policies[q], states[j])
    {
      var i :| m1 <= i < m2 && turns[i] == Turn(q, true);
      StaysSettled(inp, turns, states, q, m1, i, j);
      StaysTidy(inp, turns, states, q, i, j);
    }
    SettledIsConverged(inp, states[j]);
    if j < |turns| {
      assert IsTurn(inp, turns[j], states[j], states[j + 1]);
      if Active(inp, turns[j].policy) {
        SameAtIsSame(states[j], states[j + 1]);
      }
    }
  }

  // ---------- when one round is enough ----------

  /** At k active policy p wants its schedule, and active policy q has left one. */
  ghost predicate IsLeftover(inp: Inputs, s: Store, p: string, q: string, k: ScheduleKey) {
    && Active(inp, p) && Active(inp, q) && p != q
    && Wants(inp, inp.policies[p], k) && Owned(At(s, k), inp.policies[q])
  }

  /** No schedule of an active policy is left where another active policy wants its own. */
  ghost predicate NoLeftover(inp: Inputs, s: Store) {
    forall p, q, k :: !IsLeftover(inp, s, p, q, k)
  }

  lemma TurnKeepsNoLeftover(inp: Inputs, t: Turn, s: Store, s': Store)
    requires LivePolicies(inp) && IsTurn(inp, t, s, s') && NoLeftover(inp, s)
    ensures NoLeftover(inp, s')
  {
    forall p, q, k
      ensures !IsLeftover(inp, s', p, q, k)
    {
      if Active(inp, p) && Active(inp, q) && p != q && Wants(inp, inp.policies[p], k) {
        WantedByOne(inp, p, q, k);
      }
      assert At(s', k) == At(s, k) || At(s', k) == Goal(inp, inp.policies[t.policy], k, At(s, k));
      assert !IsLeftover(inp, s, p, q, k);
    }
  }

  /** Without leftovers a turn removes nothing another policy could want to replace, so it keeps q settled. */
  lemma TurnSettlesWithoutLeftover(inp: Inputs, t: Turn, s: Store, s': Store, q: string)
    requires LivePolicies(inp) && IsTurn(inp, t, s, s') && Active(inp, q) && NoLeftover(inp, s)
    requires Settled(inp, inp.policies[q], s) || t == Turn(q, true)
    ensures Settled(inp, inp.policies[q], s')
  {
    var p := inp.policies[t.policy];
    forall k
      ensures At(s', k) == Goal(inp, inp.policies[q], k, At(s', k))
    {
      assert At(s', k) == At(s, k) || At(s', k) == Goal(inp, p, k, At(s, k));
      assert t.ok ==> At(s', k) == Goal(inp, p, k, At(s, k));
      GoalIsStable(inp, p, k, At(s, k));
      if t != Turn(q, true) {
        assert At(s, k) == Goal(inp, inp.policies[q], k, At(s, k));
        if t.policy != q && Active(inp, t.policy) && Wants(inp, inp.policies[q], k) {
          assert !IsLeftover(inp, s, q, t.policy, k);
          WantedByOne(inp, q, t.policy, k);
        }
      }
    }
  }

  lemma {:induction false} NeverLeftover(inp: Inputs, turns: seq<Turn>, states: seq<Store>, j: nat)
    requires IsInterleaving(inp, turns, states) && NoLeftover(inp, states[0]) && j <= |turns|
    ensures NoLeftover(inp, states[j])
    decreases j
  {
    if j == 0 {
    } else {
      NeverLeftover(inp, turns, states, j - 1);
      TurnKeepsNoLeftover(inp, turns[j - 1], states[j - 1], states[j]);
    }
  }

  lemma {:induction false} StaysSettledWithoutLeftover(
    inp: Inputs, turns: seq<Turn>, states: seq<Store>, q: string, i: nat, j: nat)
    requires IsInterleaving(inp, turns, states) && NoLeftover(inp, states[0])
    requires Active(inp, q) && i < j <= |turns| && turns[i] == Turn(q, true)
    ensures Settled(inp, inp.policies[q], states[j])
    decreases j
  {
    NeverLeftover(inp, turns, states, j - 1);
    assert IsTurn(inp, turns[j - 1], states[j - 1], states[j]);
    if j == i + 1 {
    } else {
      StaysSettledWithoutLeftover(inp, turns, states, q, i, j - 1);
    }
    TurnSettlesWithoutLeftover(inp, turns[j - 1], states[j - 1], states[j], q);
  }

  /** One round converges where there are no leftovers: once every active policy has succeeded the store has
      converged and no turn changes it again. */
  lemma OneRoundConverges(inp: Inputs, turns: seq<Turn>, states: seq<Store>, m: nat, j: nat)
    requires IsInterleaving(inp, turns, states) && NoLeftover(inp, states[0])
    requires m <= j <= |turns| && SucceedsWithin(inp, turns, 0, m)
    ensures Converged(inp, states[j])
    ensures j < |turns| ==> states[j + 1] == states[j]
  {
    forall q | Active(inp, q)
      ensures Settled(inp, inp.policies[q], states[j]) && Tidy(inp, inp.policies[q], states[j])
    {
      var i :| 0 <= i < m && turns[i] == Turn(q, true);
      StaysSettledWithoutLeftover(inp, turns, states, q, i, j);
      StaysTidy(inp, turns, states, q, i, j);
    }
    SettledIsConverged(inp, states[j]);
    if j < |turns| {
      assert IsTurn(inp, turns[j], states[j], states[j + 1]);
      if Active(inp, turns[j].policy) {
        SameAtIsSame(states[j], states[j + 1]);
      }
    }
  }

  /** The store a successful reconcile of p leaves. */
  ghost function Applied(inp: Inputs, p: Policy, s: Store): (s': Store)
    ensures Reached(inp, p, s, s')
  {
    var keys := s.Keys + set ns | ns in inp.namespaces :: ScheduleKey(ns, p.GeneratedName());
    var s' := map k | k in keys && Goal(inp, p, k, At(s, k)).Some? :: Goal(inp, p, k, At(s, k)).value;
    assert forall k :: At(s', k) == Goal(inp, p, k, At(s, k)) by {
      forall k
        ensures At(s', k) == Goal(inp, p, k, At(s, k))
      {
        assert k.name == p.GeneratedName() && Eligible(inp, p, k.ns) ==> k == ScheduleKey(k.ns, p.GeneratedName());
      }
    }
    s'
  }

  /** A run in which the given policies succeed one after the other, in some order. */
  ghost predicate IsRoundOf(inp: Inputs, todo: set<string>, turns: seq<Turn>, states: seq<Store>) {
    && IsInterleaving(inp, turns, states)
    && (forall q :: q in todo ==> exists i :: 0 <= i < |turns| && turns[i] == Turn(q, true))
  }

  lemma EmptyRound(inp: Inputs, s: Store) returns (turns: seq<Turn>, states: seq<Store>)
    requires LivePolicies(inp)
    ensures IsRoundOf(inp, {}, turns, states) && states[0] == s && states[|turns|] == s
  {
    turns, states := [], [s];
  }

  lemma RoundOneMore(inp: Inputs, t: string, todo: set<string>, s: Store, rest: seq<Turn>, later: seq<Store>)
    returns (turns: seq<Turn>, states: seq<Store>)
    requires Active(inp, t) && IsRoundOf(inp, todo - {t}, rest, later)
    requires later[0] == Applied(inp, inp.policies[t], s)
    ensures IsRoundOf(inp, todo, turns, states) && states[0] == s && states[|turns|] == later[|rest|]
  {
    turns, states := [Turn(t, true)] + rest, [s] + later;
    forall i | 0 <= i < |turns|
      ensures IsTurn(inp, turns[i], states[i], states[i + 1])
    {
      if i == 0 {
        assert Reached(inp, inp.policies[t], s, later[0]);
      } else {
        assert IsTurn(inp, rest[i - 1], later[i - 1], later[i]);
      }
    }
    forall q | q in todo
      ensures exists i :: 0 <= i < |turns| && turns[i] == Turn(q, true)
    {
      if q == t {
        assert turns[0] == Turn(t, true);
      } else {
        var i :| 0 <= i < |rest| && rest[i] == Turn(q, true);
        assert turns[i + 1] == Turn(q, true);
      }
    }
  }

  /** Where p wants a schedule, no other policy puts one, and a success of q removes its own. */
  lemma SpoiledTurn(inp: Inputs, p: string, q: string, k: ScheduleKey, t: string, s: Store)
    requires LivePolicies(inp) && p in inp.policies && q in inp.policies && t in inp.policies && p != q && p != t
    requires Wants(inp, inp.policies[p], k)
    requires At(s, k) == None || Owned(At(s, k), inp.policies[q])
    ensures
      var next := At(Applied(inp, inp.policies[t], s), k);
      next == None || (t != q && next == At(s, k))
  {
    WantedByOne(inp, p, t, k);
    assert At(Applied(inp, inp.policies[t], s), k) == Goal(inp, inp.policies[t], k, At(s, k));
  }

  lemma {:induction false} SpoiledRound(inp: Inputs, p: string, q: string, k: ScheduleKey, todo: set<string>, s: Store)
    returns (turns: seq<Turn>, states: seq<Store>)
    requires LivePolicies(inp) && p in inp.policies && q in inp.policies && p != q
    requires Wants(inp, inp.policies[p], k)
    requires p !in todo && forall t :: t in todo ==> Active(inp, t)
    requires At(s, k) == None || (Owned(At(s, k), inp.policies[q]) && q in todo)
    ensures IsRoundOf(inp, todo, turns, states) && states[0] == s
    ensures At(states[|turns|], k) == None
    decreases todo
  {
    if todo == {} {
      turns, states := EmptyRound(inp, s);
    } else {
      var t :| t in todo;
      var next := Applied(inp, inp.policies[t], s);
      SpoiledTurn(inp, p, q, k, t, s);
      var rest, later := SpoiledRound(inp, p, q, k, todo - {t}, next);
      turns, states := RoundOneMore(inp, t, todo, s, rest, later);
    }
  }

  /** The active policies. */
  ghost function ActivePolicies(inp: Inputs): set<string> {
    set q | q in inp.policies && Active(inp, q)
  }

  /** Where a wanted schedule is missing, the store has not converged. */
  lemma MissingIsNotConverged(inp: Inputs, s: Store, p: string, k: ScheduleKey)
    requires Active(inp, p) && Wants(inp, inp.policies[p], k) && At(s, k) == None
    ensures !Converged(inp, s)
  {
    assert !AsWanted(inp, s, inp.policies[p], k);
  }

  /** A leftover spoils the round in which the policy that wants its place goes first. */
  lemma LeftoverSpoilsRound(inp: Inputs, s0: Store, p: string, q: string, k: ScheduleKey)
    returns (turns: seq<Turn>, states: seq<Store>)
    requires LivePolicies(inp) && IsLeftover(inp, s0, p, q, k)
    ensures IsRoundOf(inp, ActivePolicies(inp), turns, states) && states[0] == s0
    ensures At(states[|turns|], k) == None
  {
    var todo := ActivePolicies(inp);
    var s1 := Applied(inp, inp.policies[p], s0);
    assert At(s1, k) == Goal(inp, inp.policies[p], k, At(s0, k));
    var rest, later := SpoiledRound(inp, p, q, k, todo - {p}, s1);
    turns, states := RoundOneMore(inp, p, todo, s0, rest, later);
  }

  /** So a store with a leftover has a round that does not converge. */
  lemma LeftoverSpoilsARound(inp: Inputs, s0: Store) returns (turns: seq<Turn>, states: seq<Store>)
    requires LivePolicies(inp) && !NoLeftover(inp, s0)
    ensures IsInterleaving(inp, turns, states) && states[0] == s0 && SucceedsWithin(inp, turns, 0, |turns|)
    ensures !Converged(inp, states[|turns|])
  {
    var p, q, k :| IsLeftover(inp, s0, p, q, k);
    turns, states := LeftoverSpoilsRound(inp, s0, p, q, k);
    assert forall r :: Active(inp, r) ==> r in ActivePolicies(inp);
    MissingIsNotConverged(inp, states[|turns|], p, k);
  }

  /** When one round is enough: from a given store every interleaving in which each active policy succeeds once
      converges, exactly if no active policy has left a schedule where another one wants its own. */
  lemma OneRoundExactly(inp: Inputs, s0: Store)
    requires LivePolicies(inp)
    ensures NoLeftover(inp, s0) <==>
      forall turns, states ::
        IsInterleaving(inp, turns, states) && states[0] == s0 && SucceedsWithin(inp, turns, 0, |turns|) ==>
          Converged(inp, states[|turns|])
  {
    if NoLeftover(inp, s0) {
      forall turns, states |
        IsInterleaving(inp, turns, states) && states[0] == s0 && SucceedsWithin(inp, turns, 0, |turns|)
        ensures Converged(inp, states[|turns|])
      {
        OneRoundConverges(inp, turns, states, |turns|, |turns|);
      }
    } else {
      var turns, states := LeftoverSpoilsARound(inp, s0);
    }
  }

  /** Policy p alone selects the one namespace, and would generate the schedule that q left there. */
  function Leftover(): (c: (Inputs, ScheduleKey, Store)) {
    var profile := Profile(false, WorkloadSelector(map[], [], []), []);
    var p := Policy("p", false, false, DefaultSelector, "mine", "", map["night" := profile]);
    var q := Policy("q", false, false, DefaultSelector, "other", "", map[]);
    var k := ScheduleKey("ns", "auto-sleep");
    (Inputs(map["ns" := map["mine" := "night"]], map["p" := p, "q" := q]),
     k, map[k := SleepSchedule(Some("q"), BuildSpec(profile))])
  }

  lemma LeftoverIsEligible()
    ensures var (inp, k, _) := Leftover();
      Eligible(inp, inp.policies["p"], k.ns) && !Eligible(inp, inp.policies["q"], k.ns)
  {
    var (inp, k, _) := Leftover();
    assert Overlap(inp, "p", k.ns) == {};
  }

  /** One round is not enough: p succeeds while the leftover of q is in its way, then q succeeds and removes it. */
  lemma OneRoundIsNotEnough()
    ensures
      var (inp, k, s) := Leftover();
      var turns := [Turn("p", true), Turn("q", true)];
      && IsInterleaving(inp, turns, [s, s, map[]]) && SucceedsWithin(inp, turns, 0, 2)
      && !Converged(inp, map[])
  {
    var (inp, k, s) := Leftover();
    var turns := [Turn("p", true), Turn("q", true)];
    LeftoverIsEligible();
    assert IsTurn(inp, turns[0], s, s) by {
      assert forall j :: j != k ==> !(j.name == "auto-sleep" && Selects(inp, "p", j.ns));
    }
    assert IsTurn(inp, turns[1], s, map[]);
    assert turns[0] == Turn("p", true) && turns[1] == Turn("q", true);
    assert Active(inp, "p") && Wants(inp, inp.policies["p"], k) && At(map[], k) == None;
    MissingIsNotConverged(inp, map[], "p", k);
  }
}
