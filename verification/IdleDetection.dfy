/**
 The idle detector: repeated checks that carry over since when a workload has been idle, the scale-down of workloads
 idle for long enough, and the restore that a deletion performs and retries.
 Times are whole seconds, as the API server stores them. Whether a workload's metrics are idle is an input of a check.
 */
module IdleDetection {
  import opened Common
  import opened Workloads

  const IDLE_KINDS: seq<Kind> := [Deployment, StatefulSet, CronJob]

  datatype IdleWorkload = IdleWorkload(key: Key, since: int)

  datatype ScaledWorkload = ScaledWorkload(key: Key, replicas: Option<int>, suspend: Option<bool>, at: int)

  // ---------- detection ----------

  /** One check: the clock, what every List returned (None: it failed), and which workloads' metrics are idle. */
  datatype Check = Check(
    now: int, types: seq<string>, list: Kind -> Option<seq<string>>, matches: string -> bool, idle: Key -> bool)

  predicate Manages(c: Check, kind: Kind) {
    c.types == [] || KindName(kind) in c.types
  }

  /** Already at zero replicas, or already suspended. */
  predicate AlreadyDown(body: Body) {
    match body
    case ReplicaSpec(replicas) => replicas == Some(0)
    case JobSuspend(suspend) => suspend == Some(true)
    case _ => false
  }

  predicate IsFound(c: Check, objects: map<Key, Body>, key: Key) {
    c.matches(key.name) && key in objects && !AlreadyDown(objects[key]) && c.idle(key)
  }

  function FoundAmong(c: Check, objects: map<Key, Body>, kind: Kind, names: seq<string>): seq<Key> {
    if names == [] then []
    else
      var rest := FoundAmong(c, objects, kind, names[..|names| - 1]);
      var key := Key(kind, names[|names| - 1]);
      if IsFound(c, objects, key) then rest + [key] else rest
  }

  function FoundOfKinds(c: Check, objects: map<Key, Body>, kinds: seq<Kind>): seq<Key> {
    if kinds == [] then []
    else
      var kind := kinds[|kinds| - 1];
      FoundOfKinds(c, objects, kinds[..|kinds| - 1])
      + if Manages(c, kind) then FoundAmong(c, objects, kind, c.list(kind).GetOr([])) else []
  }

  /** The workloads a check finds idle, in the order it reports them. */
  function Found(c: Check, objects: map<Key, Body>): seq<Key> {
    FoundOfKinds(c, objects, IDLE_KINDS)
  }

  predicate Completed(c: Check) {
    forall kind :: kind in IDLE_KINDS && Manages(c, kind) ==> c.list(kind).Some?
  }

  /** Since when the previous list has the workload idle; the given time if it does not list it. */
  function SinceOf(previous: seq<IdleWorkload>, key: Key, now: int): int {
    if previous == [] then now
    else if previous[0].key == key then previous[0].since
    else SinceOf(previous[1..], key, now)
  }

  function CarryOver(previous: seq<IdleWorkload>, found: seq<Key>, now: int): seq<IdleWorkload> {
    seq(|found|, i requires 0 <= i < |found| => IdleWorkload(found[i], SinceOf(previous, found[i], now)))
  }

  /** What a completed check saw. */
  datatype Seen = Seen(now: int, found: seq<Key>)

  /** The idle list after a history of completed checks whose status writes succeeded. */
  function IdleAfter(h: seq<Seen>): seq<IdleWorkload> {
    if h == [] then []
    else
      var last := h[|h| - 1];
      CarryOver(IdleAfter(h[..|h| - 1]), last.found, last.now)
  }

  /** The check at which the unbroken run of idle findings that reaches check i began. */
  ghost function StreakStart(h: seq<Seen>, i: nat, key: Key): (j: nat)
    requires i < |h| && key in h[i].found
    ensures j <= i
    ensures forall m :: j <= m <= i ==> key in h[m].found
    ensures j == 0 || key !in h[j - 1].found
    decreases i
  {
    if i > 0 && key in h[i - 1].found then StreakStart(h, i - 1, key) else i
  }

  lemma {:induction false} StreakOfPrefix(h: seq<Seen>, n: nat, i: nat, key: Key)
    requires i < n <= |h| && key in h[i].found
    ensures StreakStart(h[..n], i, key) == StreakStart(h, i, key)
    decreases i
  {
    if i > 0 && key in h[i - 1].found {
      StreakOfPrefix(h, n, i - 1, key);
    }
  }

  lemma {:induction false} SinceOfMember(list: seq<IdleWorkload>, key: Key, now: int)
    ensures
      if exists i :: 0 <= i < |list| && list[i].key == key
      then exists i :: 0 <= i < |list| && list[i].key == key && list[i].since == SinceOf(list, key, now)
      else SinceOf(list, key, now) == now
  {
    if list == [] {
    } else {
      if list[0].key != key {
        SinceOfMember(list[1..], key, now);
        if exists i :: 0 <= i < |list| && list[i].key == key {
          var i :| 0 <= i < |list| && list[i].key == key;
          assert list[1..][i - 1].key == key;
          var j :| 0 <= j < |list[1..]| && list[1..][j].key == key
                   && list[1..][j].since == SinceOf(list[1..], key, now);
          assert list[j + 1].key == key && list[j + 1].since == SinceOf(list, key, now);
        }
      } else {
        assert list[0].since == SinceOf(list, key, now);
      }
    }
  }

  lemma {:induction false} SinceOfAbsent(list: seq<IdleWorkload>, key: Key, now: int)
    requires forall i :: 0 <= i < |list| ==> list[i].key != key
    ensures SinceOf(list, key, now) == now
  {
    if list == [] {
    } else {
      SinceOfAbsent(list[1..], key, now);
    }
  }

  /** The time a check carries over is that of the start of the streak. */
  lemma {:induction false} CarriedSince(h: seq<Seen>, key: Key)
    requires h != [] && key in h[|h| - 1].found
    ensures SinceOf(IdleAfter(h[..|h| - 1]), key, h[|h| - 1].now) == h[StreakStart(h, |h| - 1, key)].now
    decreases |h|
  {
    var n := |h| - 1;
    if n == 0 {
    } else {
      var front := h[..n];
      assert front[..n - 1] == h[..n - 1] && front[n - 1] == h[n - 1];
      var earlier := IdleAfter(h[..n - 1]);
      assert IdleAfter(front) == CarryOver(earlier, h[n - 1].found, h[n - 1].now);
      if key in h[n - 1].found {
        CarriedSince(front, key);
        StreakOfPrefix(h, n, n - 1, key);
        SinceOfCarried(earlier, h[n - 1].found, h[n - 1].now, key, h[n].now);
      } else {
        SinceOfAbsent(IdleAfter(front), key, h[n].now);
      }
    }
  }

  /** Looking up a carried-over list gives what was carried over. */
  lemma SinceOfCarried(previous: seq<IdleWorkload>, found: seq<Key>, now: int, key: Key, later: int)
    requires key in found
    ensures SinceOf(CarryOver(previous, found, now), key, later) == SinceOf(previous, key, now)
  {
    var list := CarryOver(previous, found, now);
    SinceOfMember(list, key, later);
    var i :| 0 <= i < |found| && found[i] == key;
    assert list[i].key == key;
  }

  /** The carried-over time is exact: after any history a workload is listed iff the last check found it idle, and
      its time is that of the check at which its unbroken run of idle findings began. */
  lemma IdleSinceIsStreakStart(h: seq<Seen>, w: IdleWorkload)
    requires h != []
    ensures w in IdleAfter(h) <==>
      w.key in h[|h| - 1].found && w.since == h[StreakStart(h, |h| - 1, w.key)].now
  {
    var found := h[|h| - 1].found;
    if w.key in found {
      CarriedSince(h, w.key);
      var k :| 0 <= k < |found| && found[k] == w.key;
      assert IdleAfter(h)[k].key == w.key;
    }
  }

  // ---------- scaling down ----------

  datatype Weather = Weather(get: Key -> bool, update: Key -> bool, status: Key -> bool)

  /** The persisted status of a detector. */
  datatype Status = Status(idle: seq<IdleWorkload>, scaled: seq<ScaledWorkload>)

  /** The scale-down pass: cluster, in-memory status, what was persisted, and which workloads were scaled down. */
  datatype Scaling = Scaling(
    objects: map<Key, Body>, memory: Status, saved: Status, ok: bool, downs: seq<Key>)

  predicate IsScaled(scaled: seq<ScaledWorkload>, key: Key) {
    exists i :: 0 <= i < |scaled| && scaled[i].key == key
  }

  /** Something to do: replicas above zero, or not suspended. */
  predicate CanScale(key: Key, body: Body) {
    match key.kind
    case Deployment | StatefulSet => body.ReplicaSpec? && body.replicas.Some? && body.replicas.value > 0
    case CronJob => body.JobSuspend? && (body.suspend.None? || !body.suspend.value)
    case _ => false
  }

  function ScaledRecord(key: Key, body: Body, at: int): ScaledWorkload
    requires CanScale(key, body)
  {
    match body
    case ReplicaSpec(replicas) => ScaledWorkload(key, replicas, None, at)
    case JobSuspend(suspend) => ScaledWorkload(key, None, Some(suspend.GetOr(false)), at)
  }

  /** One workload scaled down or suspended and recorded; None if a call failed. */
  function ScaleDown(s: Scaling, key: Key, at: int, weather: Weather): Option<Scaling> {
    if key !in s.objects || !weather.get(key) then None
    else if !CanScale(key, s.objects[key]) then Some(s)
    else if !weather.update(key) then None
    else
      Some(s.(
        objects := s.objects[key := PutToSleep(s.objects[key])],
        memory := s.memory.(scaled := s.memory.scaled + [ScaledRecord(key, s.objects[key], at)]),
        downs := s.downs + [key]))
  }

  /** One idle workload: scaled down if idle long enough and not scaled yet, then the status is persisted. */
  function ScaleOne(s: Scaling, w: IdleWorkload, now: int, idleDuration: int, weather: Weather): Scaling {
    if !s.ok || now - w.since < idleDuration || IsScaled(s.memory.scaled, w.key) then s
    else
      match ScaleDown(s, w.key, now, weather)
      case None => s
      case Some(next) => if weather.status(w.key) then next.(saved := next.memory) else next.(ok := false)
  }

  function ScaleAll(s: Scaling, idle: seq<IdleWorkload>, now: int, idleDuration: int, weather: Weather): Scaling
    decreases |idle|
  {
    if idle == [] then s
    else ScaleAll(ScaleOne(s, idle[0], now, idleDuration, weather), idle[1..], now, idleDuration, weather)
  }

  /** The environment of one reconcile of a live detector in scale mode; its clock advances while it runs. */
  datatype Env = Env(check: Check, scaleTime: int, weather: Weather, finalStatus: bool)

  /** One reconcile: a failed List changes nothing; otherwise detect, scale down, persist. */
  function CheckOnce(st: Status, objects: map<Key, Body>, idleDuration: int, env: Env): Scaling {
    var start := Scaling(objects, st, st, true, []);
    if !Completed(env.check) then start.(ok := false)
    else
      var idle := CarryOver(st.idle, Found(env.check, objects), env.check.now);
      var s := ScaleAll(start.(memory := Status(idle, st.scaled)), idle, env.scaleTime, idleDuration, env.weather);
      if env.finalStatus then s.(saved := s.memory) else s
  }

  lemma {:induction false} ScaleAllDowns(
    s: Scaling, idle: seq<IdleWorkload>, now: int, idleDuration: int, weather: Weather, key: Key)
    ensures
      var after := ScaleAll(s, idle, now, idleDuration, weather);
      && after.memory.idle == s.memory.idle
      && (key in after.downs && key !in s.downs ==>
            exists w :: w in idle && w.key == key && now - w.since >= idleDuration)
    decreases |idle|
  {
    if idle == [] {
    } else {
      ScaleAllDowns(ScaleOne(s, idle[0], now, idleDuration, weather), idle[1..], now, idleDuration, weather, key);
      assert idle[0] in idle;
    }
  }

  ghost predicate DistinctKeys(idle: seq<IdleWorkload>) {
    forall i, j :: 0 <= i < j < |idle| ==> idle[i].key != idle[j].key
  }

  lemma ScaleOneLeavesOthers(
    s: Scaling, w: IdleWorkload, now: int, idleDuration: int, weather: Weather, key: Key)
    requires w.key != key
    ensures
      var after := ScaleOne(s, w, now, idleDuration, weather);
      && (key in after.objects <==> key in s.objects)
      && (key in s.objects ==> after.objects[key] == s.objects[key])
      && (IsScaled(after.memory.scaled, key) <==> IsScaled(s.memory.scaled, key))
      && (key in after.downs <==> key in s.downs)
  {
    var after := ScaleOne(s, w, now, idleDuration, weather);
    assert s.memory.scaled <= after.memory.scaled;
    if IsScaled(s.memory.scaled, key) {
      var i :| 0 <= i < |s.memory.scaled| && s.memory.scaled[i].key == key;
      assert after.memory.scaled[i].key == key;
    }
  }

  /** With no failing call a pass scales down exactly the workloads idle for long enough that are not scaled yet and
      have something to scale. */
  lemma {:induction false} ScaleAllExactly(
    s: Scaling, idle: seq<IdleWorkload>, now: int, idleDuration: int, weather: Weather, w: IdleWorkload)
    requires s.ok && DistinctKeys(idle) && w in idle && w.key !in s.downs
    requires forall k :: weather.get(k) && weather.update(k) && weather.status(k)
    ensures w.key in ScaleAll(s, idle, now, idleDuration, weather).downs <==>
      && now - w.since >= idleDuration && !IsScaled(s.memory.scaled, w.key)
      && w.key in s.objects && CanScale(w.key, s.objects[w.key])
    decreases |idle|
  {
    var next := ScaleOne(s, idle[0], now, idleDuration, weather);
    if idle[0] == w {
      ScaledStaysScaled(next, idle[1..], now, idleDuration, weather, w.key);
    } else {
      ScaleOneLeavesOthers(s, idle[0], now, idleDuration, weather, w.key);
      ScaleAllExactly(next, idle[1..], now, idleDuration, weather, w);
    }
  }

  lemma {:induction false} ScaledStaysScaled(
    s: Scaling, idle: seq<IdleWorkload>, now: int, idleDuration: int, weather: Weather, key: Key)
    requires forall i :: 0 <= i < |idle| ==> idle[i].key != key
    ensures key in ScaleAll(s, idle, now, idleDuration, weather).downs <==> key in s.downs
    decreases |idle|
  {
    if idle == [] {
    } else {
      ScaleOneLeavesOthers(s, idle[0], now, idleDuration, weather, key);
      ScaledStaysScaled(ScaleOne(s, idle[0], now, idleDuration, weather), idle[1..], now, idleDuration, weather, key);
    }
  }

  /** A run of reconciles: before each one anybody may have edited the workloads. */
  datatype Round = Round(objects: map<Key, Body>, env: Env)

  function StatusAfter(rounds: seq<Round>, idleDuration: int): Status {
    if rounds == [] then Status([], [])
    else
      var last := rounds[|rounds| - 1];
      CheckOnce(StatusAfter(rounds[..|rounds| - 1], idleDuration), last.objects, idleDuration, last.env).saved
  }

  /** The status write of one workload's scale-down goes through, and with it the idle list in memory. */
  predicate OneSaves(s: Scaling, w: IdleWorkload, now: int, idleDuration: int, weather: Weather) {
    && s.ok && now - w.since >= idleDuration && !IsScaled(s.memory.scaled, w.key)
    && ScaleDown(s, w.key, now, weather).Some? && weather.status(w.key)
  }

  predicate PassSaves(s: Scaling, idle: seq<IdleWorkload>, now: int, idleDuration: int, weather: Weather)
    decreases |idle|
  {
    && idle != []
    && (|| OneSaves(s, idle[0], now, idleDuration, weather)
        || PassSaves(ScaleOne(s, idle[0], now, idleDuration, weather), idle[1..], now, idleDuration, weather))
  }

  function IdleList(st: Status, r: Round): seq<IdleWorkload> {
    CarryOver(st.idle, Found(r.env.check, r.objects), r.env.check.now)
  }

  /** The state in which the scale-down pass of a round starts. */
  function Detected(st: Status, r: Round): Scaling {
    Scaling(r.objects, Status(IdleList(st, r), st.scaled), st, true, [])
  }

  /** A round persists its idle list with the final status write or with any of those after a scale-down. */
  predicate Persists(st: Status, r: Round, idleDuration: int) {
    && Completed(r.env.check)
    && (|| r.env.finalStatus
        || PassSaves(Detected(st, r), IdleList(st, r), r.env.scaleTime, idleDuration, r.env.weather))
  }

  function SeenBy(r: Round): Seen {
    Seen(r.env.check.now, Found(r.env.check, r.objects))
  }

  /** The checks of a run whose idle list was persisted. */
  function History(rounds: seq<Round>, idleDuration: int): seq<Seen> {
    if rounds == [] then []
    else
      var before, last := rounds[..|rounds| - 1], rounds[|rounds| - 1];
      if Persists(StatusAfter(before, idleDuration), last, idleDuration)
      then History(before, idleDuration) + [SeenBy(last)] else History(before, idleDuration)
  }

  ghost predicate StatusWritesSucceed(rounds: seq<Round>) {
    forall i :: 0 <= i < |rounds| ==>
      rounds[i].env.finalStatus && forall k :: rounds[i].env.weather.status(k)
  }

  /** The completed checks of a run. */
  function CompletedChecks(rounds: seq<Round>): seq<Seen> {
    if rounds == [] then []
    else
      var before, last := CompletedChecks(rounds[..|rounds| - 1]), rounds[|rounds| - 1];
      if Completed(last.env.check) then before + [SeenBy(last)] else before
  }

  /** If the status writes succeed, no completed check is missing from the history. */
  lemma {:induction false} HistoryIsComplete(rounds: seq<Round>, idleDuration: int)
    requires StatusWritesSucceed(rounds)
    ensures History(rounds, idleDuration) == CompletedChecks(rounds)
  {
    if rounds == [] {
    } else {
      HistoryIsComplete(rounds[..|rounds| - 1], idleDuration);
    }
  }

  lemma {:induction false} ScaleAllSaves(
    s: Scaling, idle: seq<IdleWorkload>, now: int, idleDuration: int, weather: Weather)
    ensures
      var after := ScaleAll(s, idle, now, idleDuration, weather);
      && after.memory.idle == s.memory.idle
      && after.saved.idle == if PassSaves(s, idle, now, idleDuration, weather) then s.memory.idle else s.saved.idle
    decreases |idle|
  {
    if idle == [] {
    } else {
      ScaleAllSaves(ScaleOne(s, idle[0], now, idleDuration, weather), idle[1..], now, idleDuration, weather);
    }
  }

  /** Whatever fails, the persisted idle list is the one of the checks that were persisted. */
  lemma {:induction false} IdleListFollowsHistory(rounds: seq<Round>, idleDuration: int)
    ensures StatusAfter(rounds, idleDuration).idle == IdleAfter(History(rounds, idleDuration))
  {
    if rounds == [] {
    } else {
      var before, last := rounds[..|rounds| - 1], rounds[|rounds| - 1];
      var st := StatusAfter(before, idleDuration);
      IdleListFollowsHistory(before, idleDuration);
      ScaleAllSaves(Detected(st, last), IdleList(st, last), last.env.scaleTime, idleDuration, last.env.weather);
      IdleAfterOneMore(History(before, idleDuration), SeenBy(last));
    }
  }

  lemma IdleAfterOneMore(h: seq<Seen>, x: Seen)
    ensures IdleAfter(h + [x]) == CarryOver(IdleAfter(h), x.found, x.now)
  {
    assert (h + [x])[..|h|] == h;
  }

  /** What the last check makes of the persisted history. */
  lemma LastCheckCarries(rounds: seq<Round>, last: Round, idleDuration: int)
    ensures
      IdleList(StatusAfter(rounds, idleDuration), last) == IdleAfter(History(rounds, idleDuration) + [SeenBy(last)])
  {
    IdleListFollowsHistory(rounds, idleDuration);
    IdleAfterOneMore(History(rounds, idleDuration), SeenBy(last));
  }

  /** Idle streak: over any run of checks, whatever fails, a workload is scaled down at time T only if an unbroken run
      of the persisted checks, up to the current one, all found it idle and began at or before T - idleDuration. */
  lemma ScaleDownNeedsStreak(rounds: seq<Round>, last: Round, idleDuration: int, key: Key) returns (j: nat)
    requires key in CheckOnce(StatusAfter(rounds, idleDuration), last.objects, idleDuration, last.env).downs
    ensures Completed(last.env.check)
    ensures
      var h := History(rounds, idleDuration) + [SeenBy(last)];
      && j < |h| && h[j].now <= last.env.scaleTime - idleDuration
      && forall m :: j <= m < |h| ==> key in h[m].found
  {
    var st := StatusAfter(rounds, idleDuration);
    var idle := IdleList(st, last);
    ScaleAllDowns(Detected(st, last), idle, last.env.scaleTime, idleDuration, last.env.weather, key);
    var w :| w in idle && w.key == key && last.env.scaleTime - w.since >= idleDuration;
    var h := History(rounds, idleDuration) + [SeenBy(last)];
    LastCheckCarries(rounds, last, idleDuration);
    IdleSinceIsStreakStart(h, w);
    j := StreakStart(h, |h| - 1, key);
  }

  /** And conversely: when no call of the last check fails, a workload it finds idle is scaled down exactly if its
      streak over the persisted checks began at or before T - idleDuration, it is not scaled already and it has
      something to scale. */
  lemma ScaleDownExactly(rounds: seq<Round>, last: Round, idleDuration: int, key: Key)
    requires Completed(last.env.check)
    requires forall k :: last.env.weather.get(k) && last.env.weather.update(k) && last.env.weather.status(k)
    requires Distinct(Found(last.env.check, last.objects)) && key in Found(last.env.check, last.objects)
    ensures
      var h := History(rounds, idleDuration) + [SeenBy(last)];
      var st := StatusAfter(rounds, idleDuration);
      key in CheckOnce(st, last.objects, idleDuration, last.env).downs <==>
        && h[StreakStart(h, |h| - 1, key)].now <= last.env.scaleTime - idleDuration
        && !IsScaled(st.scaled, key) && key in last.objects && CanScale(key, last.objects[key])
  {
    var st := StatusAfter(rounds, idleDuration);
    var w := ListedSince(rounds, last, idleDuration, key);
    FoundOnce(st.idle, Found(last.env.check, last.objects), last.env.check.now);
    ScaleAllExactly(Detected(st, last), IdleList(st, last), last.env.scaleTime, idleDuration, last.env.weather, w);
  }

  lemma ListedSince(rounds: seq<Round>, last: Round, idleDuration: int, key: Key) returns (w: IdleWorkload)
    requires key in Found(last.env.check, last.objects)
    ensures
      var h := History(rounds, idleDuration) + [SeenBy(last)];
      && w == IdleWorkload(key, h[StreakStart(h, |h| - 1, key)].now)
      && w in IdleList(StatusAfter(rounds, idleDuration), last)
  {
    var h := History(rounds, idleDuration) + [SeenBy(last)];
    w := IdleWorkload(key, h[StreakStart(h, |h| - 1, key)].now);
    LastCheckCarries(rounds, last, idleDuration);
    IdleSinceIsStreakStart(h, w);
  }

  lemma FoundOnce(previous: seq<IdleWorkload>, found: seq<Key>, now: int)
    requires Distinct(found)
    ensures DistinctKeys(CarryOver(previous, found, now))
  {
  }

  /** A round at the given time over one running deployment that is idle or busy. */
  function Watching(now: int, idle: bool, saved: bool): (r: Round) {
    var check := Check(
      now, [], kind => Some(if kind == Deployment then ["web"] else []), _ => true, _ => idle);
    Round(map[Key(Deployment, "web") := ReplicaSpec(Some(1))],
          Env(check, now, Weather(_ => true, _ => true, _ => true), saved))
  }

  function FoundOfKind(c: Check, objects: map<Key, Body>, kind: Kind): seq<Key> {
    if Manages(c, kind) then FoundAmong(c, objects, kind, c.list(kind).GetOr([])) else []
  }

  lemma FoundOneMore(c: Check, objects: map<Key, Body>, kinds: seq<Kind>, kind: Kind)
    ensures FoundOfKinds(c, objects, kinds + [kind]) == FoundOfKinds(c, objects, kinds) + FoundOfKind(c, objects, kind)
  {
    assert (kinds + [kind])[..|kinds|] == kinds;
  }

  lemma FoundByKind(c: Check, objects: map<Key, Body>)
    ensures Found(c, objects) ==
      FoundOfKind(c, objects, Deployment) + FoundOfKind(c, objects, StatefulSet) + FoundOfKind(c, objects, CronJob)
  {
    FoundOneMore(c, objects, [], Deployment);
    FoundOneMore(c, objects, [] + [Deployment], StatefulSet);
    FoundOneMore(c, objects, [] + [Deployment] + [StatefulSet], CronJob);
    assert IDLE_KINDS == [] + [Deployment] + [StatefulSet] + [CronJob];
  }

  lemma FoundSingle(c: Check, objects: map<Key, Body>, kind: Kind, name: string)
    ensures FoundAmong(c, objects, kind, [name]) ==
      if IsFound(c, objects, Key(kind, name)) then [Key(kind, name)] else []
  {
    assert [name][..0] == [];
  }

  lemma WatchingFinds(now: int, idle: bool, saved: bool)
    ensures
      var r := Watching(now, idle, saved);
      Completed(r.env.check) && Found(r.env.check, r.objects) == if idle then [Key(Deployment, "web")] else []
  {
    var r := Watching(now, idle, saved);
    FoundByKind(r.env.check, r.objects);
    FoundSingle(r.env.check, r.objects, Deployment, "web");
  }

  lemma {:induction false} NothingDue(
    s: Scaling, idle: seq<IdleWorkload>, now: int, idleDuration: int, weather: Weather)
    requires forall w :: w in idle ==> now - w.since < idleDuration
    ensures ScaleAll(s, idle, now, idleDuration, weather) == s
    decreases |idle|
  {
    if idle == [] {
    } else {
      assert idle[0] in idle;
      NothingDue(s, idle[1..], now, idleDuration, weather);
    }
  }

  /** A completed check with nothing due persists its list with the final status write, or not at all. */
  lemma CheckWithNothingDue(st: Status, r: Round, idleDuration: int)
    requires Completed(r.env.check)
    requires forall w :: w in IdleList(st, r) ==> r.env.scaleTime - w.since < idleDuration
    ensures CheckOnce(st, r.objects, idleDuration, r.env).saved ==
      if r.env.finalStatus then Status(IdleList(st, r), st.scaled) else st
  {
    NothingDue(Detected(st, r), IdleList(st, r), r.env.scaleTime, idleDuration, r.env.weather);
  }

  /** The persisted list of a detector that has seen the watched deployment idle since 0. */
  function IdleSinceZero(): Status {
    Status([IdleWorkload(Key(Deployment, "web"), 0)], [])
  }

  lemma IdleAtZero()
    ensures CheckOnce(Status([], []), Watching(0, true, true).objects, 20, Watching(0, true, true).env).saved
         == IdleSinceZero()
  {
    var r := Watching(0, true, true);
    WatchingFinds(0, true, true);
    assert IdleList(Status([], []), r) == [IdleWorkload(Key(Deployment, "web"), 0)];
    CheckWithNothingDue(Status([], []), r, 20);
  }

  lemma BusyAtTen()
    ensures
      var r := Watching(10, false, false);
      Found(r.env.check, r.objects) == [] && CheckOnce(IdleSinceZero(), r.objects, 20, r.env).saved == IdleSinceZero()
  {
    WatchingFinds(10, false, false);
    CheckWithNothingDue(IdleSinceZero(), Watching(10, false, false), 20);
  }

  lemma ScaledAtTwenty()
    ensures CheckOnce(IdleSinceZero(), Watching(20, true, true).objects, 20, Watching(20, true, true).env).downs
         == [Key(Deployment, "web")]
  {
    var r, key := Watching(20, true, true), Key(Deployment, "web");
    WatchingFinds(20, true, true);
    var idle := IdleList(IdleSinceZero(), r);
    assert idle == [IdleWorkload(key, 0)] && idle[1..] == [];
    var start := Detected(IdleSinceZero(), r);
    assert ScaleAll(start, idle, 20, 20, r.env.weather)
        == ScaleAll(ScaleOne(start, idle[0], 20, 20, r.env.weather), idle[1..], 20, 20, r.env.weather);
    assert ScaleOne(start, idle[0], 20, 20, r.env.weather).downs == [key];
  }

  /** A busy check that is not persisted is forgotten: a workload idle at 0 and busy at 10 is scaled down at 20 for
      having been idle for 20 seconds. */
  lemma UnsavedBusyCheckIsForgotten()
    ensures
      var first, busy, last := Watching(0, true, true), Watching(10, false, false), Watching(20, true, true);
      var st := CheckOnce(Status([], []), first.objects, 20, first.env).saved;
      && Found(busy.env.check, busy.objects) == []
      && CheckOnce(st, busy.objects, 20, busy.env).saved == st
      && CheckOnce(st, last.objects, 20, last.env).downs == [Key(Deployment, "web")]
  {
    IdleAtZero();
    BusyAtTen();
    ScaledAtTwenty();
  }

  // ---------- the records ----------

  predicate AwakeScaled(r: ScaledWorkload) {
    match r.key.kind
    case Deployment | StatefulSet => r.replicas.Some? && r.replicas.value > 0
    case CronJob => r.suspend == Some(false)
    case _ => false
  }

  /** One record per kind and name, each with an awake original. */
  ghost predicate RecordsSound(scaled: seq<ScaledWorkload>) {
    && (forall i, j :: 0 <= i < j < |scaled| ==> scaled[i].key != scaled[j].key)
    && (forall i :: 0 <= i < |scaled| ==> AwakeScaled(scaled[i]))
  }

  lemma ScaleOneSound(s: Scaling, w: IdleWorkload, now: int, idleDuration: int, weather: Weather)
    requires RecordsSound(s.memory.scaled) && RecordsSound(s.saved.scaled)
    ensures
      var after := ScaleOne(s, w, now, idleDuration, weather);
      RecordsSound(after.memory.scaled) && RecordsSound(after.saved.scaled)
  {
    if w.key in s.objects && CanScale(w.key, s.objects[w.key]) && !IsScaled(s.memory.scaled, w.key) {
      var r := ScaledRecord(w.key, s.objects[w.key], now);
      assert AwakeScaled(r);
      assert RecordsSound(s.memory.scaled + [r]);
    }
  }

  lemma {:induction false} ScaleAllSound(
    s: Scaling, idle: seq<IdleWorkload>, now: int, idleDuration: int, weather: Weather)
    requires RecordsSound(s.memory.scaled) && RecordsSound(s.saved.scaled)
    ensures
      var after := ScaleAll(s, idle, now, idleDuration, weather);
      RecordsSound(after.memory.scaled) && RecordsSound(after.saved.scaled)
    decreases |idle|
  {
    if idle == [] {
    } else {
      var next := ScaleOne(s, idle[0], now, idleDuration, weather);
      ScaleOneSound(s, idle[0], now, idleDuration, weather);
      ScaleAllSound(next, idle[1..], now, idleDuration, weather);
    }
  }

  /** Whatever fails and whoever edits workloads between checks, the persisted records stay sound. */
  lemma {:induction false} ScaledRecordsAlwaysSound(rounds: seq<Round>, idleDuration: int)
    ensures RecordsSound(StatusAfter(rounds, idleDuration).scaled)
  {
    if rounds == [] {
    } else {
      var before, last := rounds[..|rounds| - 1], rounds[|rounds| - 1];
      ScaledRecordsAlwaysSound(before, idleDuration);
      var st := StatusAfter(before, idleDuration);
      var idle := CarryOver(st.idle, Found(last.env.check, last.objects), last.env.check.now);
      var start := Scaling(last.objects, Status(idle, st.scaled), st, true, []);
      ScaleAllSound(start, idle, last.env.scaleTime, idleDuration, last.env.weather);
    }
  }

  // ---------- restoring on deletion ----------

  /** The original a record stands for. */
  function Original(r: ScaledWorkload): Body {
    if r.key.kind == CronJob then JobSuspend(r.suspend) else ReplicaSpec(r.replicas)
  }

  predicate Restorable(r: ScaledWorkload) {
    match r.key.kind
    case Deployment | StatefulSet => r.replicas.Some?
    case CronJob => r.suspend.Some?
    case _ => false
  }

  /** The store, the records still to restore, and whether some restore failed. */
  datatype Restoring = Restoring(objects: map<Key, Body>, remaining: seq<ScaledWorkload>, failed: bool)

  function RestoreOne(s: Restoring, r: ScaledWorkload, weather: Weather): Restoring {
    if r.key.kind !in IDLE_KINDS then s.(remaining := s.remaining + [r])
    else if r.key !in s.objects || !weather.get(r.key) then
      s.(remaining := s.remaining + [r], failed := true)
    else if !Restorable(r) then s
    else if !weather.update(r.key) then s.(remaining := s.remaining + [r], failed := true)
    else s.(objects := s.objects[r.key := Original(r)])
  }

  function RestoreAll(s: Restoring, records: seq<ScaledWorkload>, weather: Weather): Restoring
    decreases |records|
  {
    if records == [] then s else RestoreAll(RestoreOne(s, records[0], weather), records[1..], weather)
  }

  /** A workload whose pods were resized; its restore is one call that succeeds or fails. */
  datatype Resized = Resized(key: Key)

  function StillResized(resized: seq<Resized>, restored: Key -> bool): seq<Resized> {
    if resized == [] then []
    else
      var rest := StillResized(resized[..|resized| - 1], restored);
      if restored(resized[|resized| - 1].key) then rest else rest + [resized[|resized| - 1]]
  }

  /** The environment of one reconcile of a deleted detector. */
  datatype Attempt = Attempt(weather: Weather, restored: Key -> bool, progressSaved: bool, finalizerRemoved: bool)

  /** A detector being deleted: the store, its persisted records, its finalizer, and the resized workloads whose
      pods have been restored so far. */
  datatype Deletion = Deletion(
    objects: map<Key, Body>, scaled: seq<ScaledWorkload>, resized: seq<Resized>, finalizer: bool,
    unresized: set<Key>)

  function NewlyRestored(resized: seq<Resized>, restored: Key -> bool): set<Key> {
    set i | 0 <= i < |resized| && restored(resized[i].key) :: resized[i].key
  }

  /** The deletion branch: restore everything, keep what failed for the next attempt, and let go only if nothing did. */
  function DeleteAttempt(d: Deletion, a: Attempt): Deletion {
    if !d.finalizer then d
    else
      var s := RestoreAll(Restoring(d.objects, [], false), d.scaled, a.weather);
      var d1 := d.(objects := s.objects);
      if s.failed then
        if a.progressSaved then d1.(scaled := s.remaining) else d1
      else
        var left := StillResized(d.resized, a.restored);
        var d2 := d1.(unresized := d.unresized + NewlyRestored(d.resized, a.restored));
        if left != [] then
          if a.progressSaved then d2.(scaled := s.remaining, resized := left) else d2
        else d2.(finalizer := !a.finalizerRemoved)
  }

  function DeleteAttempts(d: Deletion, attempts: seq<Attempt>): Deletion {
    if attempts == [] then d
    else DeleteAttempt(DeleteAttempts(d, attempts[..|attempts| - 1]), attempts[|attempts| - 1])
  }

  /** The records without those of the given keys, in their order. */
  function Without(records: seq<ScaledWorkload>, gone: set<Key>): seq<ScaledWorkload> {
    if records == [] then []
    else if records[0].key in gone then Without(records[1..], gone)
    else [records[0]] + Without(records[1..], gone)
  }

  lemma {:induction false} WithoutMembers(records: seq<ScaledWorkload>, gone: set<Key>)
    ensures forall r :: r in Without(records, gone) <==> r in records && r.key !in gone
  {
    if records == [] {
    } else {
      WithoutMembers(records[1..], gone);
    }
  }

  lemma {:induction false} WithoutTwice(records: seq<ScaledWorkload>, a: set<Key>, b: set<Key>)
    ensures Without(Without(records, a), b) == Without(records, a + b)
  {
    if records == [] {
    } else {
      WithoutTwice(records[1..], a, b);
    }
  }

  lemma {:induction false} WithoutKeepsDistinct(records: seq<ScaledWorkload>, gone: set<Key>)
    requires RecordsSound(records)
    ensures RecordsSound(Without(records, gone))
  {
    if records == [] {
    } else {
      WithoutKeepsDistinct(records[1..], gone);
      WithoutMembers(records[1..], gone);
      forall r | r in Without(records[1..], gone)
        ensures r.key != records[0].key
      {
        var i :| 0 <= i < |records[1..]| && records[1..][i] == r;
        assert records[i + 1].key != records[0].key;
      }
    }
  }

  /** The restore of a record's workload goes through. */
  predicate WritesBack(objects: map<Key, Body>, weather: Weather, k: Key) {
    k in objects && weather.get(k) && weather.update(k)
  }

  /** The recorded keys whose restore goes through. */
  function Gone(objects: map<Key, Body>, records: seq<ScaledWorkload>, weather: Weather): set<Key> {
    set i | 0 <= i < |records| && WritesBack(objects, weather, records[i].key) :: records[i].key
  }

  lemma GoneMembers(objects: map<Key, Body>, records: seq<ScaledWorkload>, weather: Weather)
    ensures forall r :: r in records ==>
      (r.key in Gone(objects, records, weather) <==> WritesBack(objects, weather, r.key))
  {
  }

  lemma {:induction false} SameWithout(records: seq<ScaledWorkload>, a: set<Key>, b: set<Key>)
    requires forall r :: r in records ==> (r.key in a <==> r.key in b)
    ensures Without(records, a) == Without(records, b)
  {
    if records == [] {
    } else {
      assert records[0] in records;
      SameWithout(records[1..], a, b);
    }
  }

  /** One sound record: written back, or kept and reported as a failure. */
  lemma RestoreOneSound(s: Restoring, r: ScaledWorkload, weather: Weather)
    requires AwakeScaled(r)
    ensures RestoreOne(s, r, weather) ==
      if WritesBack(s.objects, weather, r.key) then s.(objects := s.objects[r.key := Original(r)])
      else s.(remaining := s.remaining + [r], failed := true)
  {
    assert r.key.kind in IDLE_KINDS by {
      assert IDLE_KINDS[0] == Deployment && IDLE_KINDS[1] == StatefulSet && IDLE_KINDS[2] == CronJob;
    }
  }

  lemma RestSound(records: seq<ScaledWorkload>)
    requires records != [] && RecordsSound(records)
    ensures AwakeScaled(records[0]) && RecordsSound(records[1..])
    ensures forall r :: r in records[1..] ==> r.key != records[0].key
  {
    forall r | r in records[1..]
      ensures r.key != records[0].key
    {
      var i :| 0 <= i < |records[1..]| && records[1..][i] == r;
      assert records[i + 1] == r;
    }
  }

  /** The records a pass keeps. */
  function Kept(objects: map<Key, Body>, records: seq<ScaledWorkload>, weather: Weather): seq<ScaledWorkload> {
    Without(records, Gone(objects, records, weather))
  }

  lemma KeptOneMore(
    objects: map<Key, Body>, later: map<Key, Body>, records: seq<ScaledWorkload>, weather: Weather)
    requires records != [] && later.Keys == objects.Keys
    ensures Kept(objects, records, weather) ==
      (if WritesBack(objects, weather, records[0].key) then [] else [records[0]]) + Kept(later, records[1..], weather)
  {
    var rest := records[1..];
    GoneMembers(objects, records, weather);
    GoneMembers(later, rest, weather);
    assert records[0] in records && forall q :: q in rest ==> q in records;
    SameWithout(rest, Gone(later, rest, weather), Gone(objects, records, weather));
  }

  /** One restore pass over sound records lets go exactly those it writes back; the rest stay in order, and it fails
      exactly if something stays. */
  lemma {:induction false} RestoreAllKeepsFailures(s: Restoring, records: seq<ScaledWorkload>, weather: Weather)
    requires RecordsSound(records)
    ensures
      var after := RestoreAll(s, records, weather);
      var kept := Kept(s.objects, records, weather);
      && after.objects.Keys == s.objects.Keys
      && after.remaining == s.remaining + kept && (after.failed <==> s.failed || kept != [])
    decreases |records|
  {
    if records == [] {
    } else {
      var next := RestoreOne(s, records[0], weather);
      RestSound(records);
      RestoreOneSound(s, records[0], weather);
      RestoreAllKeepsFailures(next, records[1..], weather);
      KeptOneMore(s.objects, next.objects, records, weather);
    }
  }

  /** A pass leaves the originals of the records it lets go, and every other workload as it was. */
  lemma {:induction false} RestoreAllWritesBack(s: Restoring, records: seq<ScaledWorkload>, weather: Weather, k: Key)
    requires RecordsSound(records) && k in s.objects
    ensures
      var after := RestoreAll(s, records, weather).objects;
      && k in after
      && (k !in Gone(s.objects, records, weather) ==> after[k] == s.objects[k])
      && forall r :: r in records && r.key == k && WritesBack(s.objects, weather, k) ==> after[k] == Original(r)
    decreases |records|
  {
    if records == [] {
    } else {
      var r, rest := records[0], records[1..];
      RestSound(records);
      RestoreOneSound(s, r, weather);
      var next := RestoreOne(s, r, weather);
      RestoreAllWritesBack(next, rest, weather, k);
      if k in Gone(next.objects, rest, weather) {
        var i :| 0 <= i < |rest| && WritesBack(next.objects, weather, rest[i].key) && rest[i].key == k;
        assert records[i + 1].key == k;
      }
      assert r.key == k && WritesBack(s.objects, weather, k) ==> k in Gone(s.objects, records, weather);
    }
  }

  lemma WithoutNothing(records: seq<ScaledWorkload>, gone: set<Key>)
    requires Without(records, gone) == []
    ensures forall r :: r in records ==> r.key in gone
  {
    WithoutMembers(records, gone);
    forall r | r in records
      ensures r.key in gone
    {
      assert r !in Without(records, gone);
    }
  }

  /** How a deletion stands: of the records it started with, those of the given keys have left the persisted list,
      in order, and each of these has been written back; and once the finalizer is gone every original is back and
      every resized workload restored. */
  ghost predicate DeletionSafe(d0: Deletion, d: Deletion, gone: set<Key>) {
    && d.objects.Keys == d0.objects.Keys
    && d.scaled == Without(d0.scaled, gone)
    && (forall r :: r in d0.scaled && r.key in gone ==> r.key in d.objects && d.objects[r.key] == Original(r))
    && (forall i :: 0 <= i < |d0.resized| ==> d0.resized[i] in d.resized || d0.resized[i].key in d.unresized)
    && (!d.finalizer ==>
          && (forall r :: r in d0.scaled ==> r.key in d.objects && d.objects[r.key] == Original(r))
          && (forall i :: 0 <= i < |d0.resized| ==> d0.resized[i].key in d.unresized))
  }

  lemma {:induction false} StillResizedMembers(resized: seq<Resized>, restored: Key -> bool)
    ensures forall x :: x in resized ==> x in StillResized(resized, restored) || restored(x.key)
    ensures forall x :: x in StillResized(resized, restored) ==> x in resized && !restored(x.key)
    ensures (forall k :: restored(k)) ==> StillResized(resized, restored) == []
  {
    if resized == [] {
    } else {
      StillResizedMembers(resized[..|resized| - 1], restored);
    }
  }

  /** The records a pass restores were written back; with the earlier ones every record of d0 is either still listed
      or back in its original form. */
  lemma WrittenBackSoFar(d0: Deletion, d: Deletion, gone: set<Key>, weather: Weather)
    requires RecordsSound(d0.scaled) && DeletionSafe(d0, d, gone)
    ensures
      var s := RestoreAll(Restoring(d.objects, [], false), d.scaled, weather);
      var now := Gone(d.objects, d.scaled, weather);
      && s.objects.Keys == d.objects.Keys && s.remaining == Without(d0.scaled, gone + now)
      && (s.failed <==> s.remaining != [])
      && (forall r :: r in d0.scaled && r.key in gone + now ==>
            r.key in s.objects && s.objects[r.key] == Original(r))
  {
    var start, now := Restoring(d.objects, [], false), Gone(d.objects, d.scaled, weather);
    WithoutKeepsDistinct(d0.scaled, gone);
    WithoutMembers(d0.scaled, gone);
    RestoreAllKeepsFailures(start, d.scaled, weather);
    WithoutTwice(d0.scaled, gone, now);
    var s := RestoreAll(start, d.scaled, weather);
    assert [] + Without(d.scaled, now) == Without(d.scaled, now);
    forall r | r in d0.scaled && r.key in gone + now
      ensures r.key in s.objects && s.objects[r.key] == Original(r)
    {
      WrittenBack(d0, d, gone, weather, r);
    }
  }

  lemma WrittenBack(d0: Deletion, d: Deletion, gone: set<Key>, weather: Weather, r: ScaledWorkload)
    requires RecordsSound(d0.scaled) && DeletionSafe(d0, d, gone) && r in d0.scaled
    requires r.key in gone + Gone(d.objects, d.scaled, weather)
    ensures
      var s := RestoreAll(Restoring(d.objects, [], false), d.scaled, weather);
      r.key in s.objects && s.objects[r.key] == Original(r)
  {
    var now := Gone(d.objects, d.scaled, weather);
    WithoutKeepsDistinct(d0.scaled, gone);
    WithoutMembers(d0.scaled, gone);
    if r.key in now {
      var i :| 0 <= i < |d.scaled| && WritesBack(d.objects, weather, d.scaled[i].key) && d.scaled[i].key == r.key;
      assert d.scaled[i] in d.scaled;
    }
    RestoreAllWritesBack(Restoring(d.objects, [], false), d.scaled, weather, r.key);
  }

  lemma AttemptSafe(d0: Deletion, d: Deletion, gone: set<Key>, a: Attempt) returns (more: set<Key>)
    requires RecordsSound(d0.scaled) && DeletionSafe(d0, d, gone)
    ensures DeletionSafe(d0, DeleteAttempt(d, a), more) && gone <= more
  {
    more := gone;
    if d.finalizer {
      var now := Gone(d.objects, d.scaled, a.weather);
      WrittenBackSoFar(d0, d, gone, a.weather);
      var s := RestoreAll(Restoring(d.objects, [], false), d.scaled, a.weather);
      StillResizedMembers(d.resized, a.restored);
      var left := StillResized(d.resized, a.restored);
      var after := DeleteAttempt(d, a);
      if !s.failed {
        WithoutNothing(d0.scaled, gone + now);
        forall i | 0 <= i < |d0.resized| && d0.resized[i] !in left
          ensures d0.resized[i].key in d.unresized + NewlyRestored(d.resized, a.restored)
        {
        }
      }
      if a.progressSaved && (s.failed || left != []) {
        more := gone + now;
      }
    }
  }

  /** Idle restore: over any sequence of failing and retried deletions the persisted records are the initial ones, in
      order, without some whose originals have all been written back; and the finalizer goes only when no scaled or
      resized record remains to be restored. */
  lemma {:induction false} RestoreLosesNothing(d0: Deletion, attempts: seq<Attempt>) returns (gone: set<Key>)
    requires RecordsSound(d0.scaled) && d0.finalizer
    ensures DeletionSafe(d0, DeleteAttempts(d0, attempts), gone)
  {
    gone := {};
    if attempts == [] {
      SameRecords(d0.scaled);
    } else {
      var before := attempts[..|attempts| - 1];
      gone := RestoreLosesNothing(d0, before);
      gone := AttemptSafe(d0, DeleteAttempts(d0, before), gone, attempts[|attempts| - 1]);
    }
  }

  lemma {:induction false} SameRecords(records: seq<ScaledWorkload>)
    ensures Without(records, {}) == records
  {
    if records == [] {
    } else {
      SameRecords(records[1..]);
    }
  }

  /** A recorded workload that no longer exists can never be restored, so its detector is never let go. */
  lemma MissingWorkloadHoldsDeletion(d0: Deletion, attempts: seq<Attempt>, r: ScaledWorkload)
    requires RecordsSound(d0.scaled) && d0.finalizer && r in d0.scaled && r.key !in d0.objects
    ensures DeleteAttempts(d0, attempts).finalizer
  {
    var gone := RestoreLosesNothing(d0, attempts);
  }

  /** One attempt with no failing call completes the deletion exactly if every recorded workload still exists. */
  lemma QuietAttemptCompletes(d: Deletion, a: Attempt)
    requires RecordsSound(d.scaled) && d.finalizer && a.finalizerRemoved
    requires forall k :: a.weather.get(k) && a.weather.update(k) && a.restored(k)
    ensures !DeleteAttempt(d, a).finalizer <==> forall r :: r in d.scaled ==> r.key in d.objects
  {
    var gone := Gone(d.objects, d.scaled, a.weather);
    RestoreAllKeepsFailures(Restoring(d.objects, [], false), d.scaled, a.weather);
    GoneMembers(d.objects, d.scaled, a.weather);
    StillResizedMembers(d.resized, a.restored);
    WithoutMembers(d.scaled, gone);
    if Without(d.scaled, gone) != [] {
      var r := Without(d.scaled, gone)[0];
      assert r in Without(d.scaled, gone);
    } else {
      WithoutNothing(d.scaled, gone);
    }
  }
}
