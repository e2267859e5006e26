/**
 From the first check of an idle detector to the end of its deletion: what is found and scaled down, and that every
 workload with a persisted record comes back as it was.
 */
module IdleRoundTrip {
  import opened Common
  import opened Workloads
  import opened IdleDetection

  // ---------- one workload ----------

  /** There is something to scale exactly if a sleep schedule would call the workload awake. */
  lemma CanScaleIsAwake(key: Key, body: Body)
    ensures CanScale(key, body) <==>
      key.kind in {Deployment, StatefulSet, CronJob} && HasForm(key.kind, body) && Awake(body)
  {
  }

  /** The record of a scale-down stands for the original, and can be restored. */
  lemma RecordHoldsOriginal(key: Key, body: Body, at: int)
    requires CanScale(key, body)
    ensures
      var r := ScaledRecord(key, body, at);
      r.key == key && r.at == at && Restorable(r) && Equivalent(Original(r), body)
  {
  }

  /** At zero replicas, or suspended. */
  predicate IsDown(body: Body) {
    body == ReplicaSpec(Some(0)) || body == JobSuspend(Some(true))
  }

  lemma ScaledIsDown(key: Key, body: Body)
    requires CanScale(key, body)
    ensures IsDown(PutToSleep(body)) && !CanScale(key, PutToSleep(body)) && !Equivalent(PutToSleep(body), body)
  {
    CanScaleIsAwake(key, body);
    SleptIsNotEquivalent(body);
  }

  // ---------- what a check finds ----------

  lemma {:induction false} FoundAmongExactly(
    c: Check, objects: map<Key, Body>, kind: Kind, names: seq<string>, key: Key)
    ensures key in FoundAmong(c, objects, kind, names) <==>
      key.kind == kind && key.name in names && IsFound(c, objects, key)
  {
    if names == [] {
    } else {
      var n := |names| - 1;
      FoundAmongExactly(c, objects, kind, names[..n], key);
      assert names == names[..n] + [names[n]];
    }
  }

  /** A check finds exactly the workloads of a managed kind that are listed, match, are idle, and neither at zero
      replicas nor suspended. */
  lemma FoundExactly(c: Check, objects: map<Key, Body>, key: Key)
    ensures key in Found(c, objects) <==>
      && key.kind in {Deployment, StatefulSet, CronJob} && Manages(c, key.kind)
      && c.list(key.kind).Some? && key.name in c.list(key.kind).value
      && key in objects && c.matches(key.name) && c.idle(key)
      && objects[key] != ReplicaSpec(Some(0)) && objects[key] != JobSuspend(Some(true))
  {
    FoundByKind(c, objects);
    forall kind
      ensures key in FoundOfKind(c, objects, kind) <==>
        && key.kind == kind && Manages(c, kind) && key.name in c.list(kind).GetOr([]) && IsFound(c, objects, key)
    {
      FoundAmongExactly(c, objects, kind, c.list(kind).GetOr([]), key);
    }
  }

  // ---------- what a pass scales down ----------

  ghost predicate DownsAreDown(s: Scaling) {
    forall key :: key in s.downs ==> key in s.objects && IsDown(s.objects[key])
  }

  lemma ScaleOneDowns(s: Scaling, w: IdleWorkload, now: int, idleDuration: int, weather: Weather)
    requires DownsAreDown(s)
    ensures DownsAreDown(ScaleOne(s, w, now, idleDuration, weather))
  {
    if w.key in s.objects && CanScale(w.key, s.objects[w.key]) {
      ScaledIsDown(w.key, s.objects[w.key]);
    }
  }

  lemma {:induction false} ScaleAllDownsAreDown(
    s: Scaling, idle: seq<IdleWorkload>, now: int, idleDuration: int, weather: Weather)
    requires DownsAreDown(s)
    ensures DownsAreDown(ScaleAll(s, idle, now, idleDuration, weather))
    decreases |idle|
  {
    if idle == [] {
    } else {
      ScaleOneDowns(s, idle[0], now, idleDuration, weather);
      ScaleAllDownsAreDown(ScaleOne(s, idle[0], now, idleDuration, weather), idle[1..], now, idleDuration, weather);
    }
  }

  /** Whatever a check scales down is at zero replicas or suspended when it is done. */
  lemma ScaledDownIsDown(st: Status, r: Round, idleDuration: int)
    ensures DownsAreDown(CheckOnce(st, r.objects, idleDuration, r.env))
  {
    ScaleAllDownsAreDown(Detected(st, r), IdleList(st, r), r.env.scaleTime, idleDuration, r.env.weather);
  }

  // ---------- a detector's life without outside edits ----------

  datatype Live = Live(objects: map<Key, Body>, status: Status)

  /** The cluster and the persisted status after some checks. */
  function Lived(o0: map<Key, Body>, envs: seq<Env>, idleDuration: int): Live {
    if envs == [] then Live(o0, Status([], []))
    else
      var before := Lived(o0, envs[..|envs| - 1], idleDuration);
      var s := CheckOnce(before.status, before.objects, idleDuration, envs[|envs| - 1]);
      Live(s.objects, s.saved)
  }

  /** Every workload is as it was or scaled down from that. */
  ghost predicate HomeOrDown(o0: map<Key, Body>, objects: map<Key, Body>) {
    && objects.Keys == o0.Keys
    && forall k :: k in o0 ==>
         objects[k] == o0[k] || (CanScale(k, o0[k]) && objects[k] == PutToSleep(o0[k]))
  }

  /** The record is of the original of a workload that is scaled down. */
  ghost predicate TrueScaled(o0: map<Key, Body>, objects: map<Key, Body>, r: ScaledWorkload) {
    && r.key in o0 && CanScale(r.key, o0[r.key]) && r == ScaledRecord(r.key, o0[r.key], r.at)
    && r.key in objects && objects[r.key] == PutToSleep(o0[r.key])
  }

  ghost predicate AllTrue(o0: map<Key, Body>, objects: map<Key, Body>, records: seq<ScaledWorkload>) {
    forall r :: r in records ==> TrueScaled(o0, objects, r)
  }

  ghost predicate LiveSound(o0: map<Key, Body>, s: Scaling) {
    && HomeOrDown(o0, s.objects)
    && AllTrue(o0, s.objects, s.memory.scaled) && AllTrue(o0, s.objects, s.saved.scaled)
    && RecordsSound(s.memory.scaled) && RecordsSound(s.saved.scaled)
  }

  lemma ScaleOneLive(
    o0: map<Key, Body>, s: Scaling, w: IdleWorkload, now: int, idleDuration: int, weather: Weather)
    requires LiveSound(o0, s)
    ensures LiveSound(o0, ScaleOne(s, w, now, idleDuration, weather))
  {
    ScaleOneSound(s, w, now, idleDuration, weather);
    if w.key in s.objects && CanScale(w.key, s.objects[w.key]) {
      if s.objects[w.key] != o0[w.key] {
        ScaledIsDown(w.key, o0[w.key]);
        assert false;
      }
      forall r | r in s.memory.scaled || r in s.saved.scaled
        ensures r.key != w.key
      {
        assert TrueScaled(o0, s.objects, r);
        ScaledIsDown(r.key, o0[r.key]);
      }
    }
  }

  lemma {:induction false} ScaleAllLive(
    o0: map<Key, Body>, s: Scaling, idle: seq<IdleWorkload>, now: int, idleDuration: int, weather: Weather)
    requires LiveSound(o0, s)
    ensures LiveSound(o0, ScaleAll(s, idle, now, idleDuration, weather))
    decreases |idle|
  {
    if idle == [] {
    } else {
      ScaleOneLive(o0, s, idle[0], now, idleDuration, weather);
      ScaleAllLive(o0, ScaleOne(s, idle[0], now, idleDuration, weather), idle[1..], now, idleDuration, weather);
    }
  }

  /** Whatever fails, each persisted record is of the true original of a workload that is down. */
  lemma {:induction false} LivedSoundly(o0: map<Key, Body>, envs: seq<Env>, idleDuration: int)
    ensures
      var live := Lived(o0, envs, idleDuration);
      && HomeOrDown(o0, live.objects) && AllTrue(o0, live.objects, live.status.scaled)
      && RecordsSound(live.status.scaled)
  {
    if envs == [] {
    } else {
      var before := Lived(o0, envs[..|envs| - 1], idleDuration);
      var r := Round(before.objects, envs[|envs| - 1]);
      LivedSoundly(o0, envs[..|envs| - 1], idleDuration);
      ScaleAllLive(
        o0, Detected(before.status, r), IdleList(before.status, r), r.env.scaleTime, idleDuration, r.env.weather);
    }
  }

  // ---------- and back ----------

  /** Deletions leave workloads without a record alone. */
  lemma {:induction false} DeletionsLeaveOthers(d0: Deletion, attempts: seq<Attempt>, k: Key)
    requires RecordsSound(d0.scaled) && d0.finalizer && k in d0.objects && !IsScaled(d0.scaled, k)
    ensures k in DeleteAttempts(d0, attempts).objects && DeleteAttempts(d0, attempts).objects[k] == d0.objects[k]
  {
    if attempts == [] {
    } else {
      var before, a := attempts[..|attempts| - 1], attempts[|attempts| - 1];
      DeletionsLeaveOthers(d0, before, k);
      var gone := RestoreLosesNothing(d0, before);
      var d := DeleteAttempts(d0, before);
      WithoutKeepsDistinct(d0.scaled, gone);
      WithoutMembers(d0.scaled, gone);
      RestoreAllWritesBack(Restoring(d.objects, [], false), d.scaled, a.weather, k);
      forall i | 0 <= i < |d.scaled|
        ensures d.scaled[i].key != k
      {
        assert d.scaled[i] in d.scaled && d.scaled[i] in d0.scaled;
      }
    }
  }

  /** The round trip of a detector: after any checks, whatever fails, and any deletion attempts that end with the
      finalizer gone, a workload is as it was before the first check exactly if it was not scaled down or its record
      was persisted. */
  lemma IdleRoundTrip(
    o0: map<Key, Body>, envs: seq<Env>, idleDuration: int, resized: seq<Resized>, attempts: seq<Attempt>, k: Key)
    requires k in o0
    requires
      var live := Lived(o0, envs, idleDuration);
      !DeleteAttempts(Deletion(live.objects, live.status.scaled, resized, true, {}), attempts).finalizer
    ensures
      var live := Lived(o0, envs, idleDuration);
      var end := DeleteAttempts(Deletion(live.objects, live.status.scaled, resized, true, {}), attempts);
      && k in live.objects && k in end.objects
      && (Equivalent(end.objects[k], o0[k]) <==> live.objects[k] == o0[k] || IsScaled(live.status.scaled, k))
  {
    var live := Lived(o0, envs, idleDuration);
    var d0 := Deletion(live.objects, live.status.scaled, resized, true, {});
    LivedSoundly(o0, envs, idleDuration);
    if IsScaled(d0.scaled, k) {
      var gone := RestoreLosesNothing(d0, attempts);
      var i :| 0 <= i < |d0.scaled| && d0.scaled[i].key == k;
      assert d0.scaled[i] in d0.scaled;
      RecordHoldsOriginal(k, o0[k], d0.scaled[i].at);
    } else {
      DeletionsLeaveOthers(d0, attempts, k);
      if live.objects[k] != o0[k] {
        ScaledIsDown(k, o0[k]);
      }
    }
  }

  // ---------- when no status write fails ----------

  /** Every workload that is down has a persisted record, and nothing is left to persist. */
  ghost predicate AllSaved(o0: map<Key, Body>, s: Scaling) {
    && s.objects.Keys == o0.Keys && s.saved.scaled == s.memory.scaled
    && forall k :: k in o0 && s.objects[k] != o0[k] ==> IsScaled(s.saved.scaled, k)
  }

  lemma ScaleOneSaved(
    o0: map<Key, Body>, s: Scaling, w: IdleWorkload, now: int, idleDuration: int, weather: Weather)
    requires AllSaved(o0, s) && weather.status(w.key)
    ensures AllSaved(o0, ScaleOne(s, w, now, idleDuration, weather))
  {
    var after := ScaleOne(s, w, now, idleDuration, weather);
    forall k | k in o0 && after.objects[k] != o0[k]
      ensures IsScaled(after.saved.scaled, k)
    {
      if k != w.key {
        ScaleOneLeavesOthers(s, w, now, idleDuration, weather, k);
      } else if after.objects[k] != s.objects[k] {
        assert after.saved.scaled[|s.memory.scaled|].key == k;
      } else {
        var i :| 0 <= i < |s.saved.scaled| && s.saved.scaled[i].key == k;
        assert s.memory.scaled <= after.memory.scaled;
        assert after.saved.scaled[i].key == k;
      }
    }
  }

  lemma {:induction false} ScaleAllSaved(
    o0: map<Key, Body>, s: Scaling, idle: seq<IdleWorkload>, now: int, idleDuration: int, weather: Weather)
    requires AllSaved(o0, s) && forall k :: weather.status(k)
    ensures AllSaved(o0, ScaleAll(s, idle, now, idleDuration, weather))
    decreases |idle|
  {
    if idle == [] {
    } else {
      ScaleOneSaved(o0, s, idle[0], now, idleDuration, weather);
      ScaleAllSaved(o0, ScaleOne(s, idle[0], now, idleDuration, weather), idle[1..], now, idleDuration, weather);
    }
  }

  /** If the status writes after scale-downs succeed, every workload that is down has a persisted record, so that the
      end of a deletion brings all of them back. */
  lemma NothingLost(o0: map<Key, Body>, envs: seq<Env>, idleDuration: int, k: Key)
    requires forall i, key :: 0 <= i < |envs| ==> envs[i].weather.status(key)
    requires k in o0
    ensures
      var live := Lived(o0, envs, idleDuration);
      k in live.objects && (live.objects[k] == o0[k] || IsScaled(live.status.scaled, k))
  {
    LivedSavedly(o0, envs, idleDuration);
  }

  lemma {:induction false} LivedSavedly(o0: map<Key, Body>, envs: seq<Env>, idleDuration: int)
    requires forall i, key :: 0 <= i < |envs| ==> envs[i].weather.status(key)
    ensures
      var live := Lived(o0, envs, idleDuration);
      AllSaved(o0, Scaling(live.objects, live.status, live.status, true, []))
  {
    if envs == [] {
    } else {
      var before := Lived(o0, envs[..|envs| - 1], idleDuration);
      var r := Round(before.objects, envs[|envs| - 1]);
      LivedSavedly(o0, envs[..|envs| - 1], idleDuration);
      ScaleAllSaved(
        o0, Detected(before.status, r), IdleList(before.status, r), r.env.scaleTime, idleDuration, r.env.weather);
    }
  }


  // ---------- odd records and failing finalizers ----------

  lemma {:induction false} RemainingGrows(s: Restoring, records: seq<ScaledWorkload>, weather: Weather)
    ensures s.remaining <= RestoreAll(s, records, weather).remaining
    decreases |records|
  {
    if records == [] {
    } else {
      RemainingGrows(RestoreOne(s, records[0], weather), records[1..], weather);
    }
  }

  /** A record of a kind the detector does not scale is kept, and is no failure of its own. */
  lemma {:induction false} UnsupportedIsKept(
    s: Restoring, records: seq<ScaledWorkload>, weather: Weather, r: ScaledWorkload)
    requires r in records && r.key.kind !in {Deployment, StatefulSet, CronJob}
    ensures r in RestoreAll(s, records, weather).remaining
    ensures records == [r] ==> !RestoreAll(s, records, weather).failed || s.failed
    decreases |records|
  {
    var next := RestoreOne(s, records[0], weather);
    if records[0] == r {
      assert next.remaining[|s.remaining|] == r;
      RemainingGrows(next, records[1..], weather);
      assert RestoreAll(next, records[1..], weather).remaining[|s.remaining|] == r;
    } else {
      UnsupportedIsKept(next, records[1..], weather, r);
    }
  }

  /** The finalizer goes only with the write that removes it. */
  lemma FinalizerNeedsItsWrite(d: Deletion, a: Attempt)
    requires !a.finalizerRemoved
    ensures DeleteAttempt(d, a).finalizer == d.finalizer
  {
  }

  /** A record without its original is dropped, with nothing to write back. */
  lemma IncompleteIsDropped(s: Restoring, r: ScaledWorkload, weather: Weather)
    requires r.key.kind in {Deployment, StatefulSet, CronJob} && r.replicas == None && r.suspend == None
    requires r.key in s.objects && weather.get(r.key)
    ensures RestoreAll(s, [r], weather) == s
  {
    assert [r][1..] == [];
    assert IDLE_KINDS[0] == Deployment && IDLE_KINDS[1] == StatefulSet && IDLE_KINDS[2] == CronJob;
  }

  /** A check with a List that fails is an error and changes nothing. */
  lemma FailedListChangesNothing(st: Status, r: Round, idleDuration: int, kind: Kind)
    requires kind in {Deployment, StatefulSet, CronJob} && Manages(r.env.check, kind)
    requires r.env.check.list(kind).None?
    ensures CheckOnce(st, r.objects, idleDuration, r.env) == Scaling(r.objects, st, st, false, [])
  {
    assert kind in IDLE_KINDS by {
      assert IDLE_KINDS[0] == Deployment && IDLE_KINDS[1] == StatefulSet && IDLE_KINDS[2] == CronJob;
    }
  }
}
