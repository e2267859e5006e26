/** The idle detector's reconcile loop over a mutable store, proved to compute the functions of IdleDetection. */
module IdleDetector {
  import opened Common
  import opened Workloads
  import opened IdleDetection

  class Detector {
    var objects: map<Key, Body>           // the workloads of the detector's namespace
    var status: Status                    // persisted idle and scaled workloads
    var resized: seq<Resized>             // persisted resized workloads
    var finalizer: bool
    ghost var downs: seq<Key>             // scale-downs of the current reconcile
    ghost var unresized: set<Key>         // resized workloads whose pods were restored

    constructor (objects: map<Key, Body>)
      ensures this.objects == objects && status == Status([], []) && resized == [] && finalizer
    {
      this.objects, status, resized, finalizer := objects, Status([], []), [], true;
      downs, unresized := [], {};
    }

    ghost function Progress(memory: Status, ok: bool): Scaling
      reads this
    {
      Scaling(objects, memory, status, ok, downs)
    }

    ghost function Deleting(): Deletion
      reads this
    {
      Deletion(objects, status.scaled, resized, finalizer, unresized)
    }

    /** The time an already listed workload has been idle since, or now. */
    method IdleSince(key: Key, now: int) returns (since: int)
      ensures since == SinceOf(status.idle, key, now)
    {
      since := now;
      for i := 0 to |status.idle|
        invariant since == now
        invariant SinceOf(status.idle, key, now) == SinceOf(status.idle[i..], key, now)
      {
        assert status.idle[i..][0] == status.idle[i] && status.idle[i..][1..] == status.idle[i + 1..];
        if status.idle[i].key == key {
          return status.idle[i].since;
        }
      }
      assert status.idle[|status.idle|..] == [];
    }

    /** The section of a check that handles one kind. */
    method DetectKind(c: Check, kind: Kind, names: seq<string>, idle0: seq<IdleWorkload>, ghost found0: seq<Key>)
      returns (idle: seq<IdleWorkload>)
      requires forall name :: name in names ==> Key(kind, name) in objects
      requires idle0 == CarryOver(status.idle, found0, c.now)
      ensures idle == CarryOver(status.idle, found0 + FoundAmong(c, objects, kind, names), c.now)
    {
      idle := idle0;
      ghost var found := found0;
      assert found0 + [] == found0;
      for i := 0 to |names|
        invariant found == found0 + FoundAmong(c, objects, kind, names[..i])
        invariant idle == CarryOver(status.idle, found, c.now)
      {
        assert names[..i + 1][..i] == names[..i];
        var key := Key(kind, names[i]);
        if !c.matches(names[i]) {
          continue;
        }
        if AlreadyDown(objects[key]) {
          continue;
        }
        if c.idle(key) {
          var since := IdleSince(key, c.now);
          idle := idle + [IdleWorkload(key, since)];
          found := found + [key];
        }
      }
      assert names[..|names|] == names;
    }

    /** Lists the idle workloads of all kinds; not ok if a List fails. */
    method DetectIdleWorkloads(c: Check) returns (ok: bool, idle: seq<IdleWorkload>)
      requires forall kind :: c.list(kind).Some? ==>
                 forall name :: name in c.list(kind).value ==> Key(kind, name) in objects
      ensures ok <==> Completed(c)
      ensures ok ==> idle == CarryOver(status.idle, Found(c, objects), c.now)
    {
      idle := [];
      for i := 0 to |IDLE_KINDS|
        invariant forall j :: 0 <= j < i && Manages(c, IDLE_KINDS[j]) ==> c.list(IDLE_KINDS[j]).Some?
        invariant idle == CarryOver(status.idle, FoundOfKinds(c, objects, IDLE_KINDS[..i]), c.now)
      {
        var kind := IDLE_KINDS[i];
        assert IDLE_KINDS[..i + 1][..i] == IDLE_KINDS[..i];
        ghost var found := FoundOfKinds(c, objects, IDLE_KINDS[..i]);
        if c.types == [] || KindName(kind) in c.types {
          var listed := c.list(kind);
          if listed.None? {
            assert kind in IDLE_KINDS;
            return false, [];
          }
          idle := DetectKind(c, kind, listed.value, idle, found);
        } else {
          assert found + [] == found;
        }
      }
      assert IDLE_KINDS[..|IDLE_KINDS|] == IDLE_KINDS;
      return true, idle;
    }

    /** Scales one workload down, by its kind; done is false if a call failed. */
    method ScaleDownWorkload(memory: Status, key: Key, now: int, weather: Weather)
      returns (done: bool, scaled: seq<ScaledWorkload>)
      modifies `objects, `downs
      ensures
        match ScaleDown(old(Progress(memory, true)), key, now, weather)
        case None => !done && Progress(memory, true) == old(Progress(memory, true))
        case Some(next) => done && Progress(memory.(scaled := scaled), true) == next
    {
      scaled := memory.scaled;
      if key !in objects || !weather.get(key) {
        return false, scaled;
      }
      match key.kind {
        case Deployment | StatefulSet =>
          if objects[key].ReplicaSpec? && objects[key].replicas.Some? && objects[key].replicas.value > 0 {
            if !weather.update(key) {
              return false, scaled;
            }
            scaled := scaled + [ScaledWorkload(key, objects[key].replicas, None, now)];
            objects, downs := objects[key := ReplicaSpec(Some(0))], downs + [key];
          }
        case CronJob =>
          if objects[key].JobSuspend? && (objects[key].suspend.None? || !objects[key].suspend.value) {
            if !weather.update(key) {
              return false, scaled;
            }
            scaled := scaled + [ScaledWorkload(key, None, Some(objects[key].suspend.GetOr(false)), now)];
            objects, downs := objects[key := JobSuspend(Some(true))], downs + [key];
          }
        case _ =>
      }
      return true, scaled;
    }

    /** Scales down what has been idle long enough, persisting the status after each scale-down. */
    method ScaleDownIdleWorkloads(memory0: Status, now: int, idleDuration: int, weather: Weather)
      returns (ok: bool, memory: Status)
      modifies `objects, `status, `downs
      ensures Progress(memory, ok)
           == ScaleAll(old(Progress(memory0, true)), memory0.idle, now, idleDuration, weather)
    {
      ok, memory := true, memory0;
      for i := 0 to |memory0.idle|
        invariant memory.idle == memory0.idle
        invariant ScaleAll(old(Progress(memory0, true)), memory0.idle, now, idleDuration, weather)
               == ScaleAll(Progress(memory, true), memory0.idle[i..], now, idleDuration, weather)
      {
        var w := memory0.idle[i];
        assert memory0.idle[i..][0] == w && memory0.idle[i..][1..] == memory0.idle[i + 1..];
        if now - w.since < idleDuration {
          continue;
        }
        if exists j :: 0 <= j < |memory.scaled| && memory.scaled[j].key == w.key {
          continue;
        }
        var done, scaled := ScaleDownWorkload(memory, w.key, now, weather);
        if !done {
          continue;
        }
        memory := memory.(scaled := scaled);
        if !weather.status(w.key) {
          ScaleAllAfterFailure(Progress(memory, false), memory0.idle[i + 1..], now, idleDuration, weather);
          return false, memory;
        }
        status := memory;
      }
      assert memory0.idle[|memory0.idle|..] == [];
    }

    /** One reconcile of a live detector in scale mode. */
    method Reconcile(idleDuration: int, env: Env) returns (ok: bool, ghost memory: Status)
      requires forall kind :: env.check.list(kind).Some? ==>
                 forall name :: name in env.check.list(kind).value ==> Key(kind, name) in objects
      modifies `objects, `status, `downs
      ensures
        var s := CheckOnce(old(status), old(objects), idleDuration, env);
        objects == s.objects && status == s.saved && downs == s.downs && ok == (s.ok && env.finalStatus)
    {
      downs := [];
      var detected, idle := DetectIdleWorkloads(env.check);
      if !detected {
        return false, status;
      }
      var scaled, mem := ScaleDownIdleWorkloads(Status(idle, status.scaled), env.scaleTime, idleDuration, env.weather);
      if env.finalStatus {
        status := mem;
      }
      return scaled && env.finalStatus, mem;
    }

    /** Writes every recorded original back; the records whose restore failed are kept, in order. */
    method RestoreScaledWorkloads(weather: Weather) returns (failed: bool, remaining: seq<ScaledWorkload>)
      modifies `objects
      ensures Restoring(objects, remaining, failed)
           == RestoreAll(Restoring(old(objects), [], false), status.scaled, weather)
    {
      failed, remaining := false, [];
      for i := 0 to |status.scaled|
        invariant RestoreAll(Restoring(old(objects), [], false), status.scaled, weather)
               == RestoreAll(Restoring(objects, remaining, failed), status.scaled[i..], weather)
      {
        var r := status.scaled[i];
        assert status.scaled[i..][0] == r && status.scaled[i..][1..] == status.scaled[i + 1..];
        var restored := false;
        match r.key.kind {
          case Deployment | StatefulSet =>
            if r.key !in objects || !weather.get(r.key) {
              failed, remaining := true, remaining + [r];
              continue;
            }
            if r.replicas.Some? {
              if !weather.update(r.key) {
                failed, remaining := true, remaining + [r];
                continue;
              }
              objects := objects[r.key := ReplicaSpec(r.replicas)];
            }
            restored := true;
          case CronJob =>
            if r.key !in objects || !weather.get(r.key) {
              failed, remaining := true, remaining + [r];
              continue;
            }
            if r.suspend.Some? {
              if !weather.update(r.key) {
                failed, remaining := true, remaining + [r];
                continue;
              }
              objects := objects[r.key := JobSuspend(r.suspend)];
            }
            restored := true;
          case _ =>
        }
        if !restored {
          remaining := remaining + [r];
        }
      }
      assert status.scaled[|status.scaled|..] == [];
    }

    /** Restores the pods of every resized workload; those that failed are kept, in order. */
    method RestoreResizedWorkloads(restored: Key -> bool) returns (failed: bool, remaining: seq<Resized>)
      modifies `unresized
      ensures remaining == StillResized(resized, restored) && (failed <==> remaining != [])
      ensures unresized == old(unresized) + NewlyRestored(resized, restored)
    {
      failed, remaining := false, [];
      for i := 0 to |resized|
        invariant remaining == StillResized(resized[..i], restored) && (failed <==> remaining != [])
        invariant unresized == old(unresized) + NewlyRestored(resized[..i], restored)
      {
        assert resized[..i + 1][..i] == resized[..i];
        NewlyRestoredOneMore(resized, i, restored);
        if !restored(resized[i].key) {
          failed, remaining := true, remaining + [resized[i]];
          continue;
        }
        unresized := unresized + {resized[i].key};
      }
      assert resized[..|resized|] == resized;
    }

    /** The deletion branch: restore, persist progress on failure, drop the finalizer only if nothing failed. */
    method ReconcileDeletion(a: Attempt)
      modifies this
      ensures Deleting() == DeleteAttempt(old(Deleting()), a)
    {
      if !finalizer {
        return;
      }
      var failed, remaining := RestoreScaledWorkloads(a.weather);
      if failed {
        if a.progressSaved {
          status := status.(scaled := remaining);
        }
        return;
      }
      var resizeFailed, left := RestoreResizedWorkloads(a.restored);
      if resizeFailed {
        if a.progressSaved {
          status, resized := status.(scaled := remaining), left;
        }
        return;
      }
      if a.finalizerRemoved {
        finalizer := false;
      }
    }
  }

  lemma NewlyRestoredOneMore(resized: seq<Resized>, i: nat, restored: Key -> bool)
    requires i < |resized|
    ensures NewlyRestored(resized[..i + 1], restored)
         == NewlyRestored(resized[..i], restored) + if restored(resized[i].key) then {resized[i].key} else {}
  {
    var more, before := resized[..i + 1], resized[..i];
    forall k
      ensures k in NewlyRestored(more, restored) <==>
        k in NewlyRestored(before, restored) || (restored(resized[i].key) && k == resized[i].key)
    {
      if k in NewlyRestored(before, restored) {
        var j :| 0 <= j < |before| && restored(before[j].key) && before[j].key == k;
        assert more[j] == before[j];
      }
      assert more[i] == resized[i];
    }
  }

  lemma {:induction false} ScaleAllAfterFailure(
    s: Scaling, idle: seq<IdleWorkload>, now: int, idleDuration: int, weather: Weather)
    requires !s.ok
    ensures ScaleAll(s, idle, now, idleDuration, weather) == s
    decreases |idle|
  {
    if idle == [] {
    } else {
      ScaleAllAfterFailure(s, idle[1..], now, idleDuration, weather);
    }
  }
}
