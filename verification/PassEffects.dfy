/**
 What one sleep pass achieves, from any state of the namespace and of the records: which workloads it puts to sleep,
 which it leaves alone, and what follows for selected workloads that are awake while a record of them is kept.
 */
module PassEffects {
  import opened Common
  import opened Workloads
  import opened SleepPasses

  /** A pass over this world has the workload to put to sleep. */
  ghost predicate ToSleep(sel: Selector, w: World, k: Key) {
    k in w.objects && Selected(sel, k) && !Recorded(w.records, k) && Awake(w.objects[k])
  }

  /** From w to after, only visited workloads without a record went to sleep, and nothing else changed. */
  ghost predicate OnlySleeps(items: seq<Item>, w: World, after: World) {
    && after.objects.Keys == w.objects.Keys
    && (forall k :: k in w.objects && after.objects[k] != w.objects[k] ==>
          && Visit(k) in items && !Recorded(w.records, k) && Awake(w.objects[k])
          && after.objects[k] == PutToSleep(w.objects[k]))
    && (forall k :: Recorded(w.records, k) ==> Recorded(after.records, k))
    && (forall k :: Recorded(after.records, k) && !Recorded(w.records, k) ==>
          Visit(k) in items && k in w.objects && Awake(w.objects[k]))
  }

  /** Every visited workload that was awake and without a record has one now and sleeps. */
  ghost predicate SleepsAll(items: seq<Item>, w: World, after: World) {
    forall k :: Visit(k) in items && k in w.objects && !Recorded(w.records, k) && Awake(w.objects[k]) ==>
      k in after.objects && after.objects[k] == PutToSleep(w.objects[k]) && Recorded(after.records, k)
  }

  lemma SleepOneEffect(run: Run, key: Key, weather: Weather)
    ensures
      var after := SleepOne(run, key, weather);
      && OnlySleeps([Visit(key)], run.world, after.world)
      && (after.ok ==> run.ok && SleepsAll([Visit(key)], run.world, after.world))
  {
    var w, after := run.world, SleepOne(run, key, weather).world;
    assert [Visit(key)][0] == Visit(key);
    if key in w.objects {
      forall k
        ensures Recorded(w.records + [RecordOf(key, w.objects[key])], k) <==> Recorded(w.records, k) || k == key
      {
        RecordedAfterAppend(w.records, RecordOf(key, w.objects[key]), k);
      }
    }
  }

  lemma EffectsCompose(a: seq<Item>, b: seq<Item>, w0: World, w1: World, w2: World)
    requires OnlySleeps(a, w0, w1) && OnlySleeps(b, w1, w2)
    ensures OnlySleeps(a + b, w0, w2)
    ensures SleepsAll(a, w0, w1) && SleepsAll(b, w1, w2) ==> SleepsAll(a + b, w0, w2)
  {
    forall k | k in w0.objects && w2.objects[k] != w0.objects[k]
      ensures Visit(k) in a + b && !Recorded(w0.records, k) && Awake(w0.objects[k])
      ensures w2.objects[k] == PutToSleep(w0.objects[k])
    {
      if w1.objects[k] != w0.objects[k] {
        SleepTakesEffect(w0.objects[k]);
      }
    }
    if SleepsAll(a, w0, w1) && SleepsAll(b, w1, w2) {
      forall k | Visit(k) in a + b && k in w0.objects && !Recorded(w0.records, k) && Awake(w0.objects[k])
        ensures w2.objects[k] == PutToSleep(w0.objects[k]) && Recorded(w2.records, k)
      {
        SleepTakesEffect(w0.objects[k]);
      }
    }
  }

  lemma {:induction false} SleepItemsEffect(run: Run, items: seq<Item>, weather: Weather)
    ensures
      var after := SleepItems(run, items, weather);
      && OnlySleeps(items, run.world, after.world)
      && (after.ok ==> run.ok && Abort !in items && SleepsAll(items, run.world, after.world))
    decreases |items|
  {
    if items == [] {
    } else {
      var next := SleepItem(run, items[0], weather);
      var after := SleepItems(run, items, weather);
      SleepItemsEffect(next, items[1..], weather);
      assert items == [items[0]] + items[1..];
      if items[0].Visit? {
        SleepOneEffect(run, items[0].key, weather);
      }
      assert items[0].Abort? ==> !next.ok;
      EffectsCompose([items[0]], items[1..], run.world, next.world, after.world);
    }
  }

  /** Only selected workloads are visited. */
  lemma {:induction false} WorklistSelected(
    sel: Selector, objects: map<Key, Body>, kinds: seq<Kind>, weather: Weather, k: Key)
    requires Faithful(sel, objects, weather) && Visit(k) in Worklist(sel, kinds, weather)
    ensures k in objects && Selected(sel, k) && k.kind in kinds
    decreases |kinds|
  {
    if Visit(k) in KindItems(sel, kinds[0], weather) {
      match weather.list(kinds[0])
      case Listed(names) =>
        var i :| 0 <= i < |names| && VisitAll(kinds[0], names)[i] == Visit(k);
        assert names[i] in names;
      case _ =>
    } else {
      WorklistSelected(sel, objects, kinds[1..], weather, k);
    }
  }

  lemma EveryKindIsHandled(kind: Kind)
    ensures kind in SLEEP_ORDER
  {
    KindsSplit(kind);
  }

  /** What a pass does to each workload, whatever was recorded before: it puts nothing to sleep but selected workloads
      that are awake and without a record, and, if it runs to its end, all of these. */
  lemma SleepPassExactly(sel: Selector, run: Run, weather: Weather, k: Key)
    requires Faithful(sel, run.world.objects, weather) && k in run.world.objects
    ensures
      var w, after := run.world, SleepPass(sel, run, weather);
      && k in after.world.objects
      && (after.world.objects[k] != w.objects[k] ==>
            ToSleep(sel, w, k) && after.world.objects[k] == PutToSleep(w.objects[k]))
      && (after.ok ==>
            && (ToSleep(sel, w, k) ==> after.world.objects[k] == PutToSleep(w.objects[k]))
            && (Recorded(after.world.records, k) <==> Recorded(w.records, k) || ToSleep(sel, w, k)))
  {
    var w, items := run.world, Worklist(sel, SLEEP_ORDER, weather);
    SleepItemsEffect(run.(ok := true), items, weather);
    if Visit(k) in items {
      WorklistSelected(sel, w.objects, SLEEP_ORDER, weather, k);
    }
    if Selected(sel, k) {
      EveryKindIsHandled(k.kind);
      WorklistComplete(sel, w.objects, SLEEP_ORDER, weather, k);
    }
  }

  /** After a completed pass a selected workload is awake exactly if it was, and a record of it was already kept. */
  lemma AwakeAfterPass(sel: Selector, run: Run, weather: Weather, k: Key)
    requires Faithful(sel, run.world.objects, weather) && k in run.world.objects && Selected(sel, k)
    requires SleepPass(sel, run, weather).ok
    ensures
      var after := SleepPass(sel, run, weather).world;
      && k in after.objects
      && (Awake(after.objects[k]) <==> Recorded(run.world.records, k) && Awake(run.world.objects[k]))
  {
    SleepPassExactly(sel, run, weather, k);
    if ToSleep(sel, run.world, k) {
      SleepTakesEffect(run.world.objects[k]);
    }
  }

  ghost predicate SelectedAsleep(sel: Selector, w: World) {
    forall k :: k in w.objects && Selected(sel, k) ==> !Awake(w.objects[k])
  }

  /** Everything selected is asleep after a completed pass exactly if no kept record was of an awake workload. */
  lemma AllAsleepExactly(sel: Selector, run: Run, weather: Weather)
    requires Faithful(sel, run.world.objects, weather) && SleepPass(sel, run, weather).ok
    ensures SelectedAsleep(sel, SleepPass(sel, run, weather).world) <==>
      forall k :: k in run.world.objects && Selected(sel, k) && Recorded(run.world.records, k) ==>
        !Awake(run.world.objects[k])
  {
    var w, after := run.world, SleepPass(sel, run, weather).world;
    SleepItemsEffect(run.(ok := true), Worklist(sel, SLEEP_ORDER, weather), weather);
    assert after.objects.Keys == w.objects.Keys;
    forall k | k in w.objects && Selected(sel, k)
      ensures Awake(after.objects[k]) <==> Recorded(w.records, k) && Awake(w.objects[k])
    {
      AwakeAfterPass(sel, run, weather, k);
    }
  }

  // ---------- a calm pass ----------

  ghost function SeqOf(names: set<string>): (s: seq<string>)
    ensures forall x :: x in s <==> x in names
    decreases names
  {
    if names == {} then []
    else
      var x :| x in names;
      [x] + SeqOf(names - {x})
  }

  /** The names List returns for a kind. */
  ghost function NamesToList(sel: Selector, objects: map<Key, Body>, kind: Kind): set<string> {
    set k | k in objects && k.kind == kind && sel.matchesLabels(k) :: k.name
  }

  /** The environment in which every call succeeds. */
  ghost function Calm(sel: Selector, objects: map<Key, Body>): Weather {
    Weather(kind => Listed(SeqOf(NamesToList(sel, objects, kind))), _ => true, _ => true, _ => true)
  }

  lemma CalmIsFaithful(sel: Selector, objects: map<Key, Body>)
    ensures Faithful(sel, objects, Calm(sel, objects))
  {
    forall kind, name
      ensures name in NamesToList(sel, objects, kind) <==>
        Key(kind, name) in objects && sel.matchesLabels(Key(kind, name))
    {
    }
  }

  lemma {:induction false} NoListFails(sel: Selector, kinds: seq<Kind>, weather: Weather)
    requires forall kind :: weather.list(kind).Listed?
    ensures Abort !in Worklist(sel, kinds, weather)
    decreases |kinds|
  {
    if kinds == [] {
    } else {
      NoListFails(sel, kinds[1..], weather);
    }
  }

  lemma {:induction false} SleepItemsSucceed(run: Run, items: seq<Item>, weather: Weather)
    requires run.ok && Abort !in items && forall k :: weather.update(k) && weather.status(k)
    ensures SleepItems(run, items, weather).ok
    decreases |items|
  {
    if items == [] {
    } else {
      assert items[0] in items;
      SleepItemsSucceed(SleepItem(run, items[0], weather), items[1..], weather);
    }
  }

  lemma CalmPassSucceeds(sel: Selector, run: Run)
    ensures SleepPass(sel, run, Calm(sel, run.world.objects)).ok
  {
    var calm := Calm(sel, run.world.objects);
    NoListFails(sel, SLEEP_ORDER, calm);
    SleepItemsSucceed(run.(ok := true), Worklist(sel, SLEEP_ORDER, calm), calm);
  }

  function Fresh(w: World): Run {
    Run(w, true, [])
  }

  /** A calm pass puts to sleep whatever there is to put to sleep. */
  lemma CalmPassSleeps(sel: Selector, w: World, k: Key)
    requires ToSleep(sel, w, k)
    ensures
      var calm := Calm(sel, w.objects);
      var after := SleepPass(sel, Fresh(w), calm);
      && Faithful(sel, w.objects, calm) && after.ok
      && k in after.world.objects && after.world.objects[k] == PutToSleep(w.objects[k]) != w.objects[k]
  {
    CalmIsFaithful(sel, w.objects);
    CalmPassSucceeds(sel, Fresh(w));
    SleepPassExactly(sel, Fresh(w), Calm(sel, w.objects), k);
    SleepTakesEffect(w.objects[k]);
  }

  // ---------- names ----------

  /** The pass touches no workload whose name does not match. */
  ghost predicate RespectsNames(sel: Selector, w: World, weather: Weather) {
    forall k :: k in w.objects && !sel.matchesNames(k.name) ==>
      k in SleepPass(sel, Fresh(w), weather).world.objects
      && SleepPass(sel, Fresh(w), weather).world.objects[k] == w.objects[k]
  }

  /** Names are not looked at: passes leave the workloads alone that the selector's names do not match exactly if
      there is none among those that types and labels select, awake and without a record. */
  lemma NamesRespectedExactly(sel: Selector, w: World)
    ensures (forall k :: ToSleep(sel, w, k) ==> sel.matchesNames(k.name)) <==>
      forall weather :: Faithful(sel, w.objects, weather) ==> RespectsNames(sel, w, weather)
  {
    if forall k :: ToSleep(sel, w, k) ==> sel.matchesNames(k.name) {
      forall weather, k | Faithful(sel, w.objects, weather) && k in w.objects && !sel.matchesNames(k.name)
        ensures k in SleepPass(sel, Fresh(w), weather).world.objects
        ensures SleepPass(sel, Fresh(w), weather).world.objects[k] == w.objects[k]
      {
        SleepPassExactly(sel, Fresh(w), weather, k);
      }
    } else {
      var k :| ToSleep(sel, w, k) && !sel.matchesNames(k.name);
      CalmPassSleeps(sel, w, k);
      assert !RespectsNames(sel, w, Calm(sel, w.objects));
    }
  }

  /** A schedule for "api" only puts "web" to sleep. */
  lemma NameIsIgnored(sel: Selector, w: World)
    requires sel.types == [] && forall k :: sel.matchesLabels(k)
    requires forall name :: sel.matchesNames(name) <==> name == "api"
    requires w == World(map[Key(Deployment, "web") := ReplicaSpec(Some(3))], [], 0)
    ensures
      var calm := Calm(sel, w.objects);
      && Faithful(sel, w.objects, calm)
      && Key(Deployment, "web") in SleepPass(sel, Fresh(w), calm).world.objects
      && SleepPass(sel, Fresh(w), calm).world.objects[Key(Deployment, "web")] == ReplicaSpec(Some(0))
  {
    assert ToSleep(sel, w, Key(Deployment, "web"));
    CalmPassSleeps(sel, w, Key(Deployment, "web"));
  }

  // ---------- which Lists end a pass ----------

  /** The List of a kind ends a pass: it fails, or the kind is managed, built in and yet unknown to the API server. */
  ghost predicate EndsPass(sel: Selector, kind: Kind, weather: Weather) {
    && ShouldManageType(sel, kind)
    && (|| weather.list(kind) == ListFailed
        || (weather.list(kind) == NoMatch && kind in {Deployment, StatefulSet, CronJob}))
  }

  /** A pass can be ended by its Lists exactly if one of a managed kind fails or a built-in kind is missing; custom
      kinds that are not installed are skipped. */
  lemma {:induction false} AbortExactly(sel: Selector, kinds: seq<Kind>, weather: Weather)
    ensures Abort in Worklist(sel, kinds, weather) <==>
      exists i :: 0 <= i < |kinds| && EndsPass(sel, kinds[i], weather)
    decreases |kinds|
  {
    if kinds == [] {
    } else {
      AbortExactly(sel, kinds[1..], weather);
      if EndsPass(sel, kinds[0], weather) {
        assert KindItems(sel, kinds[0], weather)[0] == Abort;
      }
      forall i | 0 <= i < |kinds[1..]| && EndsPass(sel, kinds[1..][i], weather)
        ensures EndsPass(sel, kinds[i + 1], weather)
      {
      }
      if exists i :: 0 <= i < |kinds| && EndsPass(sel, kinds[i], weather) {
        var i :| 0 <= i < |kinds| && EndsPass(sel, kinds[i], weather);
        assert i > 0 ==> EndsPass(sel, kinds[1..][i - 1], weather);
      }
    }
  }

  /** The kinds a pass handles, by name and in order: the suspend-based ones of the operators first. */
  lemma KindsInOrder()
    ensures |SLEEP_ORDER| == 13
    ensures
      forall i :: 0 <= i < 13 ==>
        KindName(SLEEP_ORDER[i]) ==
        ["HelmRelease", "Kustomization", "MariaDB", "MaxScale", "Deployment", "StatefulSet", "CronJob", "Cluster",
         "ThanosRuler", "Alertmanager", "Prometheus", "Kibana", "Elasticsearch"][i]
  {
  }

  /** The kinds as a selector's types name them: no types select every kind, and a name selects one. */
  lemma TypesSelect(sel: Selector, kind: Kind)
    ensures sel.types == [] ==> ShouldManageType(sel, kind)
    ensures sel.types == ["Deployment", "HelmRelease"] ==>
      (ShouldManageType(sel, kind) <==> kind == Deployment || kind == HelmRelease)
  {
    assert sel.types == ["Deployment", "HelmRelease"] ==> sel.types[0] == "Deployment" && sel.types[1] == "HelmRelease";
  }
}
