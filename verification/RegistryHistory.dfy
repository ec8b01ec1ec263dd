/**
 What the registries make of a history of calls (internal/codeserver/registry.go,
 internal/webterm/webterm.go): which objects live, which are registered, and when a new one is launched.
 */
module RegistryHistory {
  import opened Prelude
  import opened KeyedRegistry

  predicate IsLive(w: World, id: Id) {
    id in w.objects && w.objects[id].live
  }

  predicate Files(w: World, k: Key, id: Id) {
    k in w.table && w.table[k] == id
  }

  // The object expires, or it is the next that some Stop, Close or Shutdown has to close.
  predicate EndsLife(w: World, a: Action, id: Id) {
    match a
    case Expires(x) => x == id
    case TakerCloses(t) => t in w.takers && w.takers[t] != [] && w.takers[t][0] == id
    case _ => false
  }

  // What was registered under the key is no longer.
  predicate Unfiles(w: World, a: Action, k: Key) {
    match a
    case StopTakes(_, key) => key == k
    case ShutdownTakes(_, _) => true
    case StartSpawns(_) => w.spawning == Some(k)
    case _ => false
  }

  // One step launches at most the object it names, ends at most the life it is meant to end, and
  // leaves every other object with its key and its life.
  lemma StepLife(w: World, a: Action, id: Id)
    requires Step(w, a).Some?
    ensures var v := Step(w, a).value;
      && (IsLive(v, id) <==> a == StartSpawns(id) || (IsLive(w, id) && !EndsLife(w, a, id)))
      && (id in v.objects <==> a == StartSpawns(id) || id in w.objects)
      && (id in w.objects ==> a != StartSpawns(id) && v.objects[id].key == w.objects[id].key)
      && (a == StartSpawns(id) ==> w.spawning == Some(v.objects[id].key))
  {
  }

  lemma StepFiles(w: World, a: Action, k: Key, id: Id)
    requires Step(w, a).Some?
    ensures Files(Step(w, a).value, k, id)
       <==> (a == StartSpawns(id) && w.spawning == Some(k)) || (Files(w, k, id) && !Unfiles(w, a, k))
  {
  }

  // A live object lives on until it expires or its turn to be closed comes, and for no other reason
  // does it end.
  lemma {:induction false} LivesUntilEnded(worlds: seq<World>, actions: seq<Action>, i: nat, j: nat, id: Id)
    requires IsRun(worlds, actions) && i <= j < |worlds| && IsLive(worlds[i], id)
    ensures id in worlds[j].objects && worlds[j].objects[id].key == worlds[i].objects[id].key
    ensures IsLive(worlds[j], id) <==> forall k :: i <= k < j ==> !EndsLife(worlds[k], actions[k], id)
    decreases j - i
  {
    if i < j {
      LivesUntilEnded(worlds, actions, i, j - 1, id);
      assert Step(worlds[j - 1], actions[j - 1]) == Some(worlds[j]);
      StepLife(worlds[j - 1], actions[j - 1], id);
    }
  }

  ghost predicate LaunchedAt(worlds: seq<World>, actions: seq<Action>, j: nat, s: int, id: Id)
    requires j <= |actions| <= |worlds|
  {
    0 <= s < j && actions[s] == StartSpawns(id) && forall k :: s < k < j ==> !EndsLife(worlds[k], actions[k], id)
  }

  // What lives has been launched and not ended since.
  lemma {:induction false} LiveIffLaunched(worlds: seq<World>, actions: seq<Action>, j: nat, id: Id)
    requires IsRun(worlds, actions) && j < |worlds|
    ensures IsLive(worlds[j], id) <==> exists s :: LaunchedAt(worlds, actions, j, s, id)
  {
    if j > 0 {
      var n := j - 1;
      LiveIffLaunched(worlds, actions, n, id);
      assert Step(worlds[n], actions[n]) == Some(worlds[j]);
      StepLife(worlds[n], actions[n], id);
      if s :| LaunchedAt(worlds, actions, n, s, id) && !EndsLife(worlds[n], actions[n], id) {
        assert LaunchedAt(worlds, actions, j, s, id);
      }
      if actions[n] == StartSpawns(id) {
        assert LaunchedAt(worlds, actions, j, n, id);
      }
      if s :| LaunchedAt(worlds, actions, j, s, id) && s < n {
        assert LaunchedAt(worlds, actions, n, s, id);
      }
    }
  }

  ghost predicate FiledAt(worlds: seq<World>, actions: seq<Action>, j: nat, s: int, k: Key, id: Id)
    requires j <= |actions| <= |worlds|
  {
    && 0 <= s < j && actions[s] == StartSpawns(id) && worlds[s].spawning == Some(k)
    && forall l :: s < l < j ==> !Unfiles(worlds[l], actions[l], k)
  }

  // What is registered under a key has been launched for it, and nothing has been taken out of
  // there or launched for it since.
  lemma {:induction false} RegisteredIffFiled(worlds: seq<World>, actions: seq<Action>, j: nat, k: Key, id: Id)
    requires IsRun(worlds, actions) && j < |worlds|
    ensures Files(worlds[j], k, id) <==> exists s :: FiledAt(worlds, actions, j, s, k, id)
  {
    if j > 0 {
      var n := j - 1;
      RegisteredIffFiled(worlds, actions, n, k, id);
      assert Step(worlds[n], actions[n]) == Some(worlds[j]);
      StepFiles(worlds[n], actions[n], k, id);
      if s :| FiledAt(worlds, actions, n, s, k, id) && !Unfiles(worlds[n], actions[n], k) {
        assert FiledAt(worlds, actions, j, s, k, id);
      }
      if actions[n] == StartSpawns(id) && worlds[n].spawning == Some(k) {
        assert FiledAt(worlds, actions, j, n, k, id);
      }
      if s :| FiledAt(worlds, actions, j, s, k, id) && s < n {
        assert FiledAt(worlds, actions, n, s, k, id);
      }
    }
  }

  // An object launched for the key at s is still registered and alive at j.
  ghost predicate Serves(worlds: seq<World>, actions: seq<Action>, j: nat, s: int, k: Key)
    requires j <= |actions| <= |worlds|
  {
    && 0 <= s < j && actions[s].StartSpawns?
    && FiledAt(worlds, actions, j, s, k, actions[s].id) && LaunchedAt(worlds, actions, j, s, actions[s].id)
  }

  // Start launches a new object if and only if none that was launched for the key is still registered
  // and alive; otherwise it changes nothing.
  lemma StartLaunchesIff(worlds: seq<World>, actions: seq<Action>, i: nat, k: Key)
    requires IsRun(worlds, actions) && i < |actions| && actions[i] == StartLooks(k)
    ensures worlds[i].spawning.None?
    ensures if exists s :: Serves(worlds, actions, i, s, k) then worlds[i + 1] == worlds[i]
            else worlds[i + 1] == worlds[i].(spawning := Some(k))
  {
    assert Step(worlds[i], actions[i]) == Some(worlds[i + 1]);
    if s :| Serves(worlds, actions, i, s, k) {
      RegisteredIffFiled(worlds, actions, i, k, actions[s].id);
      LiveIffLaunched(worlds, actions, i, actions[s].id);
      assert LiveAt(worlds[i], k);
    }
    if k in worlds[i].table {
      var id := worlds[i].table[k];
      RegisteredIffFiled(worlds, actions, i, k, id);
      LiveIffLaunched(worlds, actions, i, id);
      if LiveAt(worlds[i], k) {
        assert IsLive(worlds[i], id);
        var s :| FiledAt(worlds, actions, i, s, k, id);
        var l :| LaunchedAt(worlds, actions, i, l, id);
        SpawnedOnce(worlds, actions, s, l, id);
        assert Serves(worlds, actions, i, s, k);
      }
    }
  }

  // No two launches give the same object.
  lemma SpawnedOnce(worlds: seq<World>, actions: seq<Action>, s: nat, l: nat, id: Id)
    requires IsRun(worlds, actions) && s < |actions| && l < |actions|
    requires actions[s] == StartSpawns(id) && actions[l] == StartSpawns(id)
    ensures s == l
  {
    if s < l {
      StaysKnown(worlds, actions, s, l, id);
    } else if l < s {
      StaysKnown(worlds, actions, l, s, id);
    }
  }

  lemma {:induction false} StaysKnown(worlds: seq<World>, actions: seq<Action>, s: nat, l: nat, id: Id)
    requires IsRun(worlds, actions) && s < l < |worlds| && actions[s] == StartSpawns(id)
    ensures id in worlds[l].objects
    ensures l < |actions| ==> actions[l] != StartSpawns(id)
    decreases l
  {
    assert Step(worlds[l - 1], actions[l - 1]) == Some(worlds[l]);
    StepLife(worlds[l - 1], actions[l - 1], id);
    if s < l - 1 {
      StaysKnown(worlds, actions, s, l - 1, id);
    }
    if l < |actions| {
      assert Step(worlds[l], actions[l]) == Some(worlds[l + 1]);
      StepLife(worlds[l], actions[l], id);
    }
  }

  // A step has taken the object out from under the key.
  ghost predicate TakenOut(w: World, v: World, k: Key, id: Id) {
    Files(w, k, id) && !Files(v, k, id)
  }

  ghost predicate HoldsWhatLeft(w: World, v: World, t: nat) {
    t in v.takers && forall id :: id in v.takers[t] <==> exists k :: TakenOut(w, v, k, id)
  }

  // Stop and Close take exactly what is registered under the key, Shutdown each registered object
  // once, and nothing else is in their hands.
  lemma TakersHoldWhatWasFiled(worlds: seq<World>, actions: seq<Action>, i: nat, t: nat)
    requires IsRun(worlds, actions) && i < |actions|
    requires (actions[i].StopTakes? && actions[i].taker == t) || (actions[i].ShutdownTakes? && actions[i].taker == t)
    ensures t !in worlds[i].takers && t in worlds[i + 1].takers && NoDuplicates(worlds[i + 1].takers[t])
    ensures HoldsWhatLeft(worlds[i], worlds[i + 1], t)
  {
    assert Step(worlds[i], actions[i]) == Some(worlds[i + 1]);
    var w, v := worlds[i], worlds[i + 1];
    forall id | id in v.takers[t] ensures exists k :: TakenOut(w, v, k, id) {
      if actions[i].StopTakes? {
        assert TakenOut(w, v, actions[i].key, id);
      } else {
        var p :| 0 <= p < |v.takers[t]| && v.takers[t][p] == id;
        var k :| k in w.table && w.table[k] == id;
        assert TakenOut(w, v, k, id);
      }
    }
    forall k, id | TakenOut(w, v, k, id) ensures id in v.takers[t] {
      assert w.table[k] == id;
    }
  }
}
