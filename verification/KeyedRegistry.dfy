/**
 The registries that own one live object per key: code-server instances (internal/codeserver/registry.go)
 and warm terminals (internal/webterm/webterm.go). An object is live while an instance is starting or
 running, respectively while a terminal is not closed.
 */
module KeyedRegistry {
  import opened Prelude
  import Runs

  datatype Key = Key(origin: string, id: string)

  // Instances and terminals are known by number.
  type Id = nat

  datatype Obj = Obj(key: Key, live: bool)

  // A Start or Attach that found no live object keeps the registry lock while it spawns one.
  // Each Stop, Close or Shutdown in progress holds the objects it has taken out but not yet closed.
  datatype World = World(
    table: map<Key, Id>,
    objects: map<Id, Obj>,
    spawning: Option<Key>,
    takers: map<nat, seq<Id>>)

  datatype Action =
    | StartLooks(key: Key)
    | StartSpawns(id: Id)
    | StartFails
    | StopTakes(taker: nat, key: Key)
    | ShutdownTakes(taker: nat, order: seq<Id>)
    | TakerCloses(taker: nat)
    | Expires(id: Id)

  const EMPTY := World(map[], map[], None, map[])

  predicate LiveAt(w: World, k: Key) {
    k in w.table && w.table[k] in w.objects && w.objects[w.table[k]].live
  }

  // s lists each registered object once, in any order.
  predicate Lists(s: seq<Id>, table: map<Key, Id>) {
    && NoDuplicates(s)
    && (forall i :: 0 <= i < |s| ==> s[i] in table.Values)
    && (forall k :: k in table ==> table[k] in s)
  }

  function Kill(objects: map<Id, Obj>, id: Id): map<Id, Obj> {
    if id in objects then objects[id := objects[id].(live := false)] else objects
  }

  // One critical section of the registry lock, or one object-level event; None when it is not possible.
  function Step(w: World, a: Action): Option<World> {
    match a
    case StartLooks(k) =>
      if w.spawning.Some? then None
      else if LiveAt(w, k) then Some(w)
      else Some(w.(spawning := Some(k)))
    case StartSpawns(id) =>
      if w.spawning.None? || id in w.objects then None
      else Some(w.(spawning := None,
                   objects := w.objects[id := Obj(w.spawning.value, true)],
                   table := w.table[w.spawning.value := id]))
    case StartFails =>
      if w.spawning.None? then None else Some(w.(spawning := None))
    case StopTakes(t, k) =>
      if w.spawning.Some? || t in w.takers then None
      else Some(w.(table := w.table - {k},
                   takers := w.takers[t := if k in w.table then [w.table[k]] else []]))
    case ShutdownTakes(t, order) =>
      if w.spawning.Some? || t in w.takers || !Lists(order, w.table) then None
      else Some(w.(table := map[], takers := w.takers[t := order]))
    case TakerCloses(t) =>
      if t !in w.takers || w.takers[t] == [] then None
      else Some(w.(objects := Kill(w.objects, w.takers[t][0]), takers := w.takers[t := w.takers[t][1..]]))
    case Expires(id) =>
      if id !in w.objects then None else Some(w.(objects := Kill(w.objects, id)))
  }

  ghost predicate Holds(w: World, t: nat, i: nat, id: Id) {
    t in w.takers && i < |w.takers[t]| && w.takers[t][i] == id
  }

  ghost predicate Held(w: World, id: Id) {
    exists t, i :: Holds(w, t, i, id)
  }

  ghost predicate Registered(w: World, id: Id) {
    id in w.objects && w.objects[id].key in w.table && w.table[w.objects[id].key] == id
  }

  // Every table entry names an object of that very key.
  ghost predicate TableInv(w: World) {
    && (forall k :: k in w.table ==> w.table[k] in w.objects && w.objects[w.table[k]].key == k)
    && (w.spawning.Some? ==> !LiveAt(w, w.spawning.value))
  }

  // What is held was an object, is no longer registered, and is held once.
  ghost predicate HeldInv(w: World) {
    && (forall t, i, id :: Holds(w, t, i, id) ==> id in w.objects && !Registered(w, id))
    && (forall t, i, u, j, id :: Holds(w, t, i, id) && Holds(w, u, j, id) ==> t == u && i == j)
  }

  ghost predicate NoOrphan(w: World) {
    forall id :: id in w.objects && w.objects[id].live ==> Registered(w, id) || Held(w, id)
  }

  ghost predicate Inv(w: World) {
    TableInv(w) && HeldInv(w) && NoOrphan(w)
  }

  lemma StartKeepsInv(w: World, a: Action)
    requires Inv(w) && Step(w, a).Some?
    requires a.StartLooks? || a.StartSpawns? || a.StartFails?
    ensures Inv(Step(w, a).value)
  {
    var v := Step(w, a).value;
    assert forall t, i, id :: Holds(v, t, i, id) <==> Holds(w, t, i, id);
    assert forall id :: Held(w, id) ==> Held(v, id);
  }

  lemma StopKeepsInv(w: World, t: nat, k: Key)
    requires Inv(w) && Step(w, StopTakes(t, k)).Some?
    ensures Inv(Step(w, StopTakes(t, k)).value)
  {
    var v := Step(w, StopTakes(t, k)).value;
    assert forall u, i, id :: u != t ==> (Holds(v, u, i, id) <==> Holds(w, u, i, id));
    assert forall i, id :: Holds(v, t, i, id) ==> k in w.table && i == 0 && id == w.table[k];
    assert k in w.table ==> Holds(v, t, 0, w.table[k]);
    forall id | id in v.objects && v.objects[id].live ensures Registered(v, id) || Held(v, id) {
      if Held(w, id) {
        var u, i :| Holds(w, u, i, id);
        assert Holds(v, u, i, id);
      }
    }
  }

  lemma ShutdownKeepsInv(w: World, t: nat, order: seq<Id>)
    requires Inv(w) && Step(w, ShutdownTakes(t, order)).Some?
    ensures Inv(Step(w, ShutdownTakes(t, order)).value)
  {
    var v := Step(w, ShutdownTakes(t, order)).value;
    assert forall u, i, id :: u != t ==> (Holds(v, u, i, id) <==> Holds(w, u, i, id));
    forall i: nat, id | Holds(v, t, i, id) ensures Registered(w, id) {
      var k :| k in w.table && w.table[k] == order[i];
    }
    forall id | id in v.objects && v.objects[id].live ensures Held(v, id) {
      if Held(w, id) {
        var u, i :| Holds(w, u, i, id);
        assert Holds(v, u, i, id);
      } else {
        var i :| 0 <= i < |order| && order[i] == id;
        assert Holds(v, t, i, id);
      }
    }
  }

  lemma TakerClosesKeepsInv(w: World, t: nat)
    requires Inv(w) && Step(w, TakerCloses(t)).Some?
    ensures Inv(Step(w, TakerCloses(t)).value)
  {
    var v := Step(w, TakerCloses(t)).value;
    assert Holds(w, t, 0, w.takers[t][0]);
    assert forall u, i, id :: u != t ==> (Holds(v, u, i, id) <==> Holds(w, u, i, id));
    assert forall i: nat, id :: Holds(v, t, i, id) <==> Holds(w, t, i + 1, id);
    assert forall id :: Registered(v, id) <==> Registered(w, id);
    forall id | id in v.objects && v.objects[id].live && !Registered(v, id) ensures Held(v, id) {
      var u: nat, i: nat :| Holds(w, u, i, id);
      if u != t {
        assert Holds(v, u, i, id);
      } else {
        assert i > 0;
        assert Holds(v, t, i - 1, id);
      }
    }
  }

  lemma ExpiryKeepsInv(w: World, x: Id)
    requires Inv(w) && Step(w, Expires(x)).Some?
    ensures Inv(Step(w, Expires(x)).value)
  {
    var v := Step(w, Expires(x)).value;
    assert forall t, i, id :: Holds(v, t, i, id) <==> Holds(w, t, i, id);
    assert forall id :: Held(w, id) ==> Held(v, id);
    assert forall id :: Registered(v, id) <==> Registered(w, id);
  }

  lemma {:induction false} StepKeepsInv(w: World, a: Action)
    requires Inv(w) && Step(w, a).Some?
    ensures Inv(Step(w, a).value)
  {
    match a
    case StopTakes(t, k) => StopKeepsInv(w, t, k);
    case ShutdownTakes(t, order) => ShutdownKeepsInv(w, t, order);
    case TakerCloses(t) => TakerClosesKeepsInv(w, t);
    case Expires(id) => ExpiryKeepsInv(w, id);
    case _ => StartKeepsInv(w, a);
  }

  ghost predicate IsRun(worlds: seq<World>, actions: seq<Action>) {
    Runs.IsRun(w => w == EMPTY, Step, worlds, actions)
  }

  lemma RunKeepsInv(worlds: seq<World>, actions: seq<Action>, i: nat)
    requires IsRun(worlds, actions) && i < |worlds|
    ensures Inv(worlds[i])
  {
    forall w, a | Inv(w) && Step(w, a).Some? ensures Inv(Step(w, a).value) {
      StepKeepsInv(w, a);
    }
    Runs.InvariantHolds(w => w == EMPTY, Step, w => Inv(w), worlds, actions, i);
  }

  // In every state of every run a live object is either registered under its own key or
  // held, exactly once, by someone who has yet to close it.
  lemma NoLiveObjectIsOrphaned(worlds: seq<World>, actions: seq<Action>, i: nat, id: Id)
    requires IsRun(worlds, actions) && i < |worlds|
    requires id in worlds[i].objects && worlds[i].objects[id].live
    ensures Registered(worlds[i], id) <==> !Held(worlds[i], id)
    ensures forall t, p, u, q :: Holds(worlds[i], t, p, id) && Holds(worlds[i], u, q, id) ==> t == u && p == q
  {
    RunKeepsInv(worlds, actions, i);
  }

  // The table never files an object under a foreign key, so it holds at most one object per key.
  lemma TableMatchesKeys(worlds: seq<World>, actions: seq<Action>, i: nat, k: Key)
    requires IsRun(worlds, actions) && i < |worlds|
    requires k in worlds[i].table
    ensures worlds[i].table[k] in worlds[i].objects && worlds[i].objects[worlds[i].table[k]].key == k
    ensures forall l :: l in worlds[i].table && worlds[i].table[l] == worlds[i].table[k] ==> l == k
  {
    RunKeepsInv(worlds, actions, i);
  }

  // When every Stop and Shutdown has finished, the live objects are exactly the registered live ones.
  lemma QuiescentMeansRegistered(worlds: seq<World>, actions: seq<Action>, i: nat, id: Id)
    requires IsRun(worlds, actions) && i < |worlds|
    requires forall t :: t in worlds[i].takers ==> worlds[i].takers[t] == []
    requires id in worlds[i].objects && worlds[i].objects[id].live
    ensures worlds[i].objects[id].key in worlds[i].table && worlds[i].table[worlds[i].objects[id].key] == id
  {
    NoLiveObjectIsOrphaned(worlds, actions, i, id);
  }

  // What Shutdown has moved from the table into its list so far.
  ghost predicate Drained(taken: seq<Id>, all: map<Key, Id>, rest: map<Key, Id>) {
    && (forall k, l :: k in all && l in all && all[k] == all[l] ==> k == l)
    && (forall k :: k in rest ==> k in all && rest[k] == all[k])
    && NoDuplicates(taken)
    && (forall i :: 0 <= i < |taken| ==> taken[i] in all.Values && taken[i] !in rest.Values)
    && (forall k :: k in all ==> k in rest || all[k] in taken)
  }

  lemma DrainStep(taken: seq<Id>, all: map<Key, Id>, rest: map<Key, Id>, k: Key)
    requires Drained(taken, all, rest) && k in rest
    ensures Drained(taken + [rest[k]], all, rest - {k})
    ensures |rest - {k}| < |rest|
  {
    assert rest[k] in rest.Values && all[k] in all.Values;
    assert (rest - {k}).Keys == rest.Keys - {k};
    assert |rest - {k}| == |(rest - {k}).Keys| && |rest| == |rest.Keys|;
    forall l | l in all ensures l in rest - {k} || all[l] in taken + [rest[k]] {}
    forall id | id in (rest - {k}).Values ensures id in rest.Values && id != rest[k] {
      var l :| l in rest - {k} && (rest - {k})[l] == id;
      assert rest[l] == id && l in all && k in all;
    }
  }

  // Every registered object once, in whatever order the map yields.
  method Drain(all: map<Key, Id>) returns (taken: seq<Id>)
    requires forall k, l :: k in all && l in all && all[k] == all[l] ==> k == l
    ensures Drained(taken, all, map[])
  {
    taken := [];
    var rest := all;
    while rest != map[]
      invariant Drained(taken, all, rest)
      decreases |rest|
    {
      var k :| k in rest;
      DrainStep(taken, all, rest, k);
      taken := taken + [rest[k]];
      rest := rest - {k};
    }
  }

  /** The registry itself: the table under the lock, and the objects it has handed out. */
  class Registry {
    var table: map<Key, Id>
    var objects: map<Id, Obj>
    var spawning: Option<Key>
    ghost var takers: map<nat, seq<Id>>

    ghost function View(): World
      reads this
    {
      World(table, objects, spawning, takers)
    }

    constructor ()
      ensures View() == EMPTY
    {
      table, objects, spawning, takers := map[], map[], None, map[];
    }

    // Start and Attach return the live object of the key, or go on to spawn one.
    method Look(key: Key) returns (found: Option<Id>)
      requires spawning.None?
      modifies this
      ensures Step(old(View()), StartLooks(key)) == Some(View())
      ensures found == (if key in old(table) && old(table)[key] in old(objects) && old(objects)[old(table)[key]].live
                        then Some(old(table)[key]) else None)
    {
      if key in table && table[key] in objects && objects[table[key]].live {
        return Some(table[key]);
      }
      spawning := Some(key);
      found := None;
    }

    method Spawn(id: Id)
      requires spawning.Some? && id !in objects
      modifies this
      ensures Step(old(View()), StartSpawns(id)) == Some(View())
    {
      objects := objects[id := Obj(spawning.value, true)];
      table := table[spawning.value := id];
      spawning := None;
    }

    method SpawnFailed()
      requires spawning.Some?
      modifies this
      ensures Step(old(View()), StartFails) == Some(View())
    {
      spawning := None;
    }

    // The locked part of Stop and Close.
    method Take(key: Key, ghost taker: nat) returns (taken: Option<Id>)
      requires spawning.None? && taker !in takers
      modifies this
      ensures Step(old(View()), StopTakes(taker, key)) == Some(View())
      ensures taken == if key in old(table) then Some(old(table)[key]) else None
    {
      taken := if key in table then Some(table[key]) else None;
      takers := takers[taker := if key in table then [table[key]] else []];
      table := table - {key};
    }

    // The locked part of Shutdown: list what is registered and start an empty table.
    method TakeAll(ghost taker: nat) returns (taken: seq<Id>)
      requires spawning.None? && taker !in takers && TableInv(View())
      modifies this
      ensures Step(old(View()), ShutdownTakes(taker, taken)) == Some(View())
    {
      taken := Drain(table);
      table := map[];
      takers := takers[taker := taken];
    }

    // Close one object that has been taken out.
    method CloseNext(ghost taker: nat, id: Id)
      requires taker in takers && takers[taker] != [] && takers[taker][0] == id
      modifies this
      ensures Step(old(View()), TakerCloses(taker)) == Some(View())
      ensures forall x :: x in objects <==> x in old(objects)
      ensures forall x :: x in old(objects) ==>
                objects[x] == if x == id then Obj(old(objects)[x].key, false) else old(objects)[x]
    {
      if id in objects {
        objects := objects[id := objects[id].(live := false)];
      }
      takers := takers[taker := takers[taker][1..]];
    }
  }
}
