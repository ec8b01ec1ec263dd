/** The stale-while-revalidate cache of the session list (internal/webui/sessioncache.go). */
module SessionCache {
  import opened Prelude
  import Runs

  datatype Session = Session(id: string, name: string)

  // One completed provider call.
  datatype Answer = Answer(sessions: seq<Session>, failed: bool)

  datatype Patch = Patch(id: string, name: string)

  function Rename(s: Session, p: Patch): Session {
    if s.id == p.id then s.(name := p.name) else s
  }

  function ApplyPatch(ss: seq<Session>, p: Patch): (r: seq<Session>)
    ensures |r| == |ss| && forall i :: 0 <= i < |ss| ==> r[i].id == ss[i].id
  {
    seq(|ss|, i requires 0 <= i < |ss| => Rename(ss[i], p))
  }

  function ApplyPatches(ss: seq<Session>, ps: seq<Patch>): seq<Session> {
    if ps == [] then ss else ApplyPatch(ApplyPatches(ss, ps[..|ps| - 1]), ps[|ps| - 1])
  }

  // The fields guarded by the cache's mutex.
  datatype Fields = Fields(ttl: int, have: bool, snapshot: seq<Session>, failed: bool, fetchedAt: int, refreshing: bool)

  function Cold(ttl: int): Fields {
    Fields(ttl, false, [], false, 0, false)
  }

  predicate Bypass(f: Fields) {
    f.ttl <= 0 || !f.have
  }

  function StoreLoaded(f: Fields, a: Answer, now: int): Fields {
    f.(snapshot := a.sessions, failed := a.failed, have := true, fetchedAt := now)
  }

  function StoreRefreshed(f: Fields, a: Answer, now: int): Fields {
    f.(snapshot := a.sessions, failed := a.failed, fetchedAt := now, refreshing := false)
  }

  // The check of a warm read: does it have to start a refresh?
  predicate StartsRefresh(f: Fields, ttl: int, now: int) {
    now - f.fetchedAt >= ttl && !f.refreshing
  }

  /** The cache object, one method per critical section. */
  class Cache {
    var ttl: int
    var have: bool
    var snapshot: array<Session>
    var failed: bool
    var fetchedAt: int
    var refreshing: bool

    function View(): Fields
      reads this, snapshot
    {
      Fields(ttl, have, snapshot[..], failed, fetchedAt, refreshing)
    }

    constructor (ttl: int)
      ensures View() == Cold(ttl) && fresh(snapshot)
    {
      this.ttl, have, failed, fetchedAt, refreshing := ttl, false, false, 0, false;
      snapshot := new Session[0];
    }

    method SetTTL(d: int)
      modifies this
      ensures View() == old(View()).(ttl := d)
    {
      ttl := d;
    }

    // Get's first section: load synchronously, or go on to the warm check with this ttl?
    method Decide() returns (load: bool, seen: int)
      ensures load == Bypass(View()) && seen == ttl
      ensures load <==> ttl <= 0 || !have
    {
      seen := ttl;
      load := ttl <= 0 || !have;
    }

    // Get's second section.
    method WarmRead(seen: int, now: int) returns (start: bool, served: array<Session>, err: bool)
      modifies this
      ensures start == StartsRefresh(old(View()), seen, now)
      ensures start <==> now - old(fetchedAt) >= seen && !old(refreshing)
      ensures View() == old(View()).(refreshing := old(refreshing) || start)
      ensures served == snapshot && err == failed
    {
      start := false;
      if now - fetchedAt >= seen && !refreshing {
        refreshing := true;
        start := true;
      }
      served, err := snapshot, failed;
    }

    method CommitLoad(all: array<Session>, err: bool, now: int)
      modifies this
      ensures View() == StoreLoaded(old(View()), Answer(all[..], err), now)
    {
      snapshot, failed, have, fetchedAt := all, err, true, now;
    }

    method CommitRefresh(all: array<Session>, err: bool, now: int)
      modifies this
      ensures View() == StoreRefreshed(old(View()), Answer(all[..], err), now)
    {
      snapshot, failed, fetchedAt, refreshing := all, err, now, false;
    }

    // Rename in place, so that whoever holds the snapshot sees the new name at once.
    method PatchName(id: string, name: string)
      modifies snapshot
      ensures View() == old(View()).(snapshot := ApplyPatch(old(snapshot[..]), Patch(id, name)))
    {
      for i := 0 to snapshot.Length
        invariant forall k :: 0 <= k < i ==> snapshot[k] == Rename(old(snapshot[k]), Patch(id, name))
        invariant forall k :: i <= k < snapshot.Length ==> snapshot[k] == old(snapshot[k])
      {
        if snapshot[i].id == id {
          snapshot[i] := snapshot[i].(name := name);
        }
      }
    }
  }

  type Tid = nat

  // One call of Get.
  datatype Reader =
    | Calling
    | Called(answer: Answer, index: nat)
    | Checking(ttl: int)
    | Finished

  // A background refresh in flight.
  datatype Refresher = Fetching | Fetched(answer: Answer, index: nat)

  // What a Get returned: the value and which provider answer and patches it should amount to.
  datatype Served = Served(value: seq<Session>, failed: bool, index: nat, from: nat, to: nat)

  datatype System = System(
    fields: Fields,
    readers: map<Tid, Reader>,
    refreshers: map<Tid, Refresher>,
    // history
    answers: seq<Answer>,
    patches: seq<Patch>,
    base: nat,
    since: nat,
    warm: set<Tid>,
    providerCalls: set<Tid>,
    served: seq<Served>)

  datatype Action =
    | GetDecides(t: Tid)
    | LoadAnswers(t: Tid, answer: Answer)
    | LoadCommits(t: Tid, now: int)
    | GetChecks(t: Tid, now: int, spawned: Tid)
    | RefreshAnswers(r: Tid, answer: Answer)
    | RefreshCommits(r: Tid, now: int)
    | Patches(patch: Patch)
    | SetsTTL(ttl: int)

  function Start(ttl: int): System {
    System(Cold(ttl), map[], map[], [], [], 0, 0, {}, {}, [])
  }

  function Step(s: System, a: Action): Option<System> {
    var f := s.fields;
    match a
    case GetDecides(t) =>
      if t in s.readers then None
      else if Bypass(f) then
        Some(s.(readers := s.readers[t := Calling], providerCalls := s.providerCalls + {t}))
      else
        Some(s.(readers := s.readers[t := Checking(f.ttl)], warm := s.warm + {t}))
    case LoadAnswers(t, answer) =>
      if t !in s.readers || !s.readers[t].Calling? then None
      else Some(s.(readers := s.readers[t := Called(answer, |s.answers|)], answers := s.answers + [answer]))
    case LoadCommits(t, now) =>
      if t !in s.readers || !s.readers[t].Called? then None
      else
        var r := s.readers[t];
        Some(s.(fields := StoreLoaded(f, r.answer, now), readers := s.readers[t := Finished],
                base := r.index, since := |s.patches|,
                served := s.served + [Served(r.answer.sessions, r.answer.failed, r.index, |s.patches|, |s.patches|)]))
    case GetChecks(t, now, spawned) =>
      if t !in s.readers || !s.readers[t].Checking? || spawned in s.refreshers then None
      else
        var start := StartsRefresh(f, s.readers[t].ttl, now);
        Some(s.(fields := f.(refreshing := f.refreshing || start), readers := s.readers[t := Finished],
                refreshers := if start then s.refreshers[spawned := Fetching] else s.refreshers,
                served := s.served + [Served(f.snapshot, f.failed, s.base, s.since, |s.patches|)]))
    case RefreshAnswers(r, answer) =>
      if r !in s.refreshers || !s.refreshers[r].Fetching? then None
      else Some(s.(refreshers := s.refreshers[r := Fetched(answer, |s.answers|)], answers := s.answers + [answer]))
    case RefreshCommits(r, now) =>
      if r !in s.refreshers || !s.refreshers[r].Fetched? then None
      else
        var x := s.refreshers[r];
        Some(s.(fields := StoreRefreshed(f, x.answer, now), refreshers := s.refreshers - {r},
                base := x.index, since := |s.patches|))
    case Patches(p) =>
      Some(s.(fields := f.(snapshot := ApplyPatch(f.snapshot, p)), patches := s.patches + [p]))
    case SetsTTL(d) => Some(s.(fields := f.(ttl := d)))
  }

  // The value is a completed provider answer with the patches made since it was stored, in order,
  // and the error is the one of that answer.
  ghost predicate Explained(s: System, value: seq<Session>, failed: bool, index: nat, from: nat, to: nat) {
    && index < |s.answers| && from <= to <= |s.patches| && failed == s.answers[index].failed
    && value == ApplyPatches(s.answers[index].sessions, s.patches[from..to])
  }

  ghost predicate RefreshInv(s: System) {
    && (s.fields.refreshing <==> s.refreshers != map[])
    && (forall r, q :: r in s.refreshers && q in s.refreshers ==> r == q)
  }

  ghost predicate ReaderInv(s: System) {
    && s.warm !! s.providerCalls
    && s.warm <= s.readers.Keys && s.providerCalls <= s.readers.Keys
    && (forall t :: t in s.readers && s.readers[t].Checking? ==> t in s.warm && s.fields.have)
    && (forall t :: t in s.readers && (s.readers[t].Calling? || s.readers[t].Called?) ==> t in s.providerCalls)
  }

  ghost predicate AnswerInv(s: System) {
    && (forall t :: t in s.readers && s.readers[t].Called? ==>
          s.readers[t].index < |s.answers| && s.answers[s.readers[t].index] == s.readers[t].answer)
    && (forall r :: r in s.refreshers && s.refreshers[r].Fetched? ==>
          s.refreshers[r].index < |s.answers| && s.answers[s.refreshers[r].index] == s.refreshers[r].answer)
  }

  ghost predicate SnapshotInv(s: System) {
    && (s.fields.have ==> Explained(s, s.fields.snapshot, s.fields.failed, s.base, s.since, |s.patches|))
    && (!s.fields.have ==> s.fields.snapshot == [] && s.refreshers == map[])
    && (forall i :: 0 <= i < |s.served| ==>
          Explained(s, s.served[i].value, s.served[i].failed, s.served[i].index, s.served[i].from, s.served[i].to))
  }

  ghost predicate Inv(s: System) {
    RefreshInv(s) && ReaderInv(s) && AnswerInv(s) && SnapshotInv(s)
  }

  lemma StepKeepsRefreshInv(s: System, a: Action)
    requires RefreshInv(s) && Step(s, a).Some?
    ensures RefreshInv(Step(s, a).value)
  {
  }

  lemma StepKeepsReaderInv(s: System, a: Action)
    requires ReaderInv(s) && Step(s, a).Some?
    ensures ReaderInv(Step(s, a).value)
  {
  }

  lemma StepKeepsAnswerInv(s: System, a: Action)
    requires AnswerInv(s) && Step(s, a).Some?
    ensures AnswerInv(Step(s, a).value)
  {
  }

  // What was explained stays explained when answers and patches are appended.
  lemma StillExplained(s: System, t: System, value: seq<Session>, failed: bool, index: nat, from: nat, to: nat)
    requires Explained(s, value, failed, index, from, to)
    requires s.answers <= t.answers && s.patches <= t.patches
    ensures Explained(t, value, failed, index, from, to)
  {
    assert t.patches[from..to] == s.patches[from..to];
  }

  lemma ServedStaysExplained(s: System, t: System)
    requires s.answers <= t.answers && s.patches <= t.patches
    requires forall i :: 0 <= i < |s.served| ==>
               Explained(s, s.served[i].value, s.served[i].failed, s.served[i].index, s.served[i].from, s.served[i].to)
    ensures forall i :: 0 <= i < |s.served| ==>
               Explained(t, s.served[i].value, s.served[i].failed, s.served[i].index, s.served[i].from, s.served[i].to)
  {
    forall i | 0 <= i < |s.served|
      ensures Explained(t, s.served[i].value, s.served[i].failed, s.served[i].index, s.served[i].from, s.served[i].to)
    {
      StillExplained(s, t, s.served[i].value, s.served[i].failed, s.served[i].index, s.served[i].from, s.served[i].to);
    }
  }

  lemma PatchExtends(ss: seq<Session>, ps: seq<Patch>, p: Patch)
    ensures ApplyPatches(ss, ps + [p]) == ApplyPatch(ApplyPatches(ss, ps), p)
  {
    assert (ps + [p])[..|ps|] == ps;
  }

  lemma SliceOfExtended<T>(s: seq<T>, x: T, i: nat)
    requires i <= |s|
    ensures (s + [x])[i..|s| + 1] == s[i..|s|] + [x]
  {
  }

  lemma PatchKeepsSnapshotInv(s: System, p: Patch)
    requires Inv(s) && s.fields.have && Step(s, Patches(p)).Some?
    ensures var t := Step(s, Patches(p)).value;
      Explained(t, t.fields.snapshot, t.fields.failed, t.base, t.since, |t.patches|)
  {
    SliceOfExtended(s.patches, p, s.since);
    PatchExtends(s.answers[s.base].sessions, s.patches[s.since..|s.patches|], p);
  }

  lemma StepKeepsSnapshotInv(s: System, a: Action)
    requires Inv(s) && Step(s, a).Some?
    ensures SnapshotInv(Step(s, a).value)
  {
    var t := Step(s, a).value;
    ServedStaysExplained(s, t);
    if s.fields.have {
      StillExplained(s, t, s.fields.snapshot, s.fields.failed, s.base, s.since, |s.patches|);
    }
    match a
    case Patches(p) =>
      if s.fields.have {
        PatchKeepsSnapshotInv(s, p);
      } else {
        assert ApplyPatch([], p) == [];
      }
    case LoadCommits(_, _) => assert t.patches[|s.patches|..|s.patches|] == [];
    case RefreshCommits(_, _) => assert t.patches[|s.patches|..|s.patches|] == [];
    case _ =>
  }

  lemma {:induction false} StepKeepsInv(s: System, a: Action)
    requires Inv(s) && Step(s, a).Some?
    ensures Inv(Step(s, a).value)
  {
    StepKeepsRefreshInv(s, a);
    StepKeepsReaderInv(s, a);
    StepKeepsAnswerInv(s, a);
    StepKeepsSnapshotInv(s, a);
  }

  ghost predicate IsRun(states: seq<System>, actions: seq<Action>) {
    Runs.IsRun((s: System) => s == Start(s.fields.ttl), Step, states, actions)
  }

  lemma RunKeepsInv(states: seq<System>, actions: seq<Action>, i: nat)
    requires IsRun(states, actions) && i < |states|
    ensures Inv(states[i])
  {
    forall s, a | Inv(s) && Step(s, a).Some? ensures Inv(Step(s, a).value) {
      StepKeepsInv(s, a);
    }
    Runs.InvariantHolds((s: System) => s == Start(s.fields.ttl), Step, s => Inv(s), states, actions, i);
  }

  // The flag is up exactly while a refresh is in flight, and there is never more than one.
  lemma OneRefreshAtATime(states: seq<System>, actions: seq<Action>, i: nat)
    requires IsRun(states, actions) && i < |states|
    ensures |states[i].refreshers| == if states[i].fields.refreshing then 1 else 0
  {
    RunKeepsInv(states, actions, i);
    var rs := states[i].refreshers;
    if rs != map[] {
      var r :| r in rs;
      assert rs.Keys == {r};
      assert |rs| == |rs.Keys|;
    }
  }

  // A Get that saw a warm cache and a positive ttl never calls the provider.
  lemma WarmGetsNeverLoad(states: seq<System>, actions: seq<Action>, i: nat, t: Tid)
    requires IsRun(states, actions) && i < |states| && t in states[i].warm
    ensures t !in states[i].providerCalls
    ensures t in states[i].readers && !states[i].readers[t].Calling? && !states[i].readers[t].Called?
  {
    RunKeepsInv(states, actions, i);
  }

  // Every list ever served is some completed provider answer with the later patches applied in order.
  lemma ServedListsAreExplained(states: seq<System>, actions: seq<Action>, i: nat, k: nat)
    requires IsRun(states, actions) && i < |states| && k < |states[i].served|
    ensures var s, v := states[i], states[i].served[k];
      && v.index < |s.answers| && v.from <= v.to <= |s.patches|
      && v.value == ApplyPatches(s.answers[v.index].sessions, s.patches[v.from..v.to])
      && v.failed == s.answers[v.index].failed
  {
    RunKeepsInv(states, actions, i);
  }

  // A warm read serves the stored list as it is at that moment, all patches since included.
  lemma WarmReadServesCurrentList(states: seq<System>, actions: seq<Action>, i: nat)
    requires IsRun(states, actions) && i < |actions| && actions[i].GetChecks?
    ensures var before, after := states[i], states[i + 1];
      && |after.served| == |before.served| + 1
      && after.served[|before.served|].value == before.fields.snapshot
      && before.base < |before.answers| && before.since <= |before.patches|
      && before.fields.snapshot == ApplyPatches(before.answers[before.base].sessions, before.patches[before.since..])
  {
    RunKeepsInv(states, actions, i);
    var before := states[i];
    assert Step(before, actions[i]) == Some(states[i + 1]);
    assert before.patches[before.since..|before.patches|] == before.patches[before.since..];
  }
}
