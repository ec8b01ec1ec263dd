/**
 When a rename made through the session cache shows in the stored list
 (internal/webui/sessioncache.go). Every commit installs its answer as it came, so renames made
 before the commit are gone unless the answer has the name already.
 */
module RenameVisibility {
  import opened Prelude
  import opened SessionCache
  import Runs

  // The name of the last patch for the id, or the session's own name if there is none.
  function NameInForce(own: string, id: string, ps: seq<Patch>): string {
    if ps == [] then own
    else if ps[|ps| - 1].id == id then ps[|ps| - 1].name
    else NameInForce(own, id, ps[..|ps| - 1])
  }

  // Patch m is for the id, and no later one is.
  ghost predicate LastFor(ps: seq<Patch>, m: int, id: string) {
    0 <= m < |ps| && ps[m].id == id && forall l :: m < l < |ps| ==> ps[l].id != id
  }

  lemma {:induction false} LastPatchDecides(own: string, id: string, ps: seq<Patch>, m: nat)
    requires LastFor(ps, m, id)
    ensures NameInForce(own, id, ps) == ps[m].name
  {
    if ps[|ps| - 1].id != id {
      var front := ps[..|ps| - 1];
      forall l | m < l < |front| ensures front[l].id != id {
        assert front[l] == ps[l];
      }
      LastPatchDecides(own, id, front, m);
    }
  }

  lemma {:induction false} WithoutPatchOwnName(own: string, id: string, ps: seq<Patch>)
    requires forall m :: 0 <= m < |ps| ==> ps[m].id != id
    ensures NameInForce(own, id, ps) == own
  {
    if ps != [] {
      var front := ps[..|ps| - 1];
      forall m | 0 <= m < |front| ensures front[m].id != id {
        assert front[m] == ps[m];
      }
      WithoutPatchOwnName(own, id, front);
    }
  }

  lemma {:induction false} LastPatchExists(id: string, ps: seq<Patch>, k: nat)
    requires k < |ps| && ps[k].id == id
    ensures exists m :: k <= m && LastFor(ps, m, id)
    decreases |ps| - k
  {
    if l :| k < l < |ps| && ps[l].id == id {
      LastPatchExists(id, ps, l);
    } else {
      assert LastFor(ps, k, id);
    }
  }

  lemma {:induction false} RowUnderPatches(ss: seq<Session>, ps: seq<Patch>, i: nat)
    requires i < |ss|
    ensures |ApplyPatches(ss, ps)| == |ss|
    ensures ApplyPatches(ss, ps)[i] == Session(ss[i].id, NameInForce(ss[i].name, ss[i].id, ps))
  {
    if ps != [] {
      RowUnderPatches(ss, ps[..|ps| - 1], i);
    }
  }

  // The answer that was stored last, as it came.
  function StoredAnswer(s: System): seq<Session> {
    if s.base < |s.answers| then s.answers[s.base].sessions else []
  }

  // Whatever has happened, a row of the stored list bears the name of the last patch for its id
  // among those made since the list was stored, and otherwise the name that came with the answer.
  lemma RowBearsNameInForce(states: seq<System>, actions: seq<Action>, j: nat, i: nat)
    requires IsRun(states, actions) && j < |states| && states[j].fields.have && i < |states[j].fields.snapshot|
    ensures var s, own := states[j], StoredAnswer(states[j]);
      && s.since <= |s.patches| && |own| == |s.fields.snapshot|
      && s.fields.snapshot[i] == Session(own[i].id, NameInForce(own[i].name, own[i].id, s.patches[s.since..]))
  {
    RunKeepsInv(states, actions, j);
    var s, own := states[j], StoredAnswer(states[j]);
    assert s.patches[s.since..|s.patches|] == s.patches[s.since..];
    if own != [] {
      RowUnderPatches(own, s.patches[s.since..], 0);
    } else {
      EmptyStaysEmpty(s.patches[s.since..]);
    }
    RowUnderPatches(own, s.patches[s.since..], i);
  }

  lemma {:induction false} EmptyStaysEmpty(ps: seq<Patch>)
    ensures ApplyPatches([], ps) == []
  {
    if ps != [] {
      EmptyStaysEmpty(ps[..|ps| - 1]);
    }
  }

  // Some patch made since the list was stored is the last for the id and has the name.
  ghost predicate NamedSince(s: System, id: string, name: string) {
    exists m :: s.since <= m && LastFor(s.patches, m, id) && s.patches[m].name == name
  }

  ghost predicate UnnamedSince(s: System, id: string) {
    forall m :: s.since <= m < |s.patches| ==> s.patches[m].id != id
  }

  // A name made for a session is the one shown, in whatever state of whatever run, if and only if
  // it is that of the last patch for the session since the list was stored, or there has been no
  // such patch and the answer came with it.
  lemma NameIsShownIff(states: seq<System>, actions: seq<Action>, j: nat, i: nat, name: string)
    requires IsRun(states, actions) && j < |states| && states[j].fields.have && i < |states[j].fields.snapshot|
    ensures var s, own := states[j], StoredAnswer(states[j]);
      && i < |own| && s.fields.snapshot[i].id == own[i].id
      && (s.fields.snapshot[i].name == name <==>
            NamedSince(s, own[i].id, name) || (UnnamedSince(s, own[i].id) && own[i].name == name))
  {
    RowBearsNameInForce(states, actions, j, i);
    var s, own := states[j], StoredAnswer(states[j]);
    NameInForceSince(s, own[i].name, own[i].id, name);
  }

  lemma NameInForceSince(s: System, own: string, id: string, name: string)
    requires s.since <= |s.patches|
    ensures NameInForce(own, id, s.patches[s.since..]) == name
      <==> NamedSince(s, id, name) || (UnnamedSince(s, id) && own == name)
  {
    var ps := s.patches[s.since..];
    forall m | s.since <= m && LastFor(s.patches, m, id)
      ensures NameInForce(own, id, ps) == s.patches[m].name
    {
      assert LastFor(ps, m - s.since, id);
      LastPatchDecides(own, id, ps, m - s.since);
    }
    if k :| s.since <= k < |s.patches| && s.patches[k].id == id {
      LastPatchExists(id, s.patches, k);
    } else {
      WithoutPatchOwnName(own, id, ps);
    }
  }

  // So patch k shows if it was made since the list was stored and no later one is for its session;
  // otherwise it shows only where a later patch or the answer happens to have the same name.
  lemma RenameIsVisibleIff(states: seq<System>, actions: seq<Action>, j: nat, i: nat, k: nat)
    requires IsRun(states, actions) && j < |states| && states[j].fields.have && i < |states[j].fields.snapshot|
    requires k < |states[j].patches| && states[j].patches[k].id == states[j].fields.snapshot[i].id
    ensures var s, own, p := states[j], StoredAnswer(states[j]), states[j].patches[k];
      && i < |own| && own[i].id == p.id
      && (s.fields.snapshot[i].name == p.name <==>
            || (s.since <= k && LastFor(s.patches, k, p.id))
            || (exists m :: s.since <= m && m != k && LastFor(s.patches, m, p.id) && s.patches[m].name == p.name)
            || (UnnamedSince(s, p.id) && own[i].name == p.name))
  {
    NameIsShownIff(states, actions, j, i, states[j].patches[k].name);
  }

  predicate Commits(a: Action) {
    a.LoadCommits? || a.RefreshCommits?
  }

  // The list was stored, in the sense used here, at the last commit.
  lemma {:induction false} StoredAtLastCommit(states: seq<System>, actions: seq<Action>, c: nat, j: nat)
    requires IsRun(states, actions) && c < j < |states| && Commits(actions[c])
    requires forall q :: c < q < j ==> !Commits(actions[q])
    ensures states[j].since == |states[c].patches|
  {
    assert Step(states[j - 1], actions[j - 1]) == Some(states[j]);
    if c < j - 1 {
      StoredAtLastCommit(states, actions, c, j - 1);
    }
  }

  // Right after a commit, by a load or by a refresh, an earlier patch shows if and only if the
  // committed answer has its name.
  lemma RenameSurvivesCommitIff(states: seq<System>, actions: seq<Action>, j: nat, i: nat, k: nat)
    requires IsRun(states, actions) && j < |actions| && Commits(actions[j])
    requires i < |states[j + 1].fields.snapshot| && k < |states[j].patches|
    requires states[j].patches[k].id == states[j + 1].fields.snapshot[i].id
    ensures var t := states[j + 1];
      && t.fields.have && i < |StoredAnswer(t)| && StoredAnswer(t)[i].id == states[j].patches[k].id
      && (t.fields.snapshot[i].name == states[j].patches[k].name
          <==> StoredAnswer(t)[i].name == states[j].patches[k].name)
  {
    RunKeepsInv(states, actions, j);
    RunKeepsInv(states, actions, j + 1);
    assert Step(states[j], actions[j]) == Some(states[j + 1]);
    NameIsShownIff(states, actions, j + 1, i, states[j].patches[k].name);
  }

  // Neither a commit nor another rename of the session happens strictly between p and j.
  ghost predicate NameUntouched(actions: seq<Action>, p: nat, j: nat, id: string) {
    forall q :: p < q < j && q < |actions| ==>
      !Commits(actions[q]) && (actions[q].Patches? ==> actions[q].patch.id != id)
  }

  // Until the next commit and the next rename of the session, a rename shows.
  lemma {:induction false} RenameLasts(states: seq<System>, actions: seq<Action>, p: nat, j: nat, i: nat)
    requires IsRun(states, actions) && p < j < |states| && actions[p].Patches?
    requires NameUntouched(actions, p, j, actions[p].patch.id)
    requires i < |states[j].fields.snapshot| && states[j].fields.snapshot[i].id == actions[p].patch.id
    ensures states[j].fields.snapshot[i].name == actions[p].patch.name
  {
    assert Step(states[j - 1], actions[j - 1]) == Some(states[j]);
    if p < j - 1 {
      RenameLasts(states, actions, p, j - 1, i);
    }
  }

  // What the two losing runs end with: nothing is in flight any more, the rename was made, and the
  // stored list is the answer as it came, which may be any, with any other name for the session.
  ghost predicate RenameLost(s: System, answer: Answer, p: Patch) {
    && s.fields.have && !s.fields.refreshing && s.refreshers == map[]
    && s.patches == [p] && s.fields.snapshot == answer.sessions
    && (forall t :: t in s.readers ==> s.readers[t].Finished?)
  }

  ghost predicate Reachable(s: System) {
    Runs.Reachable((t: System) => t == Start(t.fields.ttl), Step, s)
  }

  // A step that is possible and leads on from a reachable state.
  lemma StepReaches(s: System, a: Action) returns (t: System)
    requires Reachable(s) && Step(s, a).Some?
    ensures Reachable(t) && Step(s, a) == Some(t)
  {
    t := Step(s, a).value;
    Runs.StepIsReachable((u: System) => u == Start(u.fields.ttl), Step, s, a);
  }

  lemma StartReached(ttl: int) returns (s: System)
    ensures Reachable(s) && s == Start(ttl)
  {
    s := Start(ttl);
    Runs.StartIsReachable((u: System) => u == Start(u.fields.ttl), Step, s);
  }

  lemma CacheWarmed(ttl: int, now: int, answer: Answer) returns (s: System)
    ensures Reachable(s) && s.readers == map[0 := Finished] && s.refreshers == map[] && s.patches == []
    ensures s.fields == Fields(ttl, true, answer.sessions, answer.failed, now, false)
  {
    s := StartReached(ttl);
    s := StepReaches(s, GetDecides(0));
    s := StepReaches(s, LoadAnswers(0, answer));
    s := StepReaches(s, LoadCommits(0, now));
  }

  lemma RefreshFetched(ttl: int, now: int, answer: Answer) returns (s: System)
    requires ttl > 0
    ensures Reachable(s) && s.fields.have && s.patches == []
    ensures s.readers == map[0 := Finished, 1 := Finished]
    ensures s.refreshers.Keys == {0} && s.refreshers[0].Fetched? && s.refreshers[0].answer == answer
  {
    s := CacheWarmed(ttl, now, answer);
    s := StepReaches(s, GetDecides(1));
    assert s.readers == map[0 := Finished, 1 := Checking(ttl)];
    s := StepReaches(s, GetChecks(1, now + ttl, 0));
    assert s.refreshers == map[0 := Fetching];
    s := StepReaches(s, RefreshAnswers(0, answer));
  }

  // The rename is made while a refresh holds its answer.
  lemma RefreshLosesRename(ttl: int, now: int, answer: Answer, p: Patch) returns (end: System)
    requires ttl > 0
    ensures Reachable(end) && RenameLost(end, answer, p)
  {
    var s := RefreshFetched(ttl, now, answer);
    s := StepReaches(s, Patches(p));
    end := StepReaches(s, RefreshCommits(0, now + ttl));
  }

  lemma TwoLoadsAnswered(ttl: int, answer: Answer) returns (s: System)
    ensures Reachable(s) && s.fields == Cold(ttl) && s.refreshers == map[] && s.patches == []
    ensures s.readers == map[0 := Called(answer, 0), 1 := Called(answer, 1)]
  {
    s := StartReached(ttl);
    s := StepReaches(s, GetDecides(0));
    s := StepReaches(s, GetDecides(1));
    assert s.readers == map[0 := Calling, 1 := Calling];
    s := StepReaches(s, LoadAnswers(0, answer));
    s := StepReaches(s, LoadAnswers(1, answer));
  }

  // Two readers find the cache cold, and the rename is made between their commits.
  lemma LoadLosesRename(ttl: int, now: int, answer: Answer, p: Patch) returns (end: System)
    ensures Reachable(end) && RenameLost(end, answer, p)
  {
    var s := TwoLoadsAnswered(ttl, answer);
    s := StepReaches(s, LoadCommits(0, now));
    s := StepReaches(s, Patches(p));
    end := StepReaches(s, LoadCommits(1, now));
  }
}
