/**
 When the session cache calls its provider (internal/webui/sessioncache.go), told from the history of
 calls, commits and ttl changes alone.
 */
module RefreshTiming {
  import opened Prelude
  import opened SessionCache

  // The ttl after some actions: the one set last, or the one at the start.
  function TtlAfter(initial: int, actions: seq<Action>): int {
    if actions == [] then initial
    else
      match actions[|actions| - 1]
      case SetsTTL(d) => d
      case _ => TtlAfter(initial, actions[..|actions| - 1])
  }

  // The clock of the last commit, if there has been one.
  function LastCommitClock(actions: seq<Action>): Option<int> {
    if actions == [] then None
    else
      match actions[|actions| - 1]
      case LoadCommits(_, now) => Some(now)
      case RefreshCommits(_, now) => Some(now)
      case _ => LastCommitClock(actions[..|actions| - 1])
  }

  ghost predicate Loaded(actions: seq<Action>) {
    exists k :: 0 <= k < |actions| && actions[k].LoadCommits?
  }

  lemma FrontOfActions(actions: seq<Action>, j: nat)
    requires 0 < j <= |actions|
    ensures actions[..j] != [] && actions[..j][j - 1] == actions[j - 1] && actions[..j][..j - 1] == actions[..j - 1]
  {
  }

  // The cache's own fields follow that history.
  lemma {:induction false} FieldsFollowHistory(states: seq<System>, actions: seq<Action>, j: nat)
    requires IsRun(states, actions) && j < |states|
    ensures states[j].fields.ttl == TtlAfter(states[0].fields.ttl, actions[..j])
    ensures states[j].fields.have <==> Loaded(actions[..j])
    ensures states[j].fields.have ==> LastCommitClock(actions[..j]) == Some(states[j].fields.fetchedAt)
  {
    if j > 0 {
      FieldsFollowHistory(states, actions, j - 1);
      RunKeepsInv(states, actions, j - 1);
      assert Step(states[j - 1], actions[j - 1]) == Some(states[j]);
      FrontOfActions(actions, j);
      LoadedGrows(actions, j);
    }
  }

  lemma LoadedGrows(actions: seq<Action>, j: nat)
    requires 0 < j <= |actions|
    ensures Loaded(actions[..j]) <==> Loaded(actions[..j - 1]) || actions[j - 1].LoadCommits?
  {
    var before, now := actions[..j - 1], actions[..j];
    assert now == before + [actions[j - 1]];
    if Loaded(before) {
      var k :| 0 <= k < |before| && before[k].LoadCommits?;
      assert now[k].LoadCommits?;
    }
    if actions[j - 1].LoadCommits? {
      assert now[|before|].LoadCommits?;
    }
    if Loaded(now) {
      var k :| 0 <= k < |now| && now[k].LoadCommits?;
      assert k < |before| ==> before[k].LoadCommits?;
    }
  }

  // A Get calls the provider itself if and only if caching is off or nothing has been loaded yet;
  // otherwise it goes on to check the stored list with the ttl of that moment.
  lemma GetLoadsIff(states: seq<System>, actions: seq<Action>, d: nat, t: Tid)
    requires IsRun(states, actions) && d < |actions| && actions[d] == GetDecides(t)
    ensures var ttl := TtlAfter(states[0].fields.ttl, actions[..d]);
      && t in states[d + 1].readers
      && states[d + 1].readers[t] == if ttl <= 0 || !Loaded(actions[..d]) then Calling else Checking(ttl)
  {
    FieldsFollowHistory(states, actions, d);
    assert Step(states[d], actions[d]) == Some(states[d + 1]);
  }

  lemma {:induction false} StaysKnown(states: seq<System>, actions: seq<Action>, d: nat, j: nat, t: Tid)
    requires IsRun(states, actions) && d < j < |states| && actions[d] == GetDecides(t)
    ensures t in states[j].readers
  {
    assert Step(states[j - 1], actions[j - 1]) == Some(states[j]);
    if d + 1 < j {
      StaysKnown(states, actions, d, j - 1, t);
    }
  }

  // A reader decides at most once.
  lemma DecidesOnce(states: seq<System>, actions: seq<Action>, d: nat, e: nat, t: Tid)
    requires IsRun(states, actions) && d < |actions| && e < |actions|
    requires actions[d] == GetDecides(t) && actions[e] == GetDecides(t)
    ensures d == e
  {
    assert Step(states[d], actions[d]) == Some(states[d + 1]);
    assert Step(states[e], actions[e]) == Some(states[e + 1]);
    if d < e {
      StaysKnown(states, actions, d, e, t);
    } else if e < d {
      StaysKnown(states, actions, e, d, t);
    }
  }

  // A reader in its second section has decided, with the ttl in force then.
  lemma {:induction false} CheckingSince(states: seq<System>, actions: seq<Action>, j: nat, t: Tid) returns (d: nat)
    requires IsRun(states, actions) && j < |states| && t in states[j].readers && states[j].readers[t].Checking?
    ensures d < j && actions[d] == GetDecides(t)
    ensures states[j].readers[t] == Checking(TtlAfter(states[0].fields.ttl, actions[..d]))
  {
    assert j > 0;
    assert Step(states[j - 1], actions[j - 1]) == Some(states[j]);
    if actions[j - 1] == GetDecides(t) {
      d := j - 1;
      GetLoadsIff(states, actions, d, t);
    } else {
      d := CheckingSince(states, actions, j - 1, t);
    }
  }

  // A warm Get starts a refresh if and only if none is in flight and the time since the last commit,
  // by a load or a refresh, is at least the ttl in force when that Get decided.
  lemma RefreshStartsIff(states: seq<System>, actions: seq<Action>, g: nat, t: Tid, now: int, r: Tid)
    returns (d: nat, last: int)
    requires IsRun(states, actions) && g < |actions| && actions[g] == GetChecks(t, now, r)
    ensures d < g && actions[d] == GetDecides(t) && LastCommitClock(actions[..g]) == Some(last)
    ensures forall e :: 0 <= e < |actions| && actions[e] == GetDecides(t) ==> e == d
    ensures r !in states[g].refreshers
    ensures states[g + 1].refreshers ==
            if states[g].refreshers == map[] && now - last >= TtlAfter(states[0].fields.ttl, actions[..d])
            then map[r := Fetching] else states[g].refreshers
  {
    assert Step(states[g], actions[g]) == Some(states[g + 1]);
    RunKeepsInv(states, actions, g);
    FieldsFollowHistory(states, actions, g);
    d := CheckingSince(states, actions, g, t);
    last := states[g].fields.fetchedAt;
    forall e | 0 <= e < |actions| && actions[e] == GetDecides(t) ensures e == d {
      DecidesOnce(states, actions, d, e, t);
    }
  }

  // The g-th action is a check that puts r in flight.
  ghost predicate Starts(states: seq<System>, actions: seq<Action>, g: nat, r: Tid) {
    && g < |actions| && |states| == |actions| + 1
    && actions[g].GetChecks? && actions[g].spawned == r
    && states[g].refreshers == map[] && states[g + 1].refreshers == map[r := Fetching]
  }

  ghost predicate NoCommitOf(actions: seq<Action>, from: nat, to: nat, r: Tid) {
    forall k :: from <= k < to <= |actions| && actions[k].RefreshCommits? ==> actions[k].r != r
  }

  lemma {:induction false} FliesSince(states: seq<System>, actions: seq<Action>, j: nat, r: Tid) returns (g: nat)
    requires IsRun(states, actions) && j < |states| && r in states[j].refreshers
    ensures g < j && Starts(states, actions, g, r) && NoCommitOf(actions, g, j, r)
  {
    assert j > 0;
    assert Step(states[j - 1], actions[j - 1]) == Some(states[j]);
    if r in states[j - 1].refreshers {
      g := FliesSince(states, actions, j - 1, r);
    } else {
      g := j - 1;
      StartsAlone(states, actions, g, r);
    }
  }

  lemma StartsAlone(states: seq<System>, actions: seq<Action>, g: nat, r: Tid)
    requires IsRun(states, actions) && g < |actions|
    requires r !in states[g].refreshers && r in states[g + 1].refreshers
    ensures Starts(states, actions, g, r)
  {
    assert Step(states[g], actions[g]) == Some(states[g + 1]);
    RunKeepsInv(states, actions, g);
  }

  lemma {:induction false} FliesOn(states: seq<System>, actions: seq<Action>, g: nat, j: nat, r: Tid)
    requires IsRun(states, actions) && g < j < |states| && Starts(states, actions, g, r)
    requires NoCommitOf(actions, g, j, r)
    ensures r in states[j].refreshers
  {
    if g + 1 < j {
      FliesOn(states, actions, g, j - 1, r);
      assert Step(states[j - 1], actions[j - 1]) == Some(states[j]);
    }
  }

  // A refresh is in flight exactly when such a Get has started it and it has not committed since.
  lemma InFlightIff(states: seq<System>, actions: seq<Action>, j: nat, r: Tid)
    requires IsRun(states, actions) && j < |states|
    ensures r in states[j].refreshers <==>
            exists g :: 0 <= g < j && Starts(states, actions, g, r) && NoCommitOf(actions, g, j, r)
  {
    if r in states[j].refreshers {
      var g := FliesSince(states, actions, j, r);
    }
    if exists g :: 0 <= g < j && Starts(states, actions, g, r) && NoCommitOf(actions, g, j, r) {
      var g :| 0 <= g < j && Starts(states, actions, g, r) && NoCommitOf(actions, g, j, r);
      FliesOn(states, actions, g, j, r);
    }
  }
}
