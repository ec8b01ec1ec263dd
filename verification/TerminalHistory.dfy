/** A terminal and its clients (internal/webterm/webterm.go), told from what has happened to it alone. */
module TerminalHistory {
  import opened Prelude
  import opened RingBuffer
  import opened TerminalProtocol
  import G = GaplessReplay
  import Runs

  // The texts written, in order.
  function Written(actions: seq<Action>): seq<Bytes> {
    if actions == [] then []
    else
      var front, last := actions[..|actions| - 1], actions[|actions| - 1];
      if last.Writes? then Written(front) + [last.p] else Written(front)
  }

  // The number of the text that each sender wrote last.
  function LastWritten(actions: seq<Action>): map<Sender, nat> {
    if actions == [] then map[]
    else
      var front, last := actions[..|actions| - 1], actions[|actions| - 1];
      if last.Writes? then LastWritten(front)[last.who := |Written(front)|] else LastWritten(front)
  }

  // The numbers of the texts fanned out, in that order: a sender fans out what it wrote last.
  function FannedOut(actions: seq<Action>): seq<nat> {
    if actions == [] then []
    else
      var front, last := actions[..|actions| - 1], actions[|actions| - 1];
      if last.FansOut? && last.who in LastWritten(front) then FannedOut(front) + [LastWritten(front)[last.who]]
      else FannedOut(front)
  }

  ghost predicate HasExited(actions: seq<Action>, i: nat)
    requires i <= |actions|
  {
    exists k :: 0 <= k < i && actions[k].Exits?
  }

  // The action registers c: the check before the exit, or what follows the marker after it.
  predicate Registering(a: Action, c: SubId, exited: bool) {
    a == Registers(c) || (a.Checks? && a.c == c && !exited)
  }

  // The action drops c: it leaves, or its writer fails in a fan-out.
  predicate Dropping(a: Action, c: SubId) {
    a == Leaves(c) || (a.FansOut? && c in a.fails)
  }

  // After the first i actions c is registered since the j-th.
  ghost predicate RegisteredSince(actions: seq<Action>, i: nat, c: SubId, j: nat) {
    && j < i <= |actions| && Registering(actions[j], c, HasExited(actions, j))
    && forall k :: j < k < i ==> !Dropping(actions[k], c)
  }

  // What one step does, as far as the client c can tell.
  ghost predicate LogMoves(s: System, a: Action, t: System) {
    && t.capacity == s.capacity
    && (t.exited <==> s.exited || a.Exits?)
    && t.texts == (if a.Writes? then s.texts + [a.p] else s.texts)
    && (a.FansOut? ==> a.who in s.inflight)
    && t.inflight == (if a.Writes? then s.inflight[a.who := |s.texts|]
                      else if a.FansOut? then s.inflight - {a.who} else s.inflight)
    && t.fanned == (if a.FansOut? then s.fanned + [s.inflight[a.who]] else s.fanned)
  }

  ghost predicate SubMoves(s: System, a: Action, t: System, c: SubId) {
    c in t.subs <==> Registering(a, c, s.exited) || (c in s.subs && !Dropping(a, c))
  }

  lemma LogStep(s: System, a: Action)
    requires Step(s, a).Some?
    ensures LogMoves(s, a, Step(s, a).value)
  {
  }

  // What is needed of the invariant for the client c.
  predicate Fits(s: System, c: SubId) {
    && (c in s.spans <==> c in s.screens)
    && (c in s.subs <==> c in s.spans && s.spans[c].stage.Live?)
    && (c in s.spans && s.spans[c].stage.Replayed? ==> s.spans[c].marker == [])
  }

  lemma SubStep(s: System, a: Action, c: SubId)
    requires Fits(s, c) && Step(s, a).Some?
    ensures SubMoves(s, a, Step(s, a).value, c)
  {
  }

  // What the check sends of the marker: nothing before the exit, and after it what the writer takes.
  function MarkerOf(a: Action, exited: bool): Bytes {
    var text := "\r\n[process exited]\r\n";
    if a.Checks? && exited then (if a.taken < |text| then text[..a.taken] else text) else []
  }

  // What one step does to the span of c.
  ghost predicate SpanMoves(s: System, a: Action, t: System, c: SubId) {
    if a == Snapshots(c) then
      c !in s.spans && c in t.spans && t.spans[c].stage.Replayed? && t.spans[c].snap == |s.texts|
      && t.spans[c].marker == []
    else
      && (c in t.spans <==> c in s.spans)
      && (c in t.spans ==>
            var x, y := s.spans[c], t.spans[c];
            && y.snap == x.snap
            && (a.Checks? && a.c == c ==>
                  && x.stage.Replayed? && y.marker == MarkerOf(a, s.exited) && (s.exited ==> y.stage.Marked?))
            && (!(a.Checks? && a.c == c) ==> y.marker == x.marker)
            && (Registering(a, c, s.exited) ==> y.stage.Live? && y.join == |s.fanned|)
            && (a == Registers(c) ==> x.stage.Marked?)
            && (!Registering(a, c, s.exited) ==>
                  && (y.stage.Replayed? ==> x.stage.Replayed?)
                  && (y.stage.Marked? ==> x.stage.Marked? || (a.Checks? && a.c == c))
                  && (y.stage.Live? || y.stage.Gone? ==> (x.stage.Live? || x.stage.Gone?) && y.join == x.join)))
  }

  lemma SpanStep(s: System, a: Action, c: SubId)
    requires Fits(s, c) && Step(s, a).Some?
    ensures SpanMoves(s, a, Step(s, a).value, c)
  {
  }

  // A run, as far as it matters to the client c.
  ghost predicate Traced(states: seq<System>, actions: seq<Action>, c: SubId) {
    && |states| == |actions| + 1
    && states[0] == Start(states[0].capacity)
    && forall k :: 0 <= k < |actions| ==>
         var s, a, t := states[k], actions[k], states[k + 1];
         LogMoves(s, a, t) && SubMoves(s, a, t, c) && SpanMoves(s, a, t, c)
  }

  lemma RunIsTraced(states: seq<System>, actions: seq<Action>, c: SubId)
    requires IsRun(states, actions)
    ensures Traced(states, actions, c)
  {
    forall k | 0 <= k < |actions|
      ensures var s, a, t := states[k], actions[k], states[k + 1];
              LogMoves(s, a, t) && SubMoves(s, a, t, c) && SpanMoves(s, a, t, c)
    {
      assert Step(states[k], actions[k]) == Some(states[k + 1]);
      Runs.RunReaches(IsStart, Step, states, actions, k);
      ReachedFits(states[k], c);
      LogStep(states[k], actions[k]);
      SubStep(states[k], actions[k], c);
      SpanStep(states[k], actions[k], c);
    }
  }

  lemma ReachedFits(s: System, c: SubId)
    requires Reachable(s)
    ensures Fits(s, c)
  {
    ReachableHasInv(s);
    if c in s.spans {
      assert Shows(s.capacity, s.texts, s.fanned, s.screens[c], s.spans[c]);
    }
  }

  lemma WrittenGrows(front: seq<Action>, a: Action)
    ensures Written(front + [a]) == if a.Writes? then Written(front) + [a.p] else Written(front)
    ensures LastWritten(front + [a]) ==
            if a.Writes? then LastWritten(front)[a.who := |Written(front)|] else LastWritten(front)
    ensures FannedOut(front + [a]) ==
            if a.FansOut? && a.who in LastWritten(front) then FannedOut(front) + [LastWritten(front)[a.who]]
            else FannedOut(front)
  {
    FrontOfAppended(front, a);
  }

  lemma {:induction false} ExitTraced(states: seq<System>, actions: seq<Action>, c: SubId, i: nat)
    requires Traced(states, actions, c) && i < |states|
    ensures states[i].exited <==> HasExited(actions, i)
    ensures states[i].capacity == states[0].capacity
  {
    if i > 0 {
      ExitTraced(states, actions, c, i - 1);
      assert LogMoves(states[i - 1], actions[i - 1], states[i]);
    }
  }

  // What the senders have under way is what they wrote last.
  ghost predicate FitsLog(s: System, actions: seq<Action>) {
    && s.texts == Written(actions) && s.fanned == FannedOut(actions)
    && forall who :: who in s.inflight ==>
         who in LastWritten(actions) && s.inflight[who] == LastWritten(actions)[who]
  }

  lemma LogMovesOn(s: System, front: seq<Action>, a: Action, t: System)
    requires FitsLog(s, front) && LogMoves(s, a, t)
    ensures FitsLog(t, front + [a])
  {
    WrittenGrows(front, a);
  }

  lemma {:induction false} LogTraced(states: seq<System>, actions: seq<Action>, c: SubId, i: nat)
    requires Traced(states, actions, c) && i < |states|
    ensures FitsLog(states[i], actions[..i])
  {
    if i > 0 {
      var front, a := actions[..i - 1], actions[i - 1];
      LogTraced(states, actions, c, i - 1);
      assert LogMoves(states[i - 1], a, states[i]);
      LogMovesOn(states[i - 1], front, a, states[i]);
      assert actions[..i] == front + [a];
    }
  }

  // The log and what has been fanned out are what the senders did, in their order.
  lemma LogByHistory(states: seq<System>, actions: seq<Action>, i: nat)
    requires IsRun(states, actions) && i < |states|
    ensures states[i].texts == Written(actions[..i]) && states[i].fanned == FannedOut(actions[..i])
    ensures states[i].exited <==> HasExited(actions, i)
  {
    RunIsTraced(states, actions, 0);
    LogTraced(states, actions, 0, i);
    ExitTraced(states, actions, 0, i);
  }

  // A sender has a text under way exactly while it has not fanned out what it wrote last.
  ghost predicate UnderWay(actions: seq<Action>, i: nat, who: Sender)
    requires i <= |actions|
  {
    exists k :: 0 <= k < i && actions[k].Writes? && actions[k].who == who
             && forall m :: k < m < i && actions[m].FansOut? ==> actions[m].who != who
  }

  lemma {:induction false} InFlightTraced(states: seq<System>, actions: seq<Action>, c: SubId, i: nat, who: Sender)
    requires Traced(states, actions, c) && i < |states|
    ensures who in states[i].inflight <==> UnderWay(actions, i, who)
  {
    if i > 0 {
      var last := i - 1;
      InFlightTraced(states, actions, c, last, who);
      assert LogMoves(states[last], actions[last], states[i]);
      UnderWayGrows(actions, last, who);
    }
  }

  lemma UnderWayGrows(actions: seq<Action>, i: nat, who: Sender)
    requires i < |actions|
    ensures UnderWay(actions, i + 1, who) <==>
            var a := actions[i];
            (a.Writes? && a.who == who) || (UnderWay(actions, i, who) && !(a.FansOut? && a.who == who))
  {
    if UnderWay(actions, i, who) && !(actions[i].FansOut? && actions[i].who == who) {
      var k :| 0 <= k < i && actions[k].Writes? && actions[k].who == who
            && forall m :: k < m < i && actions[m].FansOut? ==> actions[m].who != who;
      assert 0 <= k < i + 1;
    }
  }

  lemma InFlightByHistory(states: seq<System>, actions: seq<Action>, i: nat, who: Sender)
    requires IsRun(states, actions) && i < |states|
    ensures who in states[i].inflight <==> UnderWay(actions, i, who)
  {
    RunIsTraced(states, actions, 0);
    InFlightTraced(states, actions, 0, i, who);
  }

  ghost predicate Subscribed(actions: seq<Action>, i: nat, c: SubId) {
    exists j: nat :: RegisteredSince(actions, i, c, j)
  }

  lemma RegistrationGrows(actions: seq<Action>, i: nat, c: SubId)
    requires i < |actions|
    ensures Subscribed(actions, i + 1, c)
       <==> Registering(actions[i], c, HasExited(actions, i)) || (Subscribed(actions, i, c) && !Dropping(actions[i], c))
  {
    if Registering(actions[i], c, HasExited(actions, i)) {
      assert RegisteredSince(actions, i + 1, c, i);
    }
    if Subscribed(actions, i, c) && !Dropping(actions[i], c) {
      var j: nat :| RegisteredSince(actions, i, c, j);
      assert RegisteredSince(actions, i + 1, c, j);
    }
    var next := i + 1;
    if Subscribed(actions, next, c) && !Registering(actions[i], c, HasExited(actions, i)) {
      var j: nat :| RegisteredSince(actions, next, c, j);
      assert RegisteredSince(actions, i, c, j);
    }
  }

  lemma {:induction false} SubTraced(states: seq<System>, actions: seq<Action>, c: SubId, i: nat)
    requires Traced(states, actions, c) && i < |states|
    ensures c in states[i].subs <==> Subscribed(actions, i, c)
  {
    if i > 0 {
      var last := i - 1;
      SubTraced(states, actions, c, last);
      ExitTraced(states, actions, c, last);
      assert SubMoves(states[last], actions[last], states[i], c);
      RegistrationGrows(actions, last, c);
    }
  }

  // A client is a subscriber exactly when it has been registered and has since neither left nor
  // failed in a fan-out.
  lemma SubscribedIff(states: seq<System>, actions: seq<Action>, i: nat, c: SubId)
    requires IsRun(states, actions) && i < |states|
    ensures c in states[i].subs <==> exists j: nat :: RegisteredSince(actions, i, c, j)
  {
    RunIsTraced(states, actions, c);
    SubTraced(states, actions, c, i);
  }

  // How c came to its span: the replay at i, the check at k, which sent what it did of the marker,
  // and the registration at j, each as far as it has happened.
  ghost predicate SpanFits(sp: Span, actions: seq<Action>, n: nat, c: SubId, i: nat, k: nat, j: nat) {
    && i < n <= |actions| && actions[i] == Snapshots(c) && sp.snap == |Written(actions[..i])|
    && (sp.stage.Replayed? ==> sp.marker == [])
    && (!sp.stage.Replayed? ==>
          i < k < n && actions[k].Checks? && actions[k].c == c
          && sp.marker == MarkerOf(actions[k], HasExited(actions, k)))
    && (sp.stage.Marked? ==> HasExited(actions, k))
    && (sp.stage.Live? || sp.stage.Gone? ==>
          k <= j < n && sp.join == |FannedOut(actions[..j])|
          && if HasExited(actions, k) then actions[j] == Registers(c) else j == k)
  }

  lemma SpanMovesOn(s: System, t: System, actions: seq<Action>, n: nat, c: SubId, i: nat, k: nat, j: nat)
    returns (i': nat, k': nat, j': nat)
    requires n < |actions| && SpanMoves(s, actions[n], t, c) && c in t.spans
    requires |s.texts| == |Written(actions[..n])| && |s.fanned| == |FannedOut(actions[..n])|
    requires s.exited <==> HasExited(actions, n)
    requires c in s.spans ==> SpanFits(s.spans[c], actions, n, c, i, k, j)
    ensures SpanFits(t.spans[c], actions, n + 1, c, i', k', j')
  {
    var a := actions[n];
    i', k', j' := i, k, j;
    if a == Snapshots(c) {
      i' := n;
    } else if a.Checks? && a.c == c {
      k', j' := n, n;
    } else if a == Registers(c) {
      j' := n;
    }
  }

  lemma {:induction false} SpanTraced(states: seq<System>, actions: seq<Action>, c: SubId, n: nat)
    returns (i: nat, k: nat, j: nat)
    requires Traced(states, actions, c) && n < |states| && c in states[n].spans
    ensures SpanFits(states[n].spans[c], actions, n, c, i, k, j)
  {
    assert n > 0;
    var last := n - 1;
    i, k, j := 0, 0, 0;
    LogTraced(states, actions, c, last);
    ExitTraced(states, actions, c, last);
    assert SpanMoves(states[last], actions[last], states[n], c);
    if c in states[last].spans {
      i, k, j := SpanTraced(states, actions, c, last);
    }
    i, k, j := SpanMovesOn(states[last], states[n], actions, last, c, i, k, j);
  }

  lemma {:induction false} WrittenOnlyGrows(actions: seq<Action>, i: nat, n: nat)
    requires i <= n <= |actions|
    ensures Written(actions[..i]) <= Written(actions[..n])
  {
    if i < n {
      WrittenOnlyGrows(actions, i, n - 1);
      assert actions[..n] == actions[..n - 1] + [actions[n - 1]];
      WrittenGrows(actions[..n - 1], actions[n - 1]);
    }
  }

  lemma {:induction false} SentOfPrefix(texts: seq<Bytes>, n: nat, to: nat)
    requires to <= n <= |texts|
    ensures Sent(texts[..n], Range(0, to)) == Sent(texts, Range(0, to))
  {
    if to > 0 {
      SentOfPrefix(texts, n, to - 1);
      assert Text(texts[..n], to - 1) == Text(texts, to - 1);
    }
  }

  // The replay that a snapshot of the first texts gives.
  lemma ReplayOfPrefix(capacity: nat, early: seq<Bytes>, texts: seq<Bytes>)
    requires early <= texts
    ensures Replay(capacity, texts, |early|) == Log(early)[Max(0, |Log(early)| - capacity)..]
  {
    assert early == texts[..|early|];
    SentOfPrefix(texts, |early|, |early|);
    G.ReplayIsEndOf(capacity, texts, |early|);
  }

  lemma ScreenOfSpan(s: System, c: SubId, early: seq<Bytes>, marker: Bytes, join: nat)
    requires Reachable(s) && c in s.subs && c in s.spans && early <= s.texts
    requires s.spans[c].snap == |early| && s.spans[c].marker == marker && s.spans[c].join == join
    ensures join <= |s.fanned| && c in s.screens
    ensures s.screens[c] ==
            Log(early)[Max(0, |Log(early)| - s.capacity)..] + marker + Sent(s.texts, s.fanned[join..])
  {
    G.ScreenOfSubscriber(s, c);
    ReplayOfPrefix(s.capacity, early, s.texts);
  }

  lemma HistoryOfSpan(states: seq<System>, actions: seq<Action>, n: nat, c: SubId) returns (i: nat, k: nat, j: nat)
    requires IsRun(states, actions) && n < |states| && c in states[n].subs
    ensures Reachable(states[n]) && states[n].capacity == states[0].capacity
    ensures c in states[n].spans && states[n].spans[c].stage.Live?
    ensures SpanFits(states[n].spans[c], actions, n, c, i, k, j)
  {
    RunIsTraced(states, actions, c);
    ExitTraced(states, actions, c, n);
    Runs.RunReaches(IsStart, Step, states, actions, n);
    ReachedFits(states[n], c);
    i, k, j := SpanTraced(states, actions, c, n);
  }

  // What a subscriber has been sent, from the actions alone: the last bytes of what was written before
  // its replay; what its writer took of the marker if its check came after the exit; and the texts
  // fanned out since it was registered.
  lemma ScreenByHistory(states: seq<System>, actions: seq<Action>, n: nat, c: SubId)
    returns (i: nat, k: nat, j: nat)
    requires IsRun(states, actions) && n < |states| && c in states[n].subs && c in states[n].screens
    ensures i < k <= j < n && actions[i] == Snapshots(c) && actions[k].Checks? && actions[k].c == c
    ensures if HasExited(actions, k) then actions[j] == Registers(c) else j == k
    ensures |FannedOut(actions[..j])| <= |FannedOut(actions[..n])|
    ensures var early := Log(Written(actions[..i]));
      var live := FannedOut(actions[..n])[|FannedOut(actions[..j])|..];
      var text := "\r\n[process exited]\r\n";
      states[n].screens[c]
          == early[Max(0, |early| - states[0].capacity)..]
             + (if !HasExited(actions, k) then []
                else if actions[k].taken < |text| then text[..actions[k].taken] else text)
             + Sent(Written(actions[..n]), live)
  {
    i, k, j := HistoryOfSpan(states, actions, n, c);
    LogByHistory(states, actions, n);
    WrittenOnlyGrows(actions, i, n);
    ScreenOfSpan(states[n], c, Written(actions[..i]), MarkerOf(actions[k], HasExited(actions, k)),
                 |FannedOut(actions[..j])|);
  }
}
