/** When a subscriber of a terminal sees the output without gap, repeat or reordering (internal/webterm/webterm.go). */
module GaplessReplay {
  import opened Prelude
  import opened RingBuffer
  import opened TerminalProtocol
  import Runs

  // Where in the log the replay of a client begins.
  function ReplayStart(capacity: nat, texts: seq<Bytes>, snap: nat): nat {
    Max(0, |Sent(texts, Range(0, snap))| - capacity)
  }

  // What a client is shown that was sent the broadcasts ids after its replay.
  function Screen(capacity: nat, texts: seq<Bytes>, snap: nat, ids: seq<nat>): Bytes {
    Replay(capacity, texts, snap) + Sent(texts, ids)
  }

  // It is one stretch of the log, in the order of the log.
  ghost predicate Gapless(capacity: nat, texts: seq<Bytes>, snap: nat, ids: seq<nat>) {
    var from, screen := ReplayStart(capacity, texts, snap), Screen(capacity, texts, snap, ids);
    from + |screen| <= |Log(texts)| && screen == Log(texts)[from..from + |screen|]
  }

  // The stretch reaches to the end of the log.
  ghost predicate Complete(capacity: nat, texts: seq<Bytes>, snap: nat, ids: seq<nat>) {
    var from := ReplayStart(capacity, texts, snap);
    from <= |Log(texts)| && Screen(capacity, texts, snap, ids) == Log(texts)[from..]
  }

  lemma SequenceIsRange(ids: seq<nat>, from: nat)
    requires InSequence(ids, from)
    ensures ids == Range(from, from + |ids|)
  {
  }

  lemma ReplayIsEndOf(capacity: nat, texts: seq<Bytes>, snap: nat)
    ensures var early := Sent(texts, Range(0, snap));
      ReplayStart(capacity, texts, snap) <= |early|
          && Replay(capacity, texts, snap) == early[ReplayStart(capacity, texts, snap)..]
  {
    var early := Sent(texts, Range(0, snap));
    assert early[0..] == early;
  }

  lemma RangeSplits(a: nat, b: nat, c: nat)
    requires a <= b <= c
    ensures Range(a, c) == Range(a, b) + Range(b, c)
  {
  }

  lemma SentSplits(texts: seq<Bytes>, a: nat, b: nat, c: nat)
    requires a <= b <= c
    ensures Sent(texts, Range(a, c)) == Sent(texts, Range(a, b)) + Sent(texts, Range(b, c))
  {
    RangeSplits(a, b, c);
    SentConcat(texts, Range(a, b), Range(b, c));
  }

  lemma LogSplits(texts: seq<Bytes>, a: nat, b: nat)
    requires a <= b <= |texts|
    ensures Log(texts) == Sent(texts, Range(0, a)) + Sent(texts, Range(a, b)) + Sent(texts, Range(b, |texts|))
  {
    SentSplits(texts, 0, b, |texts|);
    SentSplits(texts, 0, a, b);
  }

  lemma StretchOf(early: Bytes, live: Bytes, late: Bytes, from: nat)
    requires from <= |early|
    ensures from + |early[from..] + live| <= |early + live + late|
    ensures early[from..] + live == (early + live + late)[from..from + |early[from..] + live|]
    ensures late == [] ==> early[from..] + live == (early + live + late)[from..]
  {
  }

  // The log is what is in the snapshot, what the client was sent since, and the rest.
  lemma GaplessFromParts(capacity: nat, texts: seq<Bytes>, snap: nat, ids: seq<nat>, live: Bytes, late: Bytes)
    requires Sent(texts, ids) == live && Log(texts) == Sent(texts, Range(0, snap)) + live + late
    ensures Gapless(capacity, texts, snap, ids) && (late == [] ==> Complete(capacity, texts, snap, ids))
  {
    ReplayIsEndOf(capacity, texts, snap);
    StretchOf(Sent(texts, Range(0, snap)), live, late, ReplayStart(capacity, texts, snap));
  }

  // Broadcasts sent in written order, right from the snapshot on, give a gapless screen.
  lemma SequenceIsGapless(capacity: nat, texts: seq<Bytes>, snap: nat, ids: seq<nat>)
    requires snap + |ids| <= |texts| && InSequence(ids, snap)
    ensures Gapless(capacity, texts, snap, ids)
    ensures snap + |ids| == |texts| ==> Complete(capacity, texts, snap, ids)
  {
    SequenceIsRange(ids, snap);
    LogSplits(texts, snap, snap + |ids|);
    GaplessFromParts(capacity, texts, snap, ids, Sent(texts, ids), Sent(texts, Range(snap + |ids|, |texts|)));
  }

  // n broadcasts of one byte each, of which d alone is recognisable.
  function Marking(n: nat, d: nat): (texts: seq<Bytes>)
    ensures |texts| == n
  {
    seq(n, i => if i == d then "y" else "x")
  }

  lemma {:induction false} MarkedLength(n: nat, d: nat, ids: seq<nat>)
    requires Within(ids, n)
    ensures |Sent(Marking(n, d), ids)| == |ids|
    decreases |ids|
  {
    if ids != [] {
      MarkedLength(n, d, ids[..|ids| - 1]);
    }
  }

  lemma {:induction false} MarkedByte(n: nat, d: nat, ids: seq<nat>, i: nat)
    requires Within(ids, n) && i < |ids|
    ensures i < |Sent(Marking(n, d), ids)| && (Sent(Marking(n, d), ids)[i] == 'y' <==> ids[i] == d)
    decreases |ids|
  {
    MarkedLength(n, d, ids);
    MarkedLength(n, d, ids[..|ids| - 1]);
    if i < |ids| - 1 {
      MarkedByte(n, d, ids[..|ids| - 1], i);
    }
  }

  lemma ByteOfStretch(replay: Bytes, live: Bytes, log: Bytes, from: nat, i: nat)
    requires from + |replay + live| <= |log| && replay + live == log[from..from + |replay + live|] && i < |live|
    ensures from + |replay| + i < |log| && live[i] == log[from + |replay| + i]
  {
    assert (replay + live)[|replay| + i] == live[i];
  }

  lemma GaplessByte(capacity: nat, texts: seq<Bytes>, snap: nat, ids: seq<nat>, i: nat)
    requires Gapless(capacity, texts, snap, ids) && i < |Sent(texts, ids)|
    ensures var at := ReplayStart(capacity, texts, snap) + |Replay(capacity, texts, snap)| + i;
      at < |Log(texts)| && Sent(texts, ids)[i] == Log(texts)[at]
  {
    ByteOfStretch(Replay(capacity, texts, snap), Sent(texts, ids), Log(texts), ReplayStart(capacity, texts, snap), i);
  }

  lemma GaplessLength(capacity: nat, n: nat, d: nat, snap: nat, ids: seq<nat>)
    requires snap <= n && Within(ids, n) && Gapless(capacity, Marking(n, d), snap, ids)
    ensures ReplayStart(capacity, Marking(n, d), snap) + |Replay(capacity, Marking(n, d), snap)| == snap
    ensures snap + |ids| <= n
  {
    MarkedLength(n, d, Range(0, n));
    MarkedLength(n, d, Range(0, snap));
    MarkedLength(n, d, ids);
    ReplayIsEndOf(capacity, Marking(n, d), snap);
  }

  lemma LogMarked(n: nat, d: nat)
    requires d < n
    ensures d < |Log(Marking(n, d))| && Log(Marking(n, d))[d] == 'y'
  {
    MarkedByte(n, d, Range(0, n), d);
  }

  // Byte i of what was sent live is the byte of the log that comes i behind the first snap.
  ghost predicate InPlace(texts: seq<Bytes>, snap: nat, ids: seq<nat>, i: nat) {
    i < |Sent(texts, ids)| && snap + i < |Log(texts)| && Sent(texts, ids)[i] == Log(texts)[snap + i]
  }

  lemma GaplessMeansInPlace(capacity: nat, n: nat, d: nat, snap: nat, ids: seq<nat>, i: nat)
    requires snap <= n && Within(ids, n) && i < |ids| && Gapless(capacity, Marking(n, d), snap, ids)
    ensures InPlace(Marking(n, d), snap, ids, i)
  {
    GaplessLength(capacity, n, d, snap, ids);
    MarkedLength(n, d, ids);
    GaplessByte(capacity, Marking(n, d), snap, ids, i);
  }

  lemma InPlaceMeansInSequence(n: nat, snap: nat, ids: seq<nat>, i: nat)
    requires snap + i < n && Within(ids, n) && i < |ids| && InPlace(Marking(n, snap + i), snap, ids, i)
    ensures ids[i] == snap + i
  {
    LogMarked(n, snap + i);
    MarkedByte(n, snap + i, ids, i);
  }

  lemma GaplessAt(capacity: nat, n: nat, snap: nat, ids: seq<nat>, i: nat)
    requires snap + i < n && Within(ids, n) && i < |ids| && Gapless(capacity, Marking(n, snap + i), snap, ids)
    ensures ids[i] == snap + i
  {
    GaplessMeansInPlace(capacity, n, snap + i, snap, ids, i);
    InPlaceMeansInSequence(n, snap, ids, i);
  }

  // No other broadcasts, and no other order, give a gapless screen whatever they contain.
  lemma GaplessIsSequence(capacity: nat, n: nat, snap: nat, ids: seq<nat>)
    requires snap <= n && Within(ids, n)
    requires forall texts: seq<Bytes> :: |texts| == n ==> Gapless(capacity, texts, snap, ids)
    ensures snap + |ids| <= n && InSequence(ids, snap)
  {
    assert Gapless(capacity, Marking(n, 0), snap, ids);
    GaplessLength(capacity, n, 0, snap, ids);
    forall i | 0 <= i < |ids| ensures ids[i] == snap + i {
      assert Gapless(capacity, Marking(n, snap + i), snap, ids);
      GaplessAt(capacity, n, snap, ids, i);
    }
  }

  lemma CompleteIsGapless(capacity: nat, texts: seq<Bytes>, snap: nat, ids: seq<nat>)
    requires Complete(capacity, texts, snap, ids)
    ensures Gapless(capacity, texts, snap, ids)
  {
    var from := ReplayStart(capacity, texts, snap);
    assert Log(texts)[from..] == Log(texts)[from..|Log(texts)|];
  }

  lemma CompleteIsWholeSequence(capacity: nat, n: nat, snap: nat, ids: seq<nat>)
    requires snap <= n && Within(ids, n)
    requires forall texts: seq<Bytes> :: |texts| == n ==> Complete(capacity, texts, snap, ids)
    ensures snap + |ids| == n && InSequence(ids, snap)
  {
    forall texts: seq<Bytes> | |texts| == n ensures Gapless(capacity, texts, snap, ids) {
      CompleteIsGapless(capacity, texts, snap, ids);
    }
    GaplessIsSequence(capacity, n, snap, ids);
    var texts := Marking(n, 0);
    assert Complete(capacity, texts, snap, ids);
    MarkedLength(n, 0, Range(0, n));
    MarkedLength(n, 0, Range(0, snap));
    MarkedLength(n, 0, ids);
    ReplayIsEndOf(capacity, texts, snap);
  }

  // The broadcasts fanned out since a client was registered.
  function SentLive(s: System, c: SubId): seq<nat>
    requires c in s.spans
  {
    if s.spans[c].join <= |s.fanned| then s.fanned[s.spans[c].join..] else []
  }

  // Every registered client has been sent its replay and then what has been fanned out since.
  lemma ScreenOfSubscriber(s: System, c: SubId)
    requires Reachable(s) && c in s.subs
    ensures c in s.spans && c in s.screens
    ensures var sp := s.spans[c];
      && sp.snap <= |s.texts| && sp.join <= |s.fanned| && Within(SentLive(s, c), |s.texts|)
      && s.screens[c] == Replay(s.capacity, s.texts, sp.snap) + sp.marker + Sent(s.texts, SentLive(s, c))
      && sp.marker <= EXIT_MARKER
      && (!sp.late ==> s.screens[c] == Screen(s.capacity, s.texts, sp.snap, SentLive(s, c)))
  {
    ReachableHasInv(s);
    var sp := s.spans[c];
    assert Shows(s.capacity, s.texts, s.fanned, s.screens[c], sp);
    var live, replay := Sent(s.texts, SentLive(s, c)), Replay(s.capacity, s.texts, sp.snap);
    assert live[..|live|] == live;
    assert replay + [] == replay;
  }

  // The client has been registered, and may have left or failed since.
  predicate Joined(s: System, c: SubId) {
    c in s.spans && (s.spans[c].stage.Live? || s.spans[c].stage.Gone?)
  }

  // One that has left, or whose writer has failed, has been sent the beginning of what it would have
  // been sent otherwise, its replay included.
  lemma ScreenOfClient(s: System, c: SubId)
    requires Reachable(s) && Joined(s, c)
    ensures c in s.screens
    ensures var sp := s.spans[c];
      && sp.snap <= |s.texts| && sp.join <= |s.fanned| && Within(SentLive(s, c), |s.texts|)
      && Replay(s.capacity, s.texts, sp.snap) + sp.marker <= s.screens[c]
      && s.screens[c] <= Replay(s.capacity, s.texts, sp.snap) + sp.marker + Sent(s.texts, SentLive(s, c))
  {
    ReachableHasInv(s);
    assert c in s.screens.Keys;
    var sp := s.spans[c];
    assert Shows(s.capacity, s.texts, s.fanned, s.screens[c], sp);
    PrefixOfReceived(Head(s.capacity, s.texts, sp.snap, sp.marker), Sent(s.texts, SentLive(s, c)), sp.got);
  }

  lemma PrefixOfReceived(head: Bytes, live: Bytes, got: nat)
    requires got <= |live|
    ensures head <= head + live[..got] <= head + live
  {
    assert live == live[..got] + live[got..];
    Assoc(head, live[..got], live[got..]);
  }

  // Whatever the broadcasts contain, a client from before the exit sees a stretch of the log if
  // and only if those fanned out for it are the ones written since its snapshot, in written order.
  lemma ScreenIsGaplessIff(s: System, c: SubId)
    requires Reachable(s) && c in s.subs
    ensures c in s.spans && c in s.screens
    ensures !s.spans[c].late ==> s.screens[c] == Screen(s.capacity, s.texts, s.spans[c].snap, SentLive(s, c))
    ensures (forall texts: seq<Bytes> ::
               |texts| == |s.texts| ==> Gapless(s.capacity, texts, s.spans[c].snap, SentLive(s, c)))
       <==> InSequence(SentLive(s, c), s.spans[c].snap)
  {
    ScreenOfSubscriber(s, c);
    var snap, ids := s.spans[c].snap, SentLive(s, c);
    if InSequence(ids, snap) {
      assert ids != [] ==> ids[|ids| - 1] == snap + |ids| - 1;
      forall texts: seq<Bytes> | |texts| == |s.texts| ensures Gapless(s.capacity, texts, snap, ids) {
        SequenceIsGapless(s.capacity, texts, snap, ids);
      }
    }
    if forall texts: seq<Bytes> :: |texts| == |s.texts| ==> Gapless(s.capacity, texts, snap, ids) {
      GaplessIsSequence(s.capacity, |s.texts|, snap, ids);
    }
  }

  // The broadcasts that the snapshot holds are exactly those fanned out before the registration.
  ghost predicate NothingStraddles(s: System, c: SubId)
    requires c in s.spans && s.spans[c].join <= |s.fanned|
  {
    forall b: nat :: b < |s.texts| ==> (b in s.fanned[..s.spans[c].join] <==> b < s.spans[c].snap)
  }

  ghost predicate Increasing(ids: seq<nat>) {
    forall i, j :: 0 <= i < j < |ids| ==> ids[i] < ids[j]
  }

  // The only increasing list of the numbers from a up to b is the range.
  lemma {:induction false} IncreasingIsSequence(ids: seq<nat>, a: nat, b: nat)
    requires a <= b && Increasing(ids)
    requires forall x: nat :: x in ids <==> a <= x < b
    ensures |ids| == b - a && InSequence(ids, a)
    decreases |ids|
  {
    if ids == [] {
      assert a < b ==> a in ids;
    } else {
      var n := |ids| - 1;
      assert ids[n] in ids && b - 1 in ids;
      var k :| 0 <= k <= n && ids[k] == b - 1;
      assert ids[n] == b - 1;
      forall x: nat ensures x in ids[..n] <==> a <= x < b - 1 {
        if a <= x < b - 1 {
          assert x in ids;
          var i :| 0 <= i <= n && ids[i] == x;
          assert ids[..n][i] == x;
        }
        if x in ids[..n] {
          var i :| 0 <= i < n && ids[..n][i] == x;
          assert ids[i] < ids[n] && ids[i] in ids;
        }
      }
      IncreasingIsSequence(ids[..n], a, b - 1);
    }
  }

  lemma StraddleFreeSequence(n: nat, inflight: map<Sender, nat>, fanned: seq<nat>, snap: nat, join: nat)
    requires Ordered(n, inflight, fanned) && inflight == map[] && snap <= n && join <= |fanned|
    ensures (forall b: nat :: b < n ==> (b in fanned[..join] <==> b < snap)) && Increasing(fanned[join..])
       <==> snap + |fanned[join..]| == n && InSequence(fanned[join..], snap)
  {
    var head, tail := fanned[..join], fanned[join..];
    assert fanned == head + tail;
    forall b: nat ensures b in head + tail <==> b < n {
      if b < n {
        assert b in fanned || b in inflight.Values;
      }
    }
    forall i, j | 0 <= i < |head| && 0 <= j < |tail| ensures head[i] != tail[j] {
      assert fanned[i] != fanned[join + j];
    }
    if (forall b: nat :: b < n ==> (b in head <==> b < snap)) && Increasing(tail) {
      forall x: nat ensures x in tail <==> snap <= x < n {
        assert x in head + tail <==> x < n;
        assert x in tail ==> x !in head;
      }
      IncreasingIsSequence(tail, snap, n);
    }
    if snap + |tail| == n && InSequence(tail, snap) {
      forall b: nat | b < n ensures b in head <==> b < snap {
        assert b in head + tail;
        assert b >= snap ==> tail[b - snap] == b;
      }
    }
  }

  lemma CompleteIff(capacity: nat, n: nat, snap: nat, ids: seq<nat>)
    requires snap <= n && Within(ids, n)
    ensures (forall texts: seq<Bytes> :: |texts| == n ==> Complete(capacity, texts, snap, ids))
       <==> snap + |ids| == n && InSequence(ids, snap)
  {
    if snap + |ids| == n && InSequence(ids, snap) {
      forall texts: seq<Bytes> | |texts| == n ensures Complete(capacity, texts, snap, ids) {
        SequenceIsGapless(capacity, texts, snap, ids);
      }
    }
    if forall texts: seq<Bytes> :: |texts| == n ==> Complete(capacity, texts, snap, ids) {
      CompleteIsWholeSequence(capacity, n, snap, ids);
    }
  }

  // With nothing in flight and whatever the broadcasts contain, a client from before the exit sees
  // the log from its replay to the end if and only if the broadcasts written before its snapshot
  // are exactly those fanned out before its registration and the later ones were fanned out in
  // written order.
  lemma ScreenIsCompleteIff(s: System, c: SubId)
    requires Reachable(s) && c in s.subs && s.inflight == map[]
    ensures c in s.spans && s.spans[c].join <= |s.fanned|
    ensures (forall texts: seq<Bytes> ::
               |texts| == |s.texts| ==> Complete(s.capacity, texts, s.spans[c].snap, SentLive(s, c)))
       <==> NothingStraddles(s, c) && Increasing(SentLive(s, c))
    ensures c in s.screens
    ensures NothingStraddles(s, c) && Increasing(SentLive(s, c)) && !s.spans[c].late ==>
              ReplayStart(s.capacity, s.texts, s.spans[c].snap) <= |Log(s.texts)|
              && s.screens[c] == Log(s.texts)[ReplayStart(s.capacity, s.texts, s.spans[c].snap)..]
  {
    ReachableHasInv(s);
    ScreenOfSubscriber(s, c);
    StraddleFreeSequence(|s.texts|, s.inflight, s.fanned, s.spans[c].snap, s.spans[c].join);
    CompleteIff(s.capacity, |s.texts|, s.spans[c].snap, SentLive(s, c));
    if NothingStraddles(s, c) && Increasing(SentLive(s, c)) {
      assert Complete(s.capacity, s.texts, s.spans[c].snap, SentLive(s, c));
    }
  }

  lemma SuffixInSequence(ids: seq<nat>, k: nat)
    requires InSequence(ids, 0) && k <= |ids|
    ensures InSequence(ids[k..], k)
  {
    forall i | 0 <= i < |ids[k..]| ensures ids[k..][i] == k + i {
      assert ids[k..][i] == ids[k + i];
    }
  }

  lemma SequenceStart(ids: seq<nat>, a: nat, b: nat)
    requires InSequence(ids, a)
    ensures InSequence(ids, b) <==> ids == [] || a == b
  {
    if ids != [] {
      assert ids[0] == a + 0;
    }
  }

  // Before the exit everything is fanned out in written order, so a client misses or repeats
  // something just if a broadcast fell between its snapshot and its registration.
  lemma BeforeTheExit(s: System, c: SubId)
    requires Reachable(s) && Joined(s, c) && !s.exited
    ensures !s.spans[c].late
    ensures InSequence(SentLive(s, c), s.spans[c].snap) <==> SentLive(s, c) == [] || s.spans[c].snap == s.spans[c].join
  {
    ReachableHasInv(s);
    ScreenOfClient(s, c);
    SuffixInSequence(s.fanned, s.spans[c].join);
    SequenceStart(SentLive(s, c), s.spans[c].join, s.spans[c].snap);
  }

  // All n broadcasts so far are both in the replay of a client and fanned out.
  ghost predicate Settled(s: System, c: SubId, n: nat) {
    && s.inflight == map[] && |s.texts| == n && |s.fanned| == n
    && AtStage(s, c, Replayed) && s.spans[c].snap == n
  }

  predicate ChecksFor(a: Action, c: SubId) {
    a.Checks? && a.c == c
  }

  // Whatever other clients do, a settled subscription stays settled until something is written.
  lemma StepStaysSettled(s: System, a: Action, c: SubId, n: nat)
    requires Settled(s, c, n) && Step(s, a).Some? && !a.Writes? && !ChecksFor(a, c)
    requires c !in s.subs
    ensures Settled(Step(s, a).value, c, n)
  {
  }

  lemma ReplayedIsNoSubscriber(s: System, c: SubId)
    requires Reachable(s) && AtStage(s, c, Replayed)
    ensures c !in s.subs
  {
    ReachableHasInv(s);
  }

  lemma {:induction false} ExitStays(states: seq<System>, actions: seq<Action>, i: nat, j: nat)
    requires IsRun(states, actions) && i <= j < |states| && states[i].exited
    ensures states[j].exited
    decreases j - i
  {
    if i < j {
      assert Step(states[i], actions[i]) == Some(states[i + 1]);
      ExitStays(states, actions, i + 1, j);
    }
  }

  lemma {:induction false} RunStaysSettled(states: seq<System>, actions: seq<Action>, i: nat, j: nat, c: SubId, n: nat)
    requires IsRun(states, actions) && i <= j < |states| && Settled(states[i], c, n)
    requires forall k :: i <= k < j ==> !actions[k].Writes? && !ChecksFor(actions[k], c)
    ensures Settled(states[j], c, n)
    decreases j - i
  {
    if i < j {
      RunStaysSettled(states, actions, i, j - 1, c, n);
      assert Step(states[j - 1], actions[j - 1]) == Some(states[j]);
      Runs.RunReaches(IsStart, Step, states, actions, j - 1);
      ReplayedIsNoSubscriber(states[j - 1], c);
      StepStaysSettled(states[j - 1], actions[j - 1], c, n);
    }
  }

  // A subscription that no broadcast overlaps: nothing is in flight at the snapshot of c, and until
  // c is registered nothing is written, while other clients may come, go and fail.
  ghost predicate NoOverlap(states: seq<System>, actions: seq<Action>, i: nat, j: nat, c: SubId) {
    && IsRun(states, actions) && i < j < |actions|
    && actions[i] == Snapshots(c) && states[i].inflight == map[]
    && (forall k :: i < k < j ==> !actions[k].Writes? && !ChecksFor(actions[k], c))
    && ChecksFor(actions[j], c) && !states[j].exited
  }

  // It is in step with the log.
  lemma UnoverlappedSubscription(states: seq<System>, actions: seq<Action>, i: nat, j: nat, c: SubId)
    requires NoOverlap(states, actions, i, j, c)
    ensures var s := states[j + 1];
      && c in s.subs && c in s.spans && s.spans[c].stage.Live?
      && s.spans[c].snap == s.spans[c].join == |states[i].texts|
  {
    if states[i].exited {
      ExitStays(states, actions, i, j);
    }
    Runs.RunReaches(IsStart, Step, states, actions, i);
    ReachableHasInv(states[i]);
    assert Step(states[i], actions[i]) == Some(states[i + 1]);
    var n := |states[i].texts|;
    assert Settled(states[i + 1], c, n);
    RunStaysSettled(states, actions, i + 1, j, c, n);
    assert Step(states[j], actions[j]) == Some(states[j + 1]);
  }

  // In particular one that nothing interrupts.
  lemma UndisturbedSubscription(s: System, c: SubId, taken: nat)
    requires Reachable(s) && !s.exited && s.inflight == map[] && c !in s.spans
    ensures var t := SubscribeRun(s, c, taken);
      t.Some? && Reachable(t.value) && c in t.value.subs && c in t.value.spans
      && t.value.spans[c].snap == t.value.spans[c].join
  {
    ReachableHasInv(s);
    assert c !in s.screens;
    var snapped := Step(s, Snapshots(c)).value;
    var checked := Step(snapped, Checks(c, taken)).value;
    Runs.StepIsReachable(IsStart, Step, s, Snapshots(c));
    Runs.StepIsReachable(IsStart, Step, snapped, Checks(c, taken));
    var states: seq<System>, actions: seq<Action> :|
      Runs.IsRun(IsStart, Step, states, actions) && states[|states| - 1] == s;
    var n := |actions|;
    Runs.RunExtends(IsStart, Step, states, actions, Snapshots(c));
    var states1, actions1 := states + [snapped], actions + [Snapshots(c)];
    Runs.RunExtends(IsStart, Step, states1, actions1, Checks(c, taken));
    var states2, actions2 := states1 + [checked], actions1 + [Checks(c, taken)];
    assert states2[n] == s && states2[n + 1] == snapped && states2[n + 2] == checked;
    assert actions2[n] == Snapshots(c) && actions2[n + 1] == Checks(c, taken);
    assert NoOverlap(states2, actions2, n, n + 1, c);
    UnoverlappedSubscription(states2, actions2, n, n + 1, c);
  }

  // Where a registered client joined never changes.
  lemma SpanStays(s: System, a: Action, c: SubId)
    requires Step(s, a).Some? && Joined(s, c)
    ensures var t := Step(s, a).value;
      Joined(t, c) && t.spans[c].snap == s.spans[c].snap && t.spans[c].join == s.spans[c].join
  {
  }

  lemma {:induction false} SpanStaysInRun(states: seq<System>, actions: seq<Action>, i: nat, j: nat, c: SubId)
    requires IsRun(states, actions) && i <= j < |states| && Joined(states[i], c)
    ensures var s, t := states[i], states[j];
      Joined(t, c) && t.spans[c].snap == s.spans[c].snap && t.spans[c].join == s.spans[c].join
    decreases j - i
  {
    if i < j {
      SpanStaysInRun(states, actions, i, j - 1, c);
      assert Step(states[j - 1], actions[j - 1]) == Some(states[j]);
      SpanStays(states[j - 1], actions[j - 1], c);
    }
  }

  // What a client has been sent so far is a stretch too.
  lemma SequenceShowsLog(capacity: nat, texts: seq<Bytes>, snap: nat, ids: seq<nat>, screen: Bytes)
    requires snap + |ids| <= |texts| && InSequence(ids, snap) && screen <= Screen(capacity, texts, snap, ids)
    ensures var from := ReplayStart(capacity, texts, snap);
      && from + |screen| <= |Log(texts)| && screen == Log(texts)[from..from + |screen|]
      && (snap + |ids| == |texts| && screen == Screen(capacity, texts, snap, ids) ==> screen == Log(texts)[from..])
  {
    SequenceIsGapless(capacity, texts, snap, ids);
    var from, whole := ReplayStart(capacity, texts, snap), Screen(capacity, texts, snap, ids);
    assert Log(texts)[from..from + |whole|][..|screen|] == Log(texts)[from..from + |screen|];
  }

  lemma AllSentInOrder(n: nat, inflight: map<Sender, nat>, fanned: seq<nat>, join: nat)
    requires OneByOne(n, inflight, fanned) && join <= |fanned|
    ensures join + |fanned[join..]| <= n && (inflight == map[] ==> join + |fanned[join..]| == n)
  {
  }

  lemma InStepMeansSequence(s: System, c: SubId)
    requires Reachable(s) && Joined(s, c) && !s.exited && s.spans[c].snap == s.spans[c].join
    ensures InSequence(SentLive(s, c), s.spans[c].snap) && s.spans[c].snap + |SentLive(s, c)| <= |s.texts|
    ensures s.inflight == map[] ==> s.spans[c].snap + |SentLive(s, c)| == |s.texts|
  {
    BeforeTheExit(s, c);
    ReachableHasInv(s);
    AllSentInOrder(|s.texts|, s.inflight, s.fanned, s.spans[c].join);
  }

  lemma NotLateMeansNoMarker(s: System, c: SubId)
    requires Reachable(s) && Joined(s, c) && !s.exited && c in s.screens
    ensures s.screens[c] <= Screen(s.capacity, s.texts, s.spans[c].snap, SentLive(s, c))
    ensures c in s.subs ==> s.screens[c] == Screen(s.capacity, s.texts, s.spans[c].snap, SentLive(s, c))
  {
    BeforeTheExit(s, c);
    ScreenOfClient(s, c);
    ReachableHasInv(s);
    assert Shows(s.capacity, s.texts, s.fanned, s.screens[c], s.spans[c]);
    var replay := Replay(s.capacity, s.texts, s.spans[c].snap);
    assert replay + [] == replay;
    if c in s.subs {
      ScreenOfSubscriber(s, c);
    }
  }

  // A client in step with the log has been sent one stretch of it; with nothing in flight it is the
  // log to its end if the client is still there.
  lemma InStepMeansGapless(s: System, c: SubId)
    requires Reachable(s) && Joined(s, c) && !s.exited && c in s.screens && s.spans[c].snap == s.spans[c].join
    ensures var from := ReplayStart(s.capacity, s.texts, s.spans[c].snap);
      && from + |s.screens[c]| <= |Log(s.texts)|
      && s.screens[c] == Log(s.texts)[from..from + |s.screens[c]|]
      && (c in s.subs && s.inflight == map[] ==> s.screens[c] == Log(s.texts)[from..])
  {
    NotLateMeansNoMarker(s, c);
    InStepMeansSequence(s, c);
    SequenceShowsLog(s.capacity, s.texts, s.spans[c].snap, SentLive(s, c), s.screens[c]);
  }

  // So until the exit a client whose subscription no broadcast overlapped has been sent the last
  // capacity bytes from before it joined followed by the output fanned out since, as one stretch of
  // the log. If it has left or failed the stretch ends there; otherwise, with nothing in flight, it
  // is the log to its end.
  lemma SubscriberSeesGaplessOutput(states: seq<System>, actions: seq<Action>, i: nat, j: nat, m: nat, c: SubId)
    requires NoOverlap(states, actions, i, j, c) && j < m < |states| && !states[m].exited
    ensures var s := states[m];
      && c in s.screens && c in s.spans && s.spans[c].snap == |states[i].texts|
      && var from := ReplayStart(s.capacity, s.texts, |states[i].texts|);
      && from + |s.screens[c]| <= |Log(s.texts)|
      && s.screens[c] == Log(s.texts)[from..from + |s.screens[c]|]
      && (c in s.subs && s.inflight == map[] ==> s.screens[c] == Log(s.texts)[from..])
  {
    UnoverlappedSubscription(states, actions, i, j, c);
    SpanStaysInRun(states, actions, j + 1, m, c);
    Runs.RunReaches(IsStart, Step, states, actions, m);
    ScreenOfClient(states[m], c);
    InStepMeansGapless(states[m], c);
  }

  lemma GoneStaysGone(s: System, a: Action, c: SubId)
    requires Step(s, a).Some? && AtStage(s, c, Gone) && c !in s.subs
    ensures var t := Step(s, a).value;
      AtStage(t, c, Gone) && t.screens[c] == s.screens[c] && s.texts <= t.texts
  {
  }

  lemma GoneIsNoSubscriber(s: System, c: SubId)
    requires Reachable(s) && AtStage(s, c, Gone)
    ensures c !in s.subs
  {
    ReachableHasInv(s);
  }

  // Whatever happens afterwards, the exit included, a client that has left or failed is sent nothing more.
  lemma {:induction false} GoneClientKeepsScreen(states: seq<System>, actions: seq<Action>, i: nat, j: nat, c: SubId)
    requires IsRun(states, actions) && i <= j < |states| && AtStage(states[i], c, Gone)
    ensures AtStage(states[j], c, Gone) && states[j].screens[c] == states[i].screens[c]
    ensures states[i].texts <= states[j].texts
    decreases j - i
  {
    if i < j {
      GoneClientKeepsScreen(states, actions, i, j - 1, c);
      assert Step(states[j - 1], actions[j - 1]) == Some(states[j]);
      Runs.RunReaches(IsStart, Step, states, actions, j - 1);
      GoneIsNoSubscriber(states[j - 1], c);
      GoneStaysGone(states[j - 1], actions[j - 1], c);
    }
  }

  // A reachable state with one client: what has been written, what is in flight, and what the client has been sent.
  ghost predicate OneClient(s: Option<System>, exited: bool, texts: seq<Bytes>, inflight: map<Sender, nat>,
                            stage: Stage, screen: Bytes)
  {
    && s.Some? && Reachable(s.value) && s.value.exited == exited && s.value.texts == texts
      && s.value.inflight == inflight
    && 0 in s.value.screens && s.value.screens[0] == screen
    && 0 in s.value.spans && s.value.spans[0].stage == stage && !s.value.spans[0].late
    && (0 in s.value.subs <==> stage.Live?)
  }

  lemma OneSnapshot(s: System)
    requires Reachable(s) && s.spans == map[]
    ensures OneClient(Step(s, Snapshots(0)), s.exited, s.texts, s.inflight, Replayed, s.ring)
  {
    ReachableHasInv(s);
    assert 0 !in s.screens.Keys;
    Runs.StepIsReachable(IsStart, Step, s, Snapshots(0));
  }

  lemma OneCheck(s: Option<System>, texts: seq<Bytes>, inflight: map<Sender, nat>, screen: Bytes)
    requires OneClient(s, false, texts, inflight, Replayed, screen)
    ensures OneClient(Then(s, Checks(0, 0)), false, texts, inflight, Live, screen)
  {
    Runs.StepIsReachable(IsStart, Step, s.value, Checks(0, 0));
  }

  lemma OneExit(s: Option<System>, texts: seq<Bytes>, inflight: map<Sender, nat>, stage: Stage, screen: Bytes)
    requires OneClient(s, false, texts, inflight, stage, screen)
    ensures OneClient(Then(s, Exits), true, texts, inflight, stage, screen)
  {
    Runs.StepIsReachable(IsStart, Step, s.value, Exits);
  }

  lemma OneWrite(s: Option<System>, exited: bool, texts: seq<Bytes>, inflight: map<Sender, nat>, stage: Stage,
                 screen: Bytes, who: Sender, p: Bytes)
    requires OneClient(s, exited, texts, inflight, stage, screen) && who !in inflight && (who == READER || exited)
    ensures OneClient(Then(s, Writes(who, p)), exited, texts + [p], inflight[who := |texts|], stage, screen)
  {
    Runs.StepIsReachable(IsStart, Step, s.value, Writes(who, p));
  }

  lemma OneFanOut(s: Option<System>, exited: bool, texts: seq<Bytes>, inflight: map<Sender, nat>, stage: Stage,
                  screen: Bytes, who: Sender)
    requires OneClient(s, exited, texts, inflight, stage, screen) && who in inflight
    ensures OneClient(Then(s, FansOut(who, map[])), exited, texts, inflight - {who}, stage,
                      if stage.Live? then screen + Text(texts, inflight[who]) else screen)
  {
    Runs.StepIsReachable(IsStart, Step, s.value, FansOut(who, map[]));
    var p := Text(texts, inflight[who]);
    assert p[..|p|] == p;
  }

  // A client replays the log between the write of a broadcast and its fan-out.
  function RepeatingRun(capacity: nat, x: Bytes): Option<System> {
    var subscribed := Then(Then(Step(Start(capacity), Writes(READER, x)), Snapshots(0)), Checks(0, 0));
    Then(subscribed, FansOut(READER, map[]))
  }

  lemma OverlapRepeats(capacity: nat, x: Bytes)
    requires |x| <= capacity
    ensures OneClient(RepeatingRun(capacity, x), false, [x], map[], Live, x + x) && Log([x]) == x
  {
    var start := Start(capacity);
    Runs.StartIsReachable(IsStart, Step, start);
    Runs.StepIsReachable(IsStart, Step, start, Writes(READER, x));
    var written := Step(start, Writes(READER, x)).value;
    var inflight := map[READER := 0];
    assert [] + x == x && [] + [x] == [x];
    LogGrows([], x);
    OneSnapshot(written);
    OneCheck(Step(written, Snapshots(0)), [x], inflight, x);
    OneFanOut(Then(Step(written, Snapshots(0)), Checks(0, 0)), false, [x], inflight, Live, x, READER);
    assert inflight - {READER} == map[];
  }

  lemma LogOfTwo(x: Bytes, y: Bytes)
    ensures Log([x, y]) == x + y
  {
    assert [] + x == x && [] + [x] == [x] && [x] + [y] == [x, y];
    LogGrows([], x);
    LogGrows([x], y);
  }

  // A broadcast falls between the snapshot of a client and its registration.
  function MissingRun(capacity: nat, x: Bytes, y: Bytes): Option<System> {
    var missed := Then(Then(Step(Start(capacity), Snapshots(0)), Writes(READER, x)), FansOut(READER, map[]));
    Then(Then(Then(missed, Checks(0, 0)), Writes(READER, y)), FansOut(READER, map[]))
  }

  lemma OverlapMisses(capacity: nat, x: Bytes, y: Bytes)
    ensures OneClient(MissingRun(capacity, x, y), false, [x, y], map[], Live, y) && Log([x, y]) == x + y
  {
    var start := Start(capacity);
    Runs.StartIsReachable(IsStart, Step, start);
    var none: map<Sender, nat> := map[];
    OneSnapshot(start);
    var s1 := Step(start, Snapshots(0));
    OneWrite(s1, false, [], none, Replayed, [], READER, x);
    var s2 := Then(s1, Writes(READER, x));
    OneFanOut(s2, false, [] + [x], none[READER := 0], Replayed, [], READER);
    var s3 := Then(s2, FansOut(READER, map[]));
    assert none[READER := 0] - {READER} == none && none[READER := 1] - {READER} == none;
    assert [] + [x] == [x] && [x] + [y] == [x, y] && [] + y == y;
    OneCheck(s3, [x], none, []);
    OneWrite(Then(s3, Checks(0, 0)), false, [x], none, Live, [], READER, y);
    OneFanOut(Then(Then(s3, Checks(0, 0)), Writes(READER, y)), false, [x, y], none[READER := 1], Live, [], READER);
    LogOfTwo(x, y);
  }

  // The reader has still to fan out the last output when the process exits.
  function LastOutputRun(capacity: nat, x: Bytes): Option<System> {
    Then(Then(Then(Step(Start(capacity), Snapshots(0)), Checks(0, 0)), Writes(READER, x)), Exits)
  }

  // The waiter broadcasts m before the reader goes on.
  function OvertakingRun(s: Option<System>, m: Bytes, waiter: Sender): Option<System> {
    Then(Then(Then(s, Writes(waiter, m)), FansOut(waiter, map[])), FansOut(READER, map[]))
  }

  lemma LastOutputInFlight(capacity: nat, x: Bytes)
    ensures OneClient(LastOutputRun(capacity, x), true, [x], map[READER := 0], Live, [])
  {
    var start := Start(capacity);
    Runs.StartIsReachable(IsStart, Step, start);
    var none: map<Sender, nat> := map[];
    OneSnapshot(start);
    var s1 := Step(start, Snapshots(0));
    OneCheck(s1, [], none, []);
    var s2 := Then(s1, Checks(0, 0));
    OneWrite(s2, false, [], none, Live, [], READER, x);
    assert [] + [x] == [x];
    OneExit(Then(s2, Writes(READER, x)), [x], map[READER := 0], Live, []);
  }

  lemma Overtaking(s: Option<System>, x: Bytes, m: Bytes, waiter: Sender)
    requires waiter != READER && OneClient(s, true, [x], map[READER := 0], Live, [])
    ensures OneClient(OvertakingRun(s, m, waiter), true, [x, m], map[], Live, m + x)
  {
    var one: map<Sender, nat> := map[READER := 0];
    OneWrite(s, true, [x], one, Live, [], waiter, m);
    assert [x] + [m] == [x, m] && [] + m == m;
    var written := Then(s, Writes(waiter, m));
    OneFanOut(written, true, [x, m], one[waiter := 1], Live, [], waiter);
    assert one[waiter := 1] - {waiter} == one && one - {READER} == map[];
    OneFanOut(Then(written, FansOut(waiter, map[])), true, [x, m], one, Live, m, READER);
  }

  // So after the exit the marker can overtake the last output of the process.
  lemma MarkerOvertakes(capacity: nat, x: Bytes, waiter: Sender)
    requires waiter != READER
    ensures OneClient(OvertakingRun(LastOutputRun(capacity, x), EXIT_MARKER, waiter), true, [x, EXIT_MARKER], map[],
                      Live, EXIT_MARKER + x)
    ensures Log([x, EXIT_MARKER]) == x + EXIT_MARKER
  {
    LastOutputInFlight(capacity, x);
    Overtaking(LastOutputRun(capacity, x), x, EXIT_MARKER, waiter);
    LogOfTwo(x, EXIT_MARKER);
  }
}
