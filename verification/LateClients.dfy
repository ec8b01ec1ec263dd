/**
 How often a client is shown a broadcast, and so the exit marker (internal/webterm/webterm.go). The
 marker is written to the log, fanned out, and sent once more to a client that joins after the exit.
 Since different broadcasts may hold the same bytes, what is counted is where each byte comes from.
 */
module LateClients {
  import opened Prelude
  import opened RingBuffer
  import opened TerminalProtocol
  import opened GaplessReplay
  import Runs

  // A byte of a broadcast, or of the marker as it is sent to a late client.
  datatype Origin = Broadcast(id: nat, offset: nat) | Explicit(offset: nat)

  // The origins of the first n bytes of a broadcast, and of the explicit marker.
  function BytesOf(b: nat, n: nat): (os: seq<Origin>)
    ensures |os| == n && forall i :: 0 <= i < n ==> os[i] == Broadcast(b, i)
  {
    if n == 0 then [] else BytesOf(b, n - 1) + [Broadcast(b, n - 1)]
  }

  function MarkerBytes(n: nat): (os: seq<Origin>)
    ensures |os| == n && forall i :: 0 <= i < n ==> os[i] == Explicit(i)
  {
    if n == 0 then [] else MarkerBytes(n - 1) + [Explicit(n - 1)]
  }

  // Where the bytes of some broadcasts come from, in the order sent.
  function Origins(texts: seq<Bytes>, ids: seq<nat>): seq<Origin> {
    if ids == [] then []
    else
      var last := ids[|ids| - 1];
      Origins(texts, ids[..|ids| - 1]) + BytesOf(last, |Text(texts, last)|)
  }

  // What a registered client has been shown, byte by byte: its replay, what it took of the marker,
  // and the output fanned out since.
  function ScreenOrigins(s: System, c: SubId): seq<Origin>
    requires c in s.spans
  {
    LastN(s.capacity, Origins(s.texts, Range(0, s.spans[c].snap))) + MarkerBytes(|s.spans[c].marker|)
    + Origins(s.texts, SentLive(s, c))
  }

  ghost predicate ComesFrom(texts: seq<Bytes>, o: Origin, y: char) {
    match o
    case Broadcast(b, k) => b < |texts| && k < |texts[b]| && texts[b][k] == y
    case Explicit(k) => k < |EXIT_MARKER| && EXIT_MARKER[k] == y
  }

  ghost predicate Explains(texts: seq<Bytes>, os: seq<Origin>, p: Bytes) {
    |os| == |p| && forall i :: 0 <= i < |p| ==> ComesFrom(texts, os[i], p[i])
  }

  lemma ExplainsConcat(texts: seq<Bytes>, os: seq<Origin>, p: Bytes, more: seq<Origin>, q: Bytes)
    requires Explains(texts, os, p) && Explains(texts, more, q)
    ensures Explains(texts, os + more, p + q)
  {
  }

  lemma ExplainsLast(texts: seq<Bytes>, os: seq<Origin>, p: Bytes, n: nat)
    requires Explains(texts, os, p)
    ensures Explains(texts, LastN(n, os), LastN(n, p))
  {
  }

  lemma {:induction false} OriginsExplain(texts: seq<Bytes>, ids: seq<nat>)
    requires Within(ids, |texts|)
    ensures Explains(texts, Origins(texts, ids), Sent(texts, ids))
    decreases |ids|
  {
    if ids != [] {
      var front, last := ids[..|ids| - 1], ids[|ids| - 1];
      OriginsExplain(texts, front);
      ExplainsConcat(texts, Origins(texts, front), Sent(texts, front), BytesOf(last, |texts[last]|), texts[last]);
    }
  }

  function Once(b: bool): nat {
    if b then 1 else 0
  }

  // How often x occurs in s.
  function Count<T(==)>(s: seq<T>, x: T): nat {
    if s == [] then 0 else Count(s[..|s| - 1], x) + Once(s[|s| - 1] == x)
  }

  lemma AppendLast<T>(a: seq<T>, b: seq<T>)
    requires b != []
    ensures a + b == (a + b[..|b| - 1]) + [b[|b| - 1]]
  {
  }

  lemma {:induction false} CountOfConcat<T>(a: seq<T>, b: seq<T>, x: T)
    ensures Count(a + b, x) == Count(a, x) + Count(b, x)
  {
    if b == [] {
      assert a + b == a;
    } else {
      var front, last := b[..|b| - 1], b[|b| - 1];
      AppendLast(a, b);
      FrontOfAppended(a + front, last);
      CountOfConcat(a, front, x);
    }
  }

  lemma {:induction false} OccurrenceCounts<T>(s: seq<T>, i: nat, x: T)
    requires i < |s| && s[i] == x
    ensures Count(s, x) >= 1
  {
    if i < |s| - 1 {
      OccurrenceCounts(s[..|s| - 1], i, x);
    }
  }

  lemma SplitAt<T>(s: seq<T>, q: nat)
    requires q <= |s|
    ensures s == s[..q] + s[q..]
  {
  }

  // What occurs once is among the last n elements if it is not further from the end.
  lemma CountOfLast<T>(n: nat, s: seq<T>, i: nat, x: T)
    requires i < |s| && s[i] == x && Count(s, x) == 1
    ensures Count(LastN(n, s), x) == Once(|s| - i <= n)
  {
    if |s| > n {
      var q := |s| - n;
      SplitAt(s, q);
      CountOfConcat(s[..q], s[q..], x);
      if q <= i {
        OccurrenceCounts(s[q..], i - q, x);
      } else {
        OccurrenceCounts(s[..q], i, x);
      }
    }
  }

  lemma CountOfNone<T>(n: nat, s: seq<T>, x: T)
    requires Count(s, x) == 0
    ensures Count(LastN(n, s), x) == 0
  {
    if |s| > n {
      SplitAt(s, |s| - n);
      CountOfConcat(s[..|s| - n], s[|s| - n..], x);
    }
  }

  lemma {:induction false} CountOfBytes(b: nat, n: nat, m: nat, k: nat)
    ensures Count(BytesOf(b, n), Broadcast(m, k)) == Once(b == m && k < n)
    ensures Count(BytesOf(b, n), Explicit(k)) == 0
  {
    if n > 0 {
      CountOfBytes(b, n - 1, m, k);
      FrontOfAppended(BytesOf(b, n - 1), Broadcast(b, n - 1));
    }
  }

  lemma {:induction false} CountOfMarkerBytes(n: nat, m: nat, k: nat)
    ensures Count(MarkerBytes(n), Explicit(k)) == Once(k < n)
    ensures Count(MarkerBytes(n), Broadcast(m, k)) == 0
  {
    if n > 0 {
      CountOfMarkerBytes(n - 1, m, k);
      FrontOfAppended(MarkerBytes(n - 1), Explicit(n - 1));
    }
  }

  lemma {:induction false} CountOfOrigins(texts: seq<Bytes>, ids: seq<nat>, m: nat, k: nat)
    requires m < |texts| && k < |texts[m]| && NoDuplicates(ids)
    ensures Count(Origins(texts, ids), Broadcast(m, k)) == Once(m in ids)
    ensures Count(Origins(texts, ids), Explicit(k)) == 0
    decreases |ids|
  {
    if ids != [] {
      var front, last := ids[..|ids| - 1], ids[|ids| - 1];
      var bytes := BytesOf(last, |Text(texts, last)|);
      CountOfOrigins(texts, front, m, k);
      CountOfBytes(last, |Text(texts, last)|, m, k);
      CountOfConcat(Origins(texts, front), bytes, Broadcast(m, k));
      CountOfConcat(Origins(texts, front), bytes, Explicit(k));
      assert ids == front + [last];
    }
  }

  lemma {:induction false} OriginsConcat(texts: seq<Bytes>, a: seq<nat>, b: seq<nat>)
    ensures Origins(texts, a + b) == Origins(texts, a) + Origins(texts, b)
    decreases |b|
  {
    if b == [] {
      assert a + b == a;
    } else {
      var front, last := b[..|b| - 1], b[|b| - 1];
      AppendLast(a, b);
      FrontOfAppended(a + front, last);
      OriginsConcat(texts, a, front);
      Assoc(Origins(texts, a), Origins(texts, front), BytesOf(last, |Text(texts, last)|));
    }
  }

  lemma {:induction false} OriginsLength(texts: seq<Bytes>, ids: seq<nat>)
    ensures |Origins(texts, ids)| == |Sent(texts, ids)|
    decreases |ids|
  {
    if ids != [] {
      OriginsLength(texts, ids[..|ids| - 1]);
    }
  }

  lemma OriginsOfOne(texts: seq<Bytes>, m: nat)
    requires m < |texts|
    ensures Origins(texts, Range(m, m + 1)) == BytesOf(m, |texts[m]|)
  {
    var none: seq<nat> := [];
    assert Range(m, m + 1) == none + [m];
    FrontOfAppended(none, m);
    assert Origins(texts, none) == [];
  }

  lemma AtMiddle<T>(a: seq<T>, p: seq<T>, b: seq<T>, k: nat)
    requires k < |p|
    ensures |a| + k < |a + (p + b)| && (a + (p + b))[|a| + k] == p[k]
  {
  }

  // Where a byte of broadcast m stands among the first snap.
  lemma OriginAt(texts: seq<Bytes>, m: nat, k: nat, snap: nat)
    requires m < snap <= |texts| && k < |texts[m]|
    ensures var before, early := |Origins(texts, Range(0, m))|, Origins(texts, Range(0, snap));
      && |early| == before + |Sent(texts, Range(m, snap))|
      && before + k < |early| && early[before + k] == Broadcast(m, k)
  {
    RangeSplits(0, m, snap);
    OriginsConcat(texts, Range(0, m), Range(m, snap));
    OriginsLength(texts, Range(m, snap));
    RangeSplits(m, m + 1, snap);
    OriginsConcat(texts, Range(m, m + 1), Range(m + 1, snap));
    OriginsOfOne(texts, m);
    AtMiddle(Origins(texts, Range(0, m)), BytesOf(m, |texts[m]|), Origins(texts, Range(m + 1, snap)), k);
  }

  // The replay of the first snap broadcasts reaches back to offset k of broadcast m.
  predicate Replays(capacity: nat, texts: seq<Bytes>, snap: nat, m: nat, k: nat) {
    m < snap && |Sent(texts, Range(m, snap))| <= capacity + k
  }

  lemma RangeHasNoDuplicates(from: nat, to: nat)
    requires from <= to
    ensures NoDuplicates(Range(from, to))
    ensures forall m: nat :: m in Range(from, to) <==> from <= m < to
  {
    var ids := Range(from, to);
    forall m: nat | from <= m < to ensures m in ids {
      assert ids[m - from] == m;
    }
    forall m: nat | m in ids ensures from <= m < to {
      var i :| 0 <= i < |ids| && ids[i] == m;
    }
  }

  lemma ReplayExplained(capacity: nat, texts: seq<Bytes>, snap: nat)
    requires snap <= |texts|
    ensures Explains(texts, LastN(capacity, Origins(texts, Range(0, snap))), Replay(capacity, texts, snap))
  {
    OriginsExplain(texts, Range(0, snap));
    ExplainsLast(texts, Origins(texts, Range(0, snap)), Sent(texts, Range(0, snap)), capacity);
  }

  lemma CountOfEarly(texts: seq<Bytes>, snap: nat, m: nat, k: nat)
    requires m < |texts| && k < |texts[m]| && snap <= |texts|
    ensures Count(Origins(texts, Range(0, snap)), Broadcast(m, k)) == Once(m < snap)
    ensures Count(Origins(texts, Range(0, snap)), Explicit(k)) == 0
  {
    RangeHasNoDuplicates(0, snap);
    CountOfOrigins(texts, Range(0, snap), m, k);
  }

  // A replay holds a byte once if it reaches back to it, whatever else the log holds.
  lemma CountOfReplay(capacity: nat, texts: seq<Bytes>, snap: nat, m: nat, k: nat)
    requires m < |texts| && k < |texts[m]| && snap <= |texts|
    ensures var os := LastN(capacity, Origins(texts, Range(0, snap)));
      && Explains(texts, os, Replay(capacity, texts, snap))
      && Count(os, Broadcast(m, k)) == Once(Replays(capacity, texts, snap, m, k))
      && Count(os, Explicit(k)) == 0
  {
    var early := Origins(texts, Range(0, snap));
    ReplayExplained(capacity, texts, snap);
    CountOfEarly(texts, snap, m, k);
    CountOfNone(capacity, early, Explicit(k));
    if m < snap {
      OriginAt(texts, m, k, snap);
      CountOfLast(capacity, early, |Origins(texts, Range(0, m))| + k, Broadcast(m, k));
    } else {
      CountOfNone(capacity, early, Broadcast(m, k));
    }
  }

  lemma SuffixHasNoDuplicates<T>(s: seq<T>, k: nat)
    requires NoDuplicates(s) && k <= |s|
    ensures NoDuplicates(s[k..])
  {
    var t := s[k..];
    forall i, j | 0 <= i < j < |t| ensures t[i] != t[j] {
      assert t[i] == s[k + i] && t[j] == s[k + j];
    }
  }

  lemma NeverSentTwice(s: System, c: SubId)
    requires Reachable(s) && c in s.spans
    ensures NoDuplicates(SentLive(s, c)) && NoDuplicates(s.fanned)
  {
    ReachableHasInv(s);
    assert NoDuplicates(s.fanned);
    if s.spans[c].join <= |s.fanned| {
      SuffixHasNoDuplicates(s.fanned, s.spans[c].join);
    }
  }

  lemma MarkerExplained(texts: seq<Bytes>, marker: Bytes)
    requires marker <= EXIT_MARKER
    ensures Explains(texts, MarkerBytes(|marker|), marker)
  {
  }

  lemma ThreeParts(a: seq<Origin>, b: seq<Origin>, c: seq<Origin>, o: Origin)
    ensures Count(a + b + c, o) == Count(a, o) + Count(b, o) + Count(c, o)
  {
    CountOfConcat(a, b, o);
    CountOfConcat(a + b, c, o);
  }

  // Whatever has been output, a registered client has been shown a byte of a broadcast once if its
  // replay reaches back to it, once more if the broadcast was fanned out after its registration,
  // and one of the explicit marker once if it was late and took that much of it.
  lemma ShownThreeWays(s: System, c: SubId, m: nat, k: nat)
    requires Reachable(s) && c in s.subs && m < |s.texts| && k < |s.texts[m]|
    ensures c in s.spans && c in s.screens && Explains(s.texts, ScreenOrigins(s, c), s.screens[c])
    ensures Count(ScreenOrigins(s, c), Broadcast(m, k))
         == Once(Replays(s.capacity, s.texts, s.spans[c].snap, m, k)) + Once(m in SentLive(s, c))
    ensures Count(ScreenOrigins(s, c), Explicit(k)) == Once(k < |s.spans[c].marker|)
  {
    ScreenOfSubscriber(s, c);
    NeverSentTwice(s, c);
    var sp, ids := s.spans[c], SentLive(s, c);
    var early, marker := LastN(s.capacity, Origins(s.texts, Range(0, sp.snap))), MarkerBytes(|sp.marker|);
    CountOfReplay(s.capacity, s.texts, sp.snap, m, k);
    CountOfMarkerBytes(|sp.marker|, m, k);
    CountOfOrigins(s.texts, ids, m, k);
    ThreeParts(early, marker, Origins(s.texts, ids), Broadcast(m, k));
    ThreeParts(early, marker, Origins(s.texts, ids), Explicit(k));
    OriginsExplain(s.texts, ids);
    MarkerExplained(s.texts, sp.marker);
    ExplainsConcat(s.texts, early, Replay(s.capacity, s.texts, sp.snap), marker, sp.marker);
    ExplainsConcat(s.texts, early + marker, Replay(s.capacity, s.texts, sp.snap) + sp.marker, Origins(s.texts, ids),
                   Sent(s.texts, ids));
  }

  // How often a client is shown byte k of the marker, which is broadcast m.
  function MarkerShown(s: System, c: SubId, m: nat, k: nat): nat
    requires c in s.spans
  {
    Count(ScreenOrigins(s, c), Broadcast(m, k)) + Count(ScreenOrigins(s, c), Explicit(k))
  }

  // So a late client that takes the whole marker is shown it once if and only if the broadcast of
  // the marker came after its replay, or has dropped out of the log, and was fanned out before its
  // registration. It is shown it three times if neither holds, and otherwise twice.
  lemma MarkerShownOnceIff(s: System, c: SubId, m: nat, k: nat)
    requires Reachable(s) && c in s.subs && m < |s.texts| && s.texts[m] == EXIT_MARKER && k < |EXIT_MARKER|
    requires c in s.spans && s.spans[c].marker == EXIT_MARKER
    ensures c in s.screens && Explains(s.texts, ScreenOrigins(s, c), s.screens[c])
    ensures var replayed, live := Replays(s.capacity, s.texts, s.spans[c].snap, m, k), m in SentLive(s, c);
      && (MarkerShown(s, c, m, k) == 1 <==> !replayed && !live)
      && (MarkerShown(s, c, m, k) == 3 <==> replayed && live)
      && 1 <= MarkerShown(s, c, m, k) <= 3
  {
    ShownThreeWays(s, c, m, k);
  }

  lemma SentOne(texts: seq<Bytes>, m: nat)
    requires m < |texts|
    ensures Sent(texts, Range(m, m + 1)) == texts[m]
  {
    var none: seq<nat> := [];
    assert Range(m, m + 1) == none + [m];
    SentNext(texts, none, m);
    assert Sent(texts, none) == [];
  }

  lemma SentFrom(texts: seq<Bytes>, m: nat, snap: nat)
    requires m < snap <= |texts|
    ensures Sent(texts, Range(m, snap)) == texts[m] + Sent(texts, Range(m + 1, snap))
  {
    SentSplits(texts, m, m + 1, snap);
    SentOne(texts, m);
  }

  lemma LastNKeepsEnd<T>(n: nat, s: seq<T>, a: seq<T>, b: seq<T>)
    requires s == a + b && |b| <= n
    ensures LastN(n, s) == LastN(n - |b|, a) + b
  {
  }

  lemma ReplayKeepsEnd(capacity: nat, texts: seq<Bytes>, snap: nat, m: nat)
    requires m < snap <= |texts| && |Sent(texts, Range(m, snap))| <= capacity
    ensures Replay(capacity, texts, snap)
         == LastN(capacity - |Sent(texts, Range(m, snap))|, Sent(texts, Range(0, m))) + Sent(texts, Range(m, snap))
  {
    SentSplits(texts, 0, m, snap);
    LastNKeepsEnd(capacity, Sent(texts, Range(0, snap)), Sent(texts, Range(0, m)), Sent(texts, Range(m, snap)));
  }

  lemma ReplayHoldsWhole(capacity: nat, texts: seq<Bytes>, snap: nat, m: nat)
    requires snap <= |texts| && Replays(capacity, texts, snap, m, 0)
    ensures Replay(capacity, texts, snap)
         == LastN(capacity - |Sent(texts, Range(m, snap))|, Sent(texts, Range(0, m)))
            + (texts[m] + Sent(texts, Range(m + 1, snap)))
  {
    ReplayKeepsEnd(capacity, texts, snap, m);
    SentFrom(texts, m, snap);
  }

  lemma FannedBefore(s: System, c: SubId, m: nat)
    requires Reachable(s) && c in s.spans && s.spans[c].join <= |s.fanned| && m in s.fanned[..s.spans[c].join]
    ensures m !in SentLive(s, c)
  {
    NeverSentTwice(s, c);
    var join, ids := s.spans[c].join, SentLive(s, c);
    var i :| 0 <= i < join && s.fanned[..join][i] == m;
    forall j | 0 <= j < |ids| ensures ids[j] != m {
      assert ids[j] == s.fanned[join + j] && s.fanned[i] == m;
    }
  }

  // A client that joins when the marker has been fanned out, and while it is still in the log, is
  // shown all of it twice, whatever has been output before and in between.
  lemma UsuallyShownTwice(s: System, c: SubId, m: nat)
    requires Reachable(s) && c in s.subs && m < |s.texts| && s.texts[m] == EXIT_MARKER
    requires c in s.spans && s.spans[c].marker == EXIT_MARKER && s.spans[c].join <= |s.fanned|
    requires m in s.fanned[..s.spans[c].join] && Replays(s.capacity, s.texts, s.spans[c].snap, m, 0)
    ensures forall k: nat :: k < |EXIT_MARKER| ==> MarkerShown(s, c, m, k) == 2
    ensures c in s.screens
    ensures var snap := s.spans[c].snap;
      snap <= |s.texts| && s.screens[c]
        == LastN(s.capacity - |Sent(s.texts, Range(m, snap))|, Sent(s.texts, Range(0, m)))
           + (EXIT_MARKER + Sent(s.texts, Range(m + 1, snap))) + EXIT_MARKER + Sent(s.texts, SentLive(s, c))
  {
    ScreenOfSubscriber(s, c);
    FannedBefore(s, c, m);
    ReplayHoldsWhole(s.capacity, s.texts, s.spans[c].snap, m);
    forall k: nat | k < |EXIT_MARKER| ensures MarkerShown(s, c, m, k) == 2 {
      MarkerShownOnceIff(s, c, m, k);
    }
  }

  lemma StepReaches(s: System, a: Action) returns (t: System)
    requires Reachable(s) && Step(s, a).Some?
    ensures Reachable(t) && Step(s, a) == Some(t)
  {
    t := Step(s, a).value;
    Runs.StepIsReachable(IsStart, Step, s, a);
  }

  // The process has exited and the marker is in the log but still to be fanned out.
  lemma MarkerWritten(capacity: nat, waiter: Sender) returns (s: System)
    requires |EXIT_MARKER| <= capacity
    ensures Reachable(s) && s.exited && s.ring == EXIT_MARKER && s.texts == [EXIT_MARKER]
    ensures s.inflight == map[waiter := 0] && s.spans == map[] && s.screens == map[] && s.subs == {}
  {
    s := Start(capacity);
    Runs.StartIsReachable(IsStart, Step, s);
    s := StepReaches(s, Exits);
    s := StepReaches(s, Writes(waiter, EXIT_MARKER));
    assert [] + EXIT_MARKER == EXIT_MARKER;
  }

  lemma LateClientJoins(s: System, c: SubId) returns (t: System)
    requires Reachable(s) && s.exited && c !in s.spans && c !in s.screens
    ensures Reachable(t) && t.exited && t.texts == s.texts && t.inflight == s.inflight
    ensures t.subs == s.subs + {c} && c in t.spans && t.spans[c].marker == EXIT_MARKER
    ensures t.screens == s.screens[c := s.ring + EXIT_MARKER]
  {
    t := StepReaches(s, Snapshots(c));
    t := StepReaches(t, Checks(c, |EXIT_MARKER|));
    t := StepReaches(t, Registers(c));
  }

  // For instance with no other output, if a client joins after all that is over.
  lemma ShownTwice(capacity: nat, waiter: Sender, c: SubId) returns (s: System)
    requires |EXIT_MARKER| <= capacity
    ensures Reachable(s) && c in s.subs && s.inflight == map[] && s.texts == ["\r\n[process exited]\r\n"]
    ensures c in s.screens && s.screens[c] == "\r\n[process exited]\r\n" + "\r\n[process exited]\r\n"
  {
    s := MarkerWritten(capacity, waiter);
    s := StepReaches(s, FansOut(waiter, map[]));
    s := LateClientJoins(s, c);
  }

  // One that joins while the marker is still to be fanned out is shown it three times.
  lemma ShownThreeTimes(capacity: nat, waiter: Sender, c: SubId) returns (s: System)
    requires |EXIT_MARKER| <= capacity
    ensures Reachable(s) && c in s.subs && s.inflight == map[] && s.texts == ["\r\n[process exited]\r\n"]
    ensures c in s.screens && s.screens[c] ==
            "\r\n[process exited]\r\n" + "\r\n[process exited]\r\n" + "\r\n[process exited]\r\n"
  {
    s := MarkerWritten(capacity, waiter);
    s := LateClientJoins(s, c);
    assert Text(s.texts, 0) == EXIT_MARKER && EXIT_MARKER[..|EXIT_MARKER|] == EXIT_MARKER;
    s := StepReaches(s, FansOut(waiter, map[]));
  }
}
