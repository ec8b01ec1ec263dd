/**
 Replay and fan-out of one terminal under every interleaving of broadcasts and subscriptions
 (internal/webterm/webterm.go). A broadcast first writes the log and later fans out; a subscription
 first replays the log and later registers.
 */
module TerminalProtocol {
  import opened Prelude
  import opened RingBuffer
  import Runs

  type SubId = nat

  // The goroutines that broadcast. Only the reader does before the process has exited.
  type Sender = nat

  const READER: Sender := 0

  // What is broadcast after the exit, and also sent to a client that joins then.
  const EXIT_MARKER: Bytes := "\r\n[process exited]\r\n"

  // As much of p as a writer takes that fails after n bytes.
  function Cut(p: Bytes, n: nat): Bytes {
    if n < |p| then p[..n] else p
  }

  // How far a subscription has come.
  datatype Stage = Replayed | Marked | Live | Gone

  // Broadcasts are numbered in the order in which they write the log. snap counts those in the log
  // when it was replayed, join those fanned out when the client was registered, marker is what a
  // late client has taken of the marker, got the bytes of live output sent to it.
  datatype Span = Span(stage: Stage, snap: nat, join: nat, late: bool, marker: Bytes, got: nat)

  datatype System = System(
    capacity: nat,
    ring: Bytes,
    exited: bool,
    subs: set<SubId>,
    screens: map<SubId, Bytes>,
    // history
    spans: map<SubId, Span>,
    inflight: map<Sender, nat>,
    texts: seq<Bytes>,
    fanned: seq<nat>)

  datatype Action =
    | Writes(who: Sender, p: Bytes)
    | FansOut(who: Sender, fails: map<SubId, nat>)
    | Snapshots(c: SubId)
    | Checks(c: SubId, taken: nat)
    | Registers(c: SubId)
    | Leaves(c: SubId)
    | Exits

  function Start(capacity: nat): System {
    System(capacity, [], false, {}, map[], map[], map[], [], [])
  }

  // How much of p the writer of c takes: all of it, unless it fails before.
  function Taken(p: Bytes, fails: map<SubId, nat>, c: SubId): (n: nat)
    ensures n <= |p|
  {
    if c in fails && fails[c] < |p| then fails[c] else |p|
  }

  // What has been sent once the given subscribers have got p, each as far as its writer took it.
  function Extended(screens: map<SubId, Bytes>, to: set<SubId>, p: Bytes, fails: map<SubId, nat>): map<SubId, Bytes> {
    map c | c in screens :: if c in to then screens[c] + p[..Taken(p, fails, c)] else screens[c]
  }

  function Advanced(spans: map<SubId, Span>, to: set<SubId>, p: Bytes, fails: map<SubId, nat>): map<SubId, Span> {
    map c | c in spans ::
      if c in to then spans[c].(got := spans[c].got + Taken(p, fails, c), stage := if c in fails then Gone else Live)
      else spans[c]
  }

  function Text(texts: seq<Bytes>, b: nat): Bytes {
    if b < |texts| then texts[b] else []
  }

  predicate AtStage(s: System, c: SubId, stage: Stage) {
    c in s.spans && c in s.screens && s.spans[c].stage == stage
  }

  function Register(s: System, c: SubId): System
    requires c in s.spans
  {
    s.(subs := s.subs + {c}, spans := s.spans[c := s.spans[c].(stage := Live, join := |s.fanned|)])
  }

  function SendReplay(s: System, c: SubId): System {
    s.(screens := s.screens[c := s.ring], spans := s.spans[c := Span(Replayed, |s.texts|, 0, false, [], 0)])
  }

  function SendMarker(s: System, c: SubId, marker: Bytes): System
    requires c in s.spans && c in s.screens
  {
    s.(screens := s.screens[c := s.screens[c] + marker],
       spans := s.spans[c := s.spans[c].(stage := Marked, late := true, marker := marker)])
  }

  function Leave(s: System, c: SubId): System
    requires c in s.spans
  {
    s.(subs := s.subs - {c}, spans := s.spans[c := s.spans[c].(stage := Gone)])
  }

  // One critical section, or one write to a client that is not registered yet.
  function Step(s: System, a: Action): Option<System> {
    match a
    case Writes(who, p) =>
      if who in s.inflight || (who != READER && !s.exited) then None
      else Some(s.(ring := LastN(s.capacity, s.ring + p),
                   inflight := s.inflight[who := |s.texts|], texts := s.texts + [p]))
    case FansOut(who, fails) =>
      if who !in s.inflight then None
      else
        var p := Text(s.texts, s.inflight[who]);
        Some(s.(screens := Extended(s.screens, s.subs, p, fails), spans := Advanced(s.spans, s.subs, p, fails),
                subs := s.subs - fails.Keys, inflight := s.inflight - {who}, fanned := s.fanned + [s.inflight[who]]))
    case Snapshots(c) =>
      if c in s.spans || c in s.screens then None
      else Some(SendReplay(s, c))
    case Checks(c, taken) =>
      // A failing write of the marker is ignored.
      if !AtStage(s, c, Replayed) then None
      else if !s.exited then Some(Register(s, c))
      else Some(SendMarker(s, c, Cut(EXIT_MARKER, taken)))
    case Registers(c) =>
      if AtStage(s, c, Marked) then Some(Register(s, c)) else None
    case Leaves(c) =>
      if AtStage(s, c, Live) then Some(Leave(s, c))
      else if AtStage(s, c, Gone) then Some(s)
      else None
    case Exits => if s.exited then None else Some(s.(exited := true))
  }

  function Then(s: Option<System>, a: Action): Option<System> {
    if s.Some? then Step(s.value, a) else None
  }

  // A broadcast and a subscription that nothing interrupts.
  function BroadcastRun(s: System, who: Sender, p: Bytes, fails: map<SubId, nat>): Option<System> {
    Then(Step(s, Writes(who, p)), FansOut(who, fails))
  }

  function SubscribeRun(s: System, c: SubId, taken: nat): Option<System> {
    var checked := Then(Step(s, Snapshots(c)), Checks(c, taken));
    if s.exited then Then(checked, Registers(c)) else checked
  }

  // The bytes of some broadcasts, in the order given.
  function Sent(texts: seq<Bytes>, ids: seq<nat>): Bytes {
    if ids == [] then [] else Sent(texts, ids[..|ids| - 1]) + Text(texts, ids[|ids| - 1])
  }

  function Range(from: nat, to: nat): (ids: seq<nat>)
    requires from <= to
    ensures |ids| == to - from && forall i :: 0 <= i < |ids| ==> ids[i] == from + i
  {
    if from == to then [] else Range(from, to - 1) + [to - 1]
  }

  // Everything ever written, in the order written.
  function Log(texts: seq<Bytes>): Bytes {
    Sent(texts, Range(0, |texts|))
  }

  lemma SentNext(texts: seq<Bytes>, ids: seq<nat>, b: nat)
    ensures Sent(texts, ids + [b]) == Sent(texts, ids) + Text(texts, b)
  {
    FrontOfAppended(ids, b);
  }

  lemma {:induction false} SentConcat(texts: seq<Bytes>, a: seq<nat>, b: seq<nat>)
    ensures Sent(texts, a + b) == Sent(texts, a) + Sent(texts, b)
    decreases |b|
  {
    if b == [] {
      assert a + b == a;
    } else {
      var front, last := b[..|b| - 1], b[|b| - 1];
      assert a + b == (a + front) + [last];
      SentNext(texts, a + front, last);
      SentConcat(texts, a, front);
      Assoc(Sent(texts, a), Sent(texts, front), Text(texts, last));
    }
  }

  ghost predicate Within(ids: seq<nat>, n: nat) {
    forall i :: 0 <= i < |ids| ==> ids[i] < n
  }

  // Later broadcasts do not change what earlier ones have sent.
  lemma {:induction false} SentStays(texts: seq<Bytes>, p: Bytes, ids: seq<nat>)
    requires Within(ids, |texts|)
    ensures Sent(texts + [p], ids) == Sent(texts, ids)
    decreases |ids|
  {
    if ids != [] {
      SentStays(texts, p, ids[..|ids| - 1]);
    }
  }

  lemma LogGrows(texts: seq<Bytes>, p: Bytes)
    ensures Log(texts + [p]) == Log(texts) + p
  {
    SentNext(texts + [p], Range(0, |texts|), |texts|);
    SentStays(texts, p, Range(0, |texts|));
  }

  // What a client is sent first when the log holds the first snap broadcasts.
  function Replay(capacity: nat, texts: seq<Bytes>, snap: nat): Bytes {
    LastN(capacity, Sent(texts, Range(0, snap)))
  }

  // After head a client has been sent the broadcasts fanned out since it was registered, as far as
  // its writer took them.
  ghost predicate Received(texts: seq<Bytes>, fanned: seq<nat>, head: Bytes, screen: Bytes, join: nat, got: nat) {
    join <= |fanned| &&
    var live := Sent(texts, fanned[join..]);
    got <= |live| && screen == head + live[..got]
  }

  // Nothing that has been fanned out for a client is still to come.
  ghost predicate UpToDate(texts: seq<Bytes>, fanned: seq<nat>, join: nat, got: nat) {
    join <= |fanned| && got == |Sent(texts, fanned[join..])|
  }

  function Head(capacity: nat, texts: seq<Bytes>, snap: nat, marker: Bytes): Bytes {
    Replay(capacity, texts, snap) + marker
  }

  // A client has been sent what its span asks for.
  ghost predicate Shows(capacity: nat, texts: seq<Bytes>, fanned: seq<nat>, screen: Bytes, sp: Span) {
    && sp.snap <= |texts|
    && sp.marker <= EXIT_MARKER && (!sp.late ==> sp.marker == [])
    && (sp.stage.Replayed? ==> !sp.late)
    && (sp.stage.Marked? ==> sp.late)
    && (sp.stage.Replayed? || sp.stage.Marked? ==> screen == Head(capacity, texts, sp.snap, sp.marker) && sp.got == 0)
    && (sp.stage.Live? || sp.stage.Gone?
      ==> Received(texts, fanned, Head(capacity, texts, sp.snap, sp.marker), screen, sp.join, sp.got))
    && (sp.stage.Live? ==> UpToDate(texts, fanned, sp.join, sp.got))
  }

  ghost predicate LogInv(s: System) {
    s.ring == LastN(s.capacity, Log(s.texts))
  }

  // Of n broadcasts each is fanned out once or still in flight.
  ghost predicate Ordered(n: nat, inflight: map<Sender, nat>, fanned: seq<nat>) {
    && Within(fanned, n)
    && (forall i, j :: 0 <= i < j < |fanned| ==> fanned[i] != fanned[j])
    && (forall who :: who in inflight ==> inflight[who] < n && inflight[who] !in fanned)
    && (forall who, to :: who in inflight && to in inflight && inflight[who] == inflight[to] ==> who == to)
    && (forall b: nat :: b < n ==> b in fanned || b in inflight.Values)
  }

  ghost predicate InSequence(ids: seq<nat>, from: nat) {
    forall i :: 0 <= i < |ids| ==> ids[i] == from + i
  }

  // While the reader alone broadcasts, it does so one text after the other.
  ghost predicate OneByOne(n: nat, inflight: map<Sender, nat>, fanned: seq<nat>) {
    && (forall who :: who in inflight ==> who == READER && inflight[who] == |fanned|)
    && InSequence(fanned, 0)
    && n == |fanned| + (if READER in inflight then 1 else 0)
  }

  // Nobody is late before the exit.
  ghost predicate EarlyInv(s: System) {
    !s.exited ==> forall c :: c in s.spans ==> !s.spans[c].late
  }

  ghost predicate ClientInv(s: System) {
    && s.spans.Keys == s.screens.Keys
    && (forall c :: c in s.subs <==> c in s.spans && s.spans[c].stage.Live?)
    && (forall c :: c in s.spans ==> Shows(s.capacity, s.texts, s.fanned, s.screens[c], s.spans[c]))
  }

  ghost predicate OrderInv(s: System) {
    Ordered(|s.texts|, s.inflight, s.fanned) && (!s.exited ==> OneByOne(|s.texts|, s.inflight, s.fanned))
  }

  ghost predicate Inv(s: System) {
    LogInv(s) && OrderInv(s) && EarlyInv(s) && ClientInv(s)
  }

  lemma StepKeepsLogInv(s: System, a: Action)
    requires LogInv(s) && Step(s, a).Some?
    ensures LogInv(Step(s, a).value)
  {
    if a.Writes? {
      LogGrows(s.texts, a.p);
      TrimThenAppend(s.capacity, Log(s.texts), a.p);
    }
  }

  lemma WriteKeepsOrdered(n: nat, inflight: map<Sender, nat>, fanned: seq<nat>, who: Sender)
    requires Ordered(n, inflight, fanned) && who !in inflight
    ensures Ordered(n + 1, inflight[who := n], fanned)
  {
    var after := inflight[who := n];
    assert after[who] == n;
    forall b: nat | b < n + 1 ensures b in fanned || b in after.Values {
      if b < n && b !in fanned {
        var other :| other in inflight && inflight[other] == b;
        assert after[other] == b;
      }
    }
  }

  lemma FanOutKeepsOrdered(n: nat, inflight: map<Sender, nat>, fanned: seq<nat>, who: Sender)
    requires Ordered(n, inflight, fanned) && who in inflight
    ensures Ordered(n, inflight - {who}, fanned + [inflight[who]])
  {
    var after, done := inflight - {who}, fanned + [inflight[who]];
    assert done[|fanned|] == inflight[who];
    forall b: nat | b < n ensures b in done || b in after.Values {
      if b in fanned {
        var i :| 0 <= i < |fanned| && fanned[i] == b;
        assert done[i] == b;
      } else if b != inflight[who] {
        var other :| other in inflight && inflight[other] == b;
        assert other in after && after[other] == b;
      }
    }
  }

  lemma StepKeepsOrder(s: System, a: Action)
    requires OrderInv(s) && Step(s, a).Some?
    ensures OrderInv(Step(s, a).value)
  {
    match a
    case Writes(who, _) => WriteKeepsOrdered(|s.texts|, s.inflight, s.fanned, who);
    case FansOut(who, _) => FanOutKeepsOrdered(|s.texts|, s.inflight, s.fanned, who);
    case _ =>
  }

  lemma StepKeepsEarly(s: System, a: Action)
    requires EarlyInv(s) && Step(s, a).Some?
    ensures EarlyInv(Step(s, a).value)
  {
  }

  lemma WriteKeepsShown(capacity: nat, texts: seq<Bytes>, fanned: seq<nat>, screen: Bytes, sp: Span, p: Bytes)
    requires Shows(capacity, texts, fanned, screen, sp) && Within(fanned, |texts|)
    ensures Shows(capacity, texts + [p], fanned, screen, sp)
  {
    SentStays(texts, p, Range(0, sp.snap));
    if sp.join <= |fanned| {
      SentStays(texts, p, fanned[sp.join..]);
    }
  }

  // One more broadcast fanned out: what has been received stays, and a client that takes n bytes of
  // it has received those too.
  lemma ReceivedGrows(texts: seq<Bytes>, fanned: seq<nat>, head: Bytes, screen: Bytes, join: nat, got: nat, b: nat,
      n: nat)
    requires Received(texts, fanned, head, screen, join, got) && n <= |Text(texts, b)|
    ensures Received(texts, fanned + [b], head, screen, join, got)
    ensures UpToDate(texts, fanned, join, got) ==>
              && Received(texts, fanned + [b], head, screen + Text(texts, b)[..n], join, got + n)
              && (n == |Text(texts, b)| ==> UpToDate(texts, fanned + [b], join, got + n))
  {
    var live, p := Sent(texts, fanned[join..]), Text(texts, b);
    assert (fanned + [b])[join..] == fanned[join..] + [b];
    SentNext(texts, fanned[join..], b);
    assert (live + p)[..got] == live[..got];
    if got == |live| {
      assert (live + p)[..got + n] == live + p[..n] && live[..got] == live;
      Assoc(head, live, p[..n]);
    }
  }

  lemma WriteKeepsClients(s: System, a: Action)
    requires Inv(s) && Step(s, a).Some? && a.Writes?
    ensures ClientInv(Step(s, a).value)
  {
    var t := Step(s, a).value;
    forall c | c in t.spans ensures Shows(t.capacity, t.texts, t.fanned, t.screens[c], t.spans[c]) {
      WriteKeepsShown(s.capacity, s.texts, s.fanned, s.screens[c], s.spans[c], a.p);
    }
  }

  lemma LiveAfterFanOut(capacity: nat, texts: seq<Bytes>, fanned: seq<nat>, screen: Bytes, sp: Span, b: nat, n: nat,
      failed: bool)
    requires Shows(capacity, texts, fanned, screen, sp) && sp.stage.Live?
    requires n <= |Text(texts, b)| && (!failed ==> n == |Text(texts, b)|)
    ensures Shows(capacity, texts, fanned + [b], screen + Text(texts, b)[..n],
                  sp.(got := sp.got + n, stage := if failed then Gone else Live))
  {
    ReceivedGrows(texts, fanned, Head(capacity, texts, sp.snap, sp.marker), screen, sp.join, sp.got, b, n);
  }

  lemma OthersAfterFanOut(capacity: nat, texts: seq<Bytes>, fanned: seq<nat>, screen: Bytes, sp: Span, b: nat)
    requires Shows(capacity, texts, fanned, screen, sp) && !sp.stage.Live?
    ensures Shows(capacity, texts, fanned + [b], screen, sp)
  {
    if sp.stage.Gone? {
      ReceivedGrows(texts, fanned, Head(capacity, texts, sp.snap, sp.marker), screen, sp.join, sp.got, b, 0);
    }
  }

  lemma ClientAfterFanOut(capacity: nat, texts: seq<Bytes>, fanned: seq<nat>, subs: set<SubId>,
                          screens: map<SubId, Bytes>,
                          spans: map<SubId, Span>, b: nat, fails: map<SubId, nat>, c: SubId)
    requires c in screens && c in spans && Shows(capacity, texts, fanned, screens[c], spans[c])
    requires c in subs <==> spans[c].stage.Live?
    ensures Shows(capacity, texts, fanned + [b], Extended(screens, subs, Text(texts, b), fails)[c],
                  Advanced(spans, subs, Text(texts, b), fails)[c])
  {
    if c in subs {
      LiveAfterFanOut(capacity, texts, fanned, screens[c], spans[c], b, Taken(Text(texts, b), fails, c), c in fails);
    } else {
      OthersAfterFanOut(capacity, texts, fanned, screens[c], spans[c], b);
    }
  }

  lemma FanOutKeepsClients(s: System, who: Sender, fails: map<SubId, nat>)
    requires Inv(s) && who in s.inflight
    ensures ClientInv(Step(s, FansOut(who, fails)).value)
  {
    var b := s.inflight[who];
    var sent, reached := Extended(s.screens, s.subs, Text(s.texts, b), fails),
        Advanced(s.spans, s.subs, Text(s.texts, b), fails);
    forall c | c in reached ensures Shows(s.capacity, s.texts, s.fanned + [b], sent[c], reached[c]) {
      ClientAfterFanOut(s.capacity, s.texts, s.fanned, s.subs, s.screens, s.spans, b, fails, c);
    }
  }

  // Only client c is affected: it has been sent screen and has come as far as sp.
  ghost predicate OnlyClient(s: System, t: System, c: SubId, screen: Bytes, sp: Span) {
    && t.texts == s.texts && t.fanned == s.fanned && t.capacity == s.capacity
    && c in t.spans && t.spans[c] == sp && c in t.screens && t.screens[c] == screen
    && (c in t.subs <==> sp.stage.Live?)
    && (forall d :: d != c ==>
          (d in t.spans <==> d in s.spans) && (d in t.screens <==> d in s.screens) && (d in t.subs <==> d in s.subs))
    && (forall d :: d != c && d in s.spans ==> t.spans[d] == s.spans[d])
    && (forall d :: d != c && d in s.screens ==> t.screens[d] == s.screens[d])
  }

  lemma OneClientChanges(s: System, t: System, c: SubId, screen: Bytes, sp: Span)
    requires ClientInv(s) && OnlyClient(s, t, c, screen, sp)
    requires Shows(s.capacity, s.texts, s.fanned, screen, sp)
    ensures ClientInv(t)
  {
    forall d ensures d in t.spans.Keys <==> d in t.screens.Keys {
      assert d in s.spans.Keys <==> d in s.screens.Keys;
    }
    assert t.spans.Keys == t.screens.Keys;
    forall d | d in t.spans ensures Shows(s.capacity, s.texts, s.fanned, t.screens[d], t.spans[d]) {
      if d != c {
        assert Shows(s.capacity, s.texts, s.fanned, s.screens[d], s.spans[d]);
      }
    }
  }

  lemma JoinedShows(capacity: nat, texts: seq<Bytes>, fanned: seq<nat>, screen: Bytes, sp: Span)
    requires Shows(capacity, texts, fanned, screen, sp) && (sp.stage.Replayed? || sp.stage.Marked?)
    ensures Shows(capacity, texts, fanned, screen, sp.(stage := Live, join := |fanned|))
  {
    var none: Bytes := [];
    assert fanned[|fanned|..] == [];
    assert none[..0] == none && screen + none == screen;
  }

  lemma RegisterKeepsClients(s: System, c: SubId)
    requires ClientInv(s) && (AtStage(s, c, Replayed) || AtStage(s, c, Marked))
    ensures ClientInv(Register(s, c))
  {
    JoinedShows(s.capacity, s.texts, s.fanned, s.screens[c], s.spans[c]);
    OneClientChanges(s, Register(s, c), c, s.screens[c], s.spans[c].(stage := Live, join := |s.fanned|));
  }

  lemma SnapshotKeepsClients(s: System, c: SubId)
    requires LogInv(s) && ClientInv(s) && c !in s.spans
    ensures ClientInv(SendReplay(s, c))
  {
    var sp := Span(Replayed, |s.texts|, 0, false, [], 0);
    assert s.ring + [] == s.ring;
    assert Shows(s.capacity, s.texts, s.fanned, s.ring, sp);
    OneClientChanges(s, SendReplay(s, c), c, s.ring, sp);
  }

  lemma MarkedShows(capacity: nat, texts: seq<Bytes>, fanned: seq<nat>, screen: Bytes, sp: Span, marker: Bytes)
    requires Shows(capacity, texts, fanned, screen, sp) && sp.stage.Replayed? && marker <= EXIT_MARKER
    ensures Shows(capacity, texts, fanned, screen + marker, sp.(stage := Marked, late := true, marker := marker))
  {
    var replay := Replay(capacity, texts, sp.snap);
    assert replay + [] == replay;
  }

  lemma MarkerKeepsClients(s: System, c: SubId, marker: Bytes)
    requires ClientInv(s) && AtStage(s, c, Replayed) && marker <= EXIT_MARKER
    ensures ClientInv(SendMarker(s, c, marker))
  {
    MarkedShows(s.capacity, s.texts, s.fanned, s.screens[c], s.spans[c], marker);
    OneClientChanges(s, SendMarker(s, c, marker), c, s.screens[c] + marker,
                     s.spans[c].(stage := Marked, late := true, marker := marker));
  }

  lemma GoneShows(capacity: nat, texts: seq<Bytes>, fanned: seq<nat>, screen: Bytes, sp: Span)
    requires Shows(capacity, texts, fanned, screen, sp) && sp.stage.Live?
    ensures Shows(capacity, texts, fanned, screen, sp.(stage := Gone))
  {
  }

  lemma LeaveKeepsClients(s: System, c: SubId)
    requires ClientInv(s) && AtStage(s, c, Live)
    ensures ClientInv(Leave(s, c))
  {
    GoneShows(s.capacity, s.texts, s.fanned, s.screens[c], s.spans[c]);
    OneClientChanges(s, Leave(s, c), c, s.screens[c], s.spans[c].(stage := Gone));
  }

  lemma OneClientStepKeepsClients(s: System, a: Action)
    requires LogInv(s) && ClientInv(s) && Step(s, a).Some? && (a.Snapshots? || a.Checks? || a.Registers? || a.Leaves?)
    ensures ClientInv(Step(s, a).value)
  {
    match a
    case Snapshots(c) => SnapshotKeepsClients(s, c);
    case Checks(c, taken) =>
      if s.exited {
        MarkerKeepsClients(s, c, Cut(EXIT_MARKER, taken));
      } else {
        RegisterKeepsClients(s, c);
      }
    case Registers(c) => RegisterKeepsClients(s, c);
    case Leaves(c) =>
      if s.spans[c].stage.Live? {
        LeaveKeepsClients(s, c);
      }
  }

  lemma StepKeepsClients(s: System, a: Action)
    requires Inv(s) && Step(s, a).Some?
    ensures ClientInv(Step(s, a).value)
  {
    match a
    case Writes(_, _) => WriteKeepsClients(s, a);
    case FansOut(who, fails) => FanOutKeepsClients(s, who, fails);
    case Exits =>
    case _ => OneClientStepKeepsClients(s, a);
  }

  lemma {:induction false} StepKeepsInv(s: System, a: Action)
    requires Inv(s) && Step(s, a).Some?
    ensures Inv(Step(s, a).value)
  {
    StepKeepsLogInv(s, a);
    StepKeepsOrder(s, a);
    StepKeepsEarly(s, a);
    StepKeepsClients(s, a);
  }

  predicate IsStart(s: System) {
    s == Start(s.capacity)
  }

  ghost predicate IsRun(states: seq<System>, actions: seq<Action>) {
    Runs.IsRun(IsStart, Step, states, actions)
  }

  ghost predicate Reachable(s: System) {
    Runs.Reachable(IsStart, Step, s)
  }

  lemma ReachableHasInv(s: System)
    requires Reachable(s)
    ensures Inv(s)
  {
    forall t, a | Inv(t) && Step(t, a).Some? ensures Inv(Step(t, a).value) {
      StepKeepsInv(t, a);
    }
    Runs.InvariantReached(IsStart, Step, t => Inv(t), s);
  }
}
