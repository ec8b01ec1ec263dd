/** Detecting done and question transitions (internal/notify/notify.go). */
module NotifyStore {
  import opened Prelude
  import EventLog

  datatype Session = Session(id: string, state: EventLog.State, title: string)

  // "done", "question" or "" in the source.
  datatype Kind = DoneKind | QuestionKind | Quiet

  type Snapshot = map<string, Kind>

  datatype Event = Event(id: string, kind: Kind, title: string, sound: string)

  function NotifiableState(s: EventLog.State): Kind {
    match s case Done => DoneKind case Waiting => QuestionKind case _ => Quiet
  }

  function Sound(k: Kind): string {
    match k case DoneKind => "Tink" case QuestionKind => "Funk" case Quiet => ""
  }

  function Ids(batch: seq<Session>): set<string> {
    set s | s in batch :: s.id
  }

  // What a batch says about each of its sessions; a later entry overrides an earlier one.
  function States(batch: seq<Session>): Snapshot {
    if batch == [] then map[]
    else States(batch[..|batch| - 1])[batch[|batch| - 1].id := NotifiableState(batch[|batch| - 1].state)]
  }

  // Is the i-th entry of the batch a transition, given what was recorded before it?
  predicate Fires(snap: Snapshot, batch: seq<Session>, i: nat)
    requires i < |batch|
  {
    var known := snap + States(batch[..i]);
    var s := batch[i];
    s.id in known && known[s.id] != NotifiableState(s.state) && NotifiableState(s.state) != Quiet
  }

  function EventOf(s: Session): Event {
    Event(s.id, NotifiableState(s.state), s.title, Sound(NotifiableState(s.state)))
  }

  // The events of a batch, in batch order.
  function EventsOf(snap: Snapshot, batch: seq<Session>): seq<Event> {
    if batch == [] then []
    else
      var n := |batch| - 1;
      EventsOf(snap, batch[..n]) + if Fires(snap, batch, n) then [EventOf(batch[n])] else []
  }

  lemma {:induction false} StatesCoverBatch(batch: seq<Session>)
    ensures States(batch).Keys == Ids(batch)
    decreases |batch|
  {
    if batch != [] {
      var n := |batch| - 1;
      StatesCoverBatch(batch[..n]);
      assert batch == batch[..n] + [batch[n]];
    }
  }

  lemma DiffStep(entries: Snapshot, batch: seq<Session>, i: nat)
    requires i < |batch|
    ensures var s, snap := batch[i], entries + States(batch[..i]);
      var cur := NotifiableState(s.state);
      && entries + States(batch[..i + 1]) == snap[s.id := cur]
      && EventsOf(entries, batch[..i + 1]) ==
         EventsOf(entries, batch[..i]) + if s.id in snap && snap[s.id] != cur && cur != Quiet then [EventOf(s)] else []
  {
    assert batch[..i + 1][..i] == batch[..i];
  }

  // The scan over the batch: record every state and collect the transitions.
  method Diff(entries: Snapshot, batch: seq<Session>) returns (snap: Snapshot, events: seq<Event>)
    ensures snap == entries + States(batch)
    ensures events == EventsOf(entries, batch)
  {
    snap, events := entries, [];
    for i := 0 to |batch|
      invariant snap == entries + States(batch[..i])
      invariant events == EventsOf(entries, batch[..i])
    {
      var s := batch[i];
      DiffStep(entries, batch, i);
      assert events + [] == events;
      var cur := NotifiableState(s.state);
      if s.id !in snap {
        snap := snap[s.id := cur];
        continue;
      }
      var prev := snap[s.id];
      if cur == prev {
        assert snap == snap[s.id := cur];
        continue;
      }
      snap := snap[s.id := cur];
      if cur == Quiet {
        continue;
      }
      events := events + [Event(s.id, cur, s.title, Sound(cur))];
    }
    assert batch[..|batch|] == batch;
  }

  // Forget the sessions that the batch does not mention.
  method Prune(snap: Snapshot, batch: seq<Session>) returns (kept: Snapshot)
    ensures kept == map id | id in snap && id in Ids(batch) :: snap[id]
  {
    var seen: set<string> := {};
    for i := 0 to |batch|
      invariant seen == Ids(batch[..i])
    {
      assert batch[..i + 1] == batch[..i] + [batch[i]];
      seen := seen + {batch[i].id};
    }
    assert batch[..|batch|] == batch;
    kept := map id | id in snap && id in seen :: snap[id];
  }

  /** The snapshot on disk, read, compared and rewritten under its lock. */
  class Store {
    var entries: Snapshot

    // When the save fails the stored snapshot stays as it was, but the events are still returned.
    method DiffAndUpdate(batch: seq<Session>, saveFails: bool) returns (events: seq<Event>, saved: bool)
      modifies this
      ensures saved <==> !saveFails
      ensures entries == if saved then States(batch) else old(entries)
      ensures events == EventsOf(old(entries), batch)
    {
      var snap;
      snap, events := Diff(entries, batch);
      StatesCoverBatch(batch);
      snap := Prune(snap, batch);
      assert snap == States(batch);
      saved := !saveFails;
      if saved {
        entries := snap;
      }
    }
  }

  // Entries of a session within a batch agree on what there is to notify.
  ghost predicate AgreesOn(batch: seq<Session>, id: string) {
    forall i, j :: 0 <= i < j < |batch| && batch[i].id == batch[j].id == id ==>
      NotifiableState(batch[i].state) == NotifiableState(batch[j].state)
  }

  function CountFor(events: seq<Event>, id: string): nat {
    if events == [] then 0
    else CountFor(events[..|events| - 1], id) + if events[|events| - 1].id == id then 1 else 0
  }

  // The transition that a whole batch amounts to for one session.
  predicate Transition(snap: Snapshot, batch: seq<Session>, id: string) {
    id in snap && id in States(batch) && snap[id] != States(batch)[id] && States(batch)[id] != Quiet
  }

  // What a batch says about one session, entry by entry.
  function KindsOf(batch: seq<Session>, id: string): seq<Kind> {
    if batch == [] then []
    else
      var last := batch[|batch| - 1];
      KindsOf(batch[..|batch| - 1], id) + if last.id == id then [NotifiableState(last.state)] else []
  }

  function Recorded(snap: Snapshot, id: string): Option<Kind> {
    if id in snap then Some(snap[id]) else None
  }

  // What is recorded after the entries ks.
  function Latest(before: Option<Kind>, ks: seq<Kind>): Option<Kind> {
    if ks == [] then before else Some(ks[|ks| - 1])
  }

  predicate Enters(before: Option<Kind>, k: Kind) {
    before.Some? && before.value != k && k != Quiet
  }

  // How many of the entries ks are transitions.
  function Entries(before: Option<Kind>, ks: seq<Kind>): nat {
    if ks == [] then 0
    else
      var front := ks[..|ks| - 1];
      Entries(before, front) + if Enters(Latest(before, front), ks[|ks| - 1]) then 1 else 0
  }

  lemma {:induction false} StatesAreLatest(snap: Snapshot, batch: seq<Session>, id: string)
    ensures Recorded(snap + States(batch), id) == Latest(Recorded(snap, id), KindsOf(batch, id))
    ensures id in States(batch) <==> KindsOf(batch, id) != []
    decreases |batch|
  {
    if batch != [] {
      StatesAreLatest(snap, batch[..|batch| - 1], id);
    }
  }

  // A session's events depend on its own entries only.
  lemma {:induction false} EventsAreEntries(snap: Snapshot, batch: seq<Session>, id: string)
    ensures CountFor(EventsOf(snap, batch), id) == Entries(Recorded(snap, id), KindsOf(batch, id))
    decreases |batch|
  {
    if batch != [] {
      var n := |batch| - 1;
      var front, last := batch[..n], batch[n];
      EventsAreEntries(snap, front, id);
      StatesAreLatest(snap, front, id);
      var events, ks := EventsOf(snap, front), KindsOf(front, id);
      if Fires(snap, batch, n) {
        CountOfNext(events, EventOf(last), id);
      } else {
        assert EventsOf(snap, batch) == events;
      }
      if last.id == id {
        EntriesOfNext(Recorded(snap, id), ks, NotifiableState(last.state));
        assert Fires(snap, batch, n) <==> Enters(Recorded(snap + States(front), id), NotifiableState(last.state));
      } else {
        assert KindsOf(batch, id) == ks;
      }
    }
  }

  lemma CountOfNext(events: seq<Event>, e: Event, id: string)
    ensures CountFor(events + [e], id) == CountFor(events, id) + if e.id == id then 1 else 0
  {
    FrontOfAppended(events, e);
  }

  lemma EntriesOfNext(before: Option<Kind>, ks: seq<Kind>, k: Kind)
    ensures Entries(before, ks + [k]) == Entries(before, ks) + if Enters(Latest(before, ks), k) then 1 else 0
  {
    FrontOfAppended(ks, k);
  }

  ghost predicate AllSame(ks: seq<Kind>) {
    forall i, j :: 0 <= i < j < |ks| ==> ks[i] == ks[j]
  }

  lemma {:induction false} SameKindsEnterOnce(before: Option<Kind>, ks: seq<Kind>)
    requires AllSame(ks)
    ensures Entries(before, ks) == if ks != [] && Enters(before, ks[|ks| - 1]) then 1 else 0
  {
    if ks != [] {
      SameKindsEnterOnce(before, ks[..|ks| - 1]);
    }
  }

  lemma {:induction false} LeavingQuietIsAnEntry(ks: seq<Kind>)
    requires ks != [] && ks[|ks| - 1] != Quiet
    ensures Entries(Some(Quiet), ks) >= 1
  {
    var front := ks[..|ks| - 1];
    if front != [] && front[|front| - 1] != Quiet {
      LeavingQuietIsAnEntry(front);
    }
  }

  // Entries that disagree show up as a wrong count from one of two snapshots.
  lemma {:induction false} MiscountUnlessSame(ks: seq<Kind>)
    requires Entries(None, ks) == 0
    requires Entries(Some(Quiet), ks) == if ks != [] && ks[|ks| - 1] != Quiet then 1 else 0
    ensures AllSame(ks)
  {
    if |ks| > 1 {
      var front, k := ks[..|ks| - 1], ks[|ks| - 1];
      if front[|front| - 1] != Quiet {
        LeavingQuietIsAnEntry(front);
      }
      assert front[|front| - 1] == k;
      MiscountUnlessSame(front);
    }
  }

  lemma {:induction false} KindOccurs(batch: seq<Session>, id: string, i: nat)
    requires i < |batch| && batch[i].id == id
    ensures NotifiableState(batch[i].state) in KindsOf(batch, id)
    decreases |batch|
  {
    if i < |batch| - 1 {
      KindOccurs(batch[..|batch| - 1], id, i);
    }
  }

  lemma {:induction false} KindStems(batch: seq<Session>, id: string, k: Kind) returns (i: nat)
    requires k in KindsOf(batch, id)
    ensures i < |batch| && batch[i].id == id && NotifiableState(batch[i].state) == k
    decreases |batch|
  {
    var n := |batch| - 1;
    if k in KindsOf(batch[..n], id) {
      i := KindStems(batch[..n], id, k);
    } else {
      i := n;
    }
  }

  lemma SameKindsMeansAgreement(batch: seq<Session>, id: string)
    ensures AllSame(KindsOf(batch, id)) <==> AgreesOn(batch, id)
  {
    var ks := KindsOf(batch, id);
    if AllSame(ks) {
      forall i, j | 0 <= i < j < |batch| && batch[i].id == batch[j].id == id
        ensures NotifiableState(batch[i].state) == NotifiableState(batch[j].state)
      {
        KindOccurs(batch, id, i);
        KindOccurs(batch, id, j);
      }
    }
    if AgreesOn(batch, id) {
      forall i, j | 0 <= i < j < |ks| ensures ks[i] == ks[j] {
        var p := KindStems(batch, id, ks[i]);
        var q := KindStems(batch, id, ks[j]);
      }
    }
  }

  // What the batch as a whole says about a session is its last entry.
  lemma StatesOfBatch(batch: seq<Session>, id: string)
    ensures Recorded(States(batch), id) == Latest(None, KindsOf(batch, id))
  {
    var none: Snapshot := map[];
    StatesAreLatest(none, batch, id);
    assert none + States(batch) == States(batch);
  }

  // However often a session occurs in a batch, it fires once if it made a transition and never otherwise.
  lemma OneEventPerTransition(snap: Snapshot, batch: seq<Session>, id: string)
    requires AgreesOn(batch, id)
    ensures CountFor(EventsOf(snap, batch), id) == if Transition(snap, batch, id) then 1 else 0
  {
    EventsAreEntries(snap, batch, id);
    SameKindsMeansAgreement(batch, id);
    SameKindsEnterOnce(Recorded(snap, id), KindsOf(batch, id));
    StatesOfBatch(batch, id);
  }

  lemma AgreementIfNeverMiscounted(batch: seq<Session>, id: string)
    requires forall snap: Snapshot ::
               CountFor(EventsOf(snap, batch), id) == if Transition(snap, batch, id) then 1 else 0
    ensures AgreesOn(batch, id)
  {
    var unseen, quiet: Snapshot := map[], map[id := Quiet];
    assert CountFor(EventsOf(unseen, batch), id) == 0;
    assert CountFor(EventsOf(quiet, batch), id) == if Transition(quiet, batch, id) then 1 else 0;
    EventsAreEntries(unseen, batch, id);
    EventsAreEntries(quiet, batch, id);
    StatesOfBatch(batch, id);
    MiscountUnlessSame(KindsOf(batch, id));
    SameKindsMeansAgreement(batch, id);
  }

  // From every snapshot a session fires once if the batch is a transition for it and never
  // otherwise: exactly when the batch does not contradict itself about that session.
  lemma FiresOnceIffAgreeing(batch: seq<Session>, id: string)
    ensures (forall snap: Snapshot ::
               CountFor(EventsOf(snap, batch), id) == if Transition(snap, batch, id) then 1 else 0)
            <==> AgreesOn(batch, id)
  {
    if AgreesOn(batch, id) {
      forall snap: Snapshot
        ensures CountFor(EventsOf(snap, batch), id) == if Transition(snap, batch, id) then 1 else 0
      {
        OneEventPerTransition(snap, batch, id);
      }
    } else if forall snap: Snapshot ::
                CountFor(EventsOf(snap, batch), id) == if Transition(snap, batch, id) then 1 else 0 {
      AgreementIfNeverMiscounted(batch, id);
      assert false;
    }
  }

  // Each event reports the state that its batch gives the session.
  lemma {:induction false} EventsReportTheBatch(snap: Snapshot, batch: seq<Session>, e: Event)
    requires AgreesOn(batch, e.id) && e in EventsOf(snap, batch)
    ensures e.id in States(batch) && e.kind == States(batch)[e.id] && e.sound == Sound(e.kind)
    ensures exists s :: s in batch && s.id == e.id && s.title == e.title && NotifiableState(s.state) == e.kind
    decreases |batch|
  {
    var n := |batch| - 1;
    var front := batch[..n];
    if e in EventsOf(snap, front) {
      EventsReportTheBatch(snap, front, e);
      var s :| s in front && s.id == e.id && s.title == e.title && NotifiableState(s.state) == e.kind;
      assert s in batch;
      if batch[n].id == e.id {
        StatesOfBatch(front, e.id);
        SameKindsMeansAgreement(batch, e.id);
        var ks := KindsOf(front, e.id);
        assert KindsOf(batch, e.id) == ks + [NotifiableState(batch[n].state)];
        assert KindsOf(batch, e.id)[|ks| - 1] == KindsOf(batch, e.id)[|ks|];
      }
    } else {
      assert e == EventOf(batch[n]) && batch[n] in batch;
    }
  }

  // One call by some observer; the lock puts the calls of all observers in one order.
  datatype Poll = Poll(observer: nat, batch: seq<Session>, saved: bool)

  // The snapshot left behind by a run of polls.
  function Stored(initial: Snapshot, polls: seq<Poll>): Snapshot {
    if polls == [] then initial
    else
      var last := polls[|polls| - 1];
      if last.saved then States(last.batch) else Stored(initial, polls[..|polls| - 1])
  }

  // The events that the i-th poll of a run returns.
  function PollEvents(initial: Snapshot, polls: seq<Poll>, i: nat): seq<Event>
    requires i < |polls|
  {
    EventsOf(Stored(initial, polls[..i]), polls[i].batch)
  }

  // Poll k is the last one before the i-th whose save succeeded; -1 says that there was none.
  ghost predicate LastSavedBefore(polls: seq<Poll>, i: nat, k: int) {
    && -1 <= k < i <= |polls|
    && (k >= 0 ==> polls[k].saved)
    && (forall j :: k < j < i ==> !polls[j].saved)
  }

  function SavedAt(initial: Snapshot, polls: seq<Poll>, k: int): Snapshot
    requires -1 <= k < |polls|
  {
    if k < 0 then initial else States(polls[k].batch)
  }

  lemma {:induction false} LastSavedExists(polls: seq<Poll>, i: nat) returns (k: int)
    requires i <= |polls|
    ensures LastSavedBefore(polls, i, k)
  {
    if i == 0 {
      k := -1;
    } else if polls[i - 1].saved {
      k := i - 1;
    } else {
      k := LastSavedExists(polls, i - 1);
    }
  }

  lemma {:induction false} StoredIsLastSaved(initial: Snapshot, polls: seq<Poll>, i: nat, k: int)
    requires i <= |polls| && LastSavedBefore(polls, i, k)
    ensures Stored(initial, polls[..i]) == SavedAt(initial, polls, k)
  {
    if k < i - 1 {
      assert polls[..i][..i - 1] == polls[..i - 1];
      StoredIsLastSaved(initial, polls, i - 1, k);
    }
  }

  // Over any run of polls by any observers: an event fires for a session exactly when the last saved
  // poll, whoever made it, saw that session in another state and it is now done or has a question,
  // and then it fires once.
  lemma PollsFireOnTransitions(initial: Snapshot, polls: seq<Poll>, i: nat, k: int, id: string)
    requires i < |polls| && LastSavedBefore(polls, i, k) && AgreesOn(polls[i].batch, id)
    ensures CountFor(PollEvents(initial, polls, i), id)
         == if Transition(SavedAt(initial, polls, k), polls[i].batch, id) then 1 else 0
  {
    StoredIsLastSaved(initial, polls, i, k);
    OneEventPerTransition(Stored(initial, polls[..i]), polls[i].batch, id);
  }

  // A session that is not in the last saved snapshot never fires, and neither does one that has
  // the state recorded there.
  lemma NoFloodAndNoRepeat(initial: Snapshot, polls: seq<Poll>, i: nat, k: int, id: string)
    requires i < |polls| && LastSavedBefore(polls, i, k) && AgreesOn(polls[i].batch, id)
    requires var known, cur := SavedAt(initial, polls, k), States(polls[i].batch);
             id !in known || (id in cur && cur[id] == known[id])
    ensures CountFor(PollEvents(initial, polls, i), id) == 0
  {
    PollsFireOnTransitions(initial, polls, i, k, id);
  }

  // Every poll from i to j says the same about the session, without contradicting itself.
  ghost predicate SameReport(polls: seq<Poll>, i: nat, j: nat, id: string) {
    i <= j < |polls| && forall m :: i <= m <= j ==>
      AgreesOn(polls[m].batch, id) && Recorded(States(polls[m].batch), id) == Recorded(States(polls[i].batch), id)
  }

  // While a session keeps its state, what fired once fires again at every poll until one is saved.
  lemma FiresAgainUntilSaved(initial: Snapshot, polls: seq<Poll>, i: nat, j: nat, id: string)
    requires SameReport(polls, i, j, id)
    ensures CountFor(PollEvents(initial, polls, j), id)
         == if exists m :: i <= m < j && polls[m].saved then 0 else CountFor(PollEvents(initial, polls, i), id)
  {
    var k := LastSavedExists(polls, j);
    PollsFireOnTransitions(initial, polls, j, k, id);
    if k < i {
      PollsFireOnTransitions(initial, polls, i, k, id);
    } else {
      assert polls[k].saved;
    }
  }

  // So one failed save is enough for two notifications of one transition.
  lemma FailedSaveFiresTwice(id: string, title: string)
    ensures var batch := [Session(id, EventLog.Done, title)];
      var polls := [Poll(0, batch, false), Poll(1, batch, true)];
      && CountFor(PollEvents(map[id := Quiet], polls, 0), id) == 1
      && CountFor(PollEvents(map[id := Quiet], polls, 1), id) == 1
  {
    var batch := [Session(id, EventLog.Done, title)];
    var polls := [Poll(0, batch, false), Poll(1, batch, true)];
    StatesOfBatch(batch, id);
    PollsFireOnTransitions(map[id := Quiet], polls, 0, -1, id);
    FiresAgainUntilSaved(map[id := Quiet], polls, 0, 1, id);
  }

  lemma KindsOfNext(front: seq<Session>, s: Session)
    ensures KindsOf(front + [s], s.id) == KindsOf(front, s.id) + [NotifiableState(s.state)]
  {
    FrontOfAppended(front, s);
  }

  // Without agreement within the batch one poll can fire twice for a session.
  lemma ConflictingDuplicatesFireTwice(id: string, title: string)
    ensures var done := Session(id, EventLog.Done, title);
            var working := Session(id, EventLog.Working, title);
            CountFor(EventsOf(map[id := Quiet], [done] + [working] + [done]), id) == 2
  {
    var done, working := Session(id, EventLog.Done, title), Session(id, EventLog.Working, title);
    KindsOfNext([], done);
    KindsOfNext([done], working);
    KindsOfNext([done] + [working], done);
    assert [] + [done] == [done];
    EventsAreEntries(map[id := Quiet], [done] + [working] + [done], id);
    EntriesOfNext(Some(Quiet), [], DoneKind);
    EntriesOfNext(Some(Quiet), [] + [DoneKind], Quiet);
    EntriesOfNext(Some(Quiet), [] + [DoneKind] + [Quiet], DoneKind);
  }
}
