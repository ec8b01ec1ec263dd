/**
 What a poll notifies (internal/notify/notify.go), told in the states that the sessions are reported in:
 a question is the state Waiting, and done is the state Done.
 */
module NotifyReports {
  import opened Prelude
  import opened NotifyStore
  import EventLog

  // The state that a batch leaves a session in: that of its last entry.
  function LastReport(batch: seq<Session>, id: string): Option<EventLog.State> {
    if batch == [] then None
    else if batch[|batch| - 1].id == id then Some(batch[|batch| - 1].state)
    else LastReport(batch[..|batch| - 1], id)
  }

  // Entries of a session within a batch agree on whether it has a question and on whether it is done.
  ghost predicate Consistent(batch: seq<Session>, id: string) {
    forall i, j :: 0 <= i < j < |batch| && batch[i].id == batch[j].id == id ==>
      && (batch[i].state == EventLog.Waiting <==> batch[j].state == EventLog.Waiting)
      && (batch[i].state == EventLog.Done <==> batch[j].state == EventLog.Done)
  }

  lemma LastReportIsLast(batch: seq<Session>, id: string)
    ensures LastReport(batch, id).None? <==> forall i :: 0 <= i < |batch| ==> batch[i].id != id
    ensures forall i :: 0 <= i < |batch| && batch[i].id == id && (forall j :: i < j < |batch| ==> batch[j].id != id) ==>
              LastReport(batch, id) == Some(batch[i].state)
    decreases |batch|
  {
    if batch != [] {
      LastReportIsLast(batch[..|batch| - 1], id);
      assert forall i :: 0 <= i < |batch| - 1 ==> batch[..|batch| - 1][i] == batch[i];
    }
  }

  lemma ConsistentMeansAgreement(batch: seq<Session>, id: string)
    ensures Consistent(batch, id) <==> AgreesOn(batch, id)
  {
  }

  // What is recorded of a batch is what it reports last.
  lemma {:induction false} StatesAreReports(batch: seq<Session>, id: string)
    ensures id in States(batch) <==> LastReport(batch, id).Some?
    ensures id in States(batch) ==>
              && (States(batch)[id] == QuestionKind <==> LastReport(batch, id) == Some(EventLog.Waiting))
              && (States(batch)[id] == DoneKind <==> LastReport(batch, id) == Some(EventLog.Done))
    decreases |batch|
  {
    if batch != [] {
      StatesAreReports(batch[..|batch| - 1], id);
    }
  }

  // Did the last saved poll, or the snapshot on disk when there was none, know the session, with a
  // question or as done?
  predicate Knew(initial: Snapshot, polls: seq<Poll>, k: int, id: string)
    requires -1 <= k < |polls|
  {
    if k < 0 then id in initial else LastReport(polls[k].batch, id).Some?
  }

  predicate HadQuestion(initial: Snapshot, polls: seq<Poll>, k: int, id: string)
    requires -1 <= k < |polls|
  {
    if k < 0 then id in initial && initial[id] == QuestionKind
    else LastReport(polls[k].batch, id) == Some(EventLog.Waiting)
  }

  predicate WasDone(initial: Snapshot, polls: seq<Poll>, k: int, id: string)
    requires -1 <= k < |polls|
  {
    if k < 0 then id in initial && initial[id] == DoneKind
    else LastReport(polls[k].batch, id) == Some(EventLog.Done)
  }

  // A poll notifies once of a session that the last saved poll knew, if it now has a question and had
  // none then, or is now done and was not then; and otherwise not at all.
  lemma PollNotifiesIff(initial: Snapshot, polls: seq<Poll>, i: nat, k: int, id: string)
    requires i < |polls| && LastSavedBefore(polls, i, k) && Consistent(polls[i].batch, id)
    ensures var now := LastReport(polls[i].batch, id);
      CountFor(PollEvents(initial, polls, i), id)
          == if && Knew(initial, polls, k, id)
                && (|| (now == Some(EventLog.Waiting) && !HadQuestion(initial, polls, k, id))
                    || (now == Some(EventLog.Done) && !WasDone(initial, polls, k, id)))
             then 1 else 0
  {
    ConsistentMeansAgreement(polls[i].batch, id);
    PollsFireOnTransitions(initial, polls, i, k, id);
    StatesAreReports(polls[i].batch, id);
    if k >= 0 {
      StatesAreReports(polls[k].batch, id);
    }
  }

  // The event tells of the entry: a question with the sound Funk, or done with the sound Tink.
  predicate Tells(e: Event, s: Session) {
    && e.id == s.id && e.title == s.title
    && ((s.state == EventLog.Waiting && e.kind == QuestionKind && e.sound == "Funk")
        || (s.state == EventLog.Done && e.kind == DoneKind && e.sound == "Tink"))
  }

  ghost predicate TellInOrder(events: seq<Event>, batch: seq<Session>, at: seq<nat>) {
    && |at| == |events|
    && (forall m, n :: 0 <= m < n < |at| ==> at[m] < at[n])
    && (forall n :: 0 <= n < |at| ==> at[n] < |batch| && Tells(events[n], batch[at[n]]))
  }

  lemma LongerBatchTells(events: seq<Event>, front: seq<Session>, s: Session, at: seq<nat>)
    requires TellInOrder(events, front, at)
    ensures TellInOrder(events, front + [s], at)
  {
  }

  lemma OneMoreTells(events: seq<Event>, e: Event, front: seq<Session>, s: Session, at: seq<nat>)
    requires TellInOrder(events, front, at) && Tells(e, s)
    ensures TellInOrder(events + [e], front + [s], at + [|front|])
  {
  }

  // Events come in the order of the entries that they tell of, one from an entry, from any snapshot
  // and even if the batch contradicts itself.
  lemma {:induction false} EventsTellOfEntries(snap: Snapshot, batch: seq<Session>) returns (at: seq<nat>)
    ensures TellInOrder(EventsOf(snap, batch), batch, at)
    decreases |batch|
  {
    if batch == [] {
      at := [];
    } else {
      var front, s := batch[..|batch| - 1], batch[|batch| - 1];
      var before := EventsOf(snap, front);
      at := EventsTellOfEntries(snap, front);
      assert batch == front + [s];
      if Fires(snap, batch, |front|) {
        OneMoreTells(before, EventOf(s), front, s, at);
        at := at + [|front|];
      } else {
        LongerBatchTells(before, front, s, at);
        assert EventsOf(snap, batch) == before;
      }
    }
  }

  // The events of a session are counted by their places in the answer.
  lemma {:induction false} CountIsNumberOfPlaces(events: seq<Event>, id: string)
    ensures CountFor(events, id) == |set n: nat | n < |events| && events[n].id == id|
    decreases |events|
  {
    if events != [] {
      var last := |events| - 1;
      var front := events[..last];
      CountIsNumberOfPlaces(front, id);
      var before := set n: nat | n < |front| && front[n].id == id;
      var all := set n: nat | n < |events| && events[n].id == id;
      assert all == before + if events[last].id == id then {last} else {};
    }
  }
}
