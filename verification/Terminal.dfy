/** One warm terminal: its log, its subscribers and the fan-out to them (internal/webterm/webterm.go). */
module Terminal {
  import opened Prelude
  import opened RingBuffer
  import opened TerminalProtocol

  // One method per critical section; Broadcast and Subscribe are what happens when none intervenes.
  class Terminal {
    const ring: Buffer
    var subs: set<SubId>
    var nextSub: SubId
    var exited: bool
    // What each client has been sent so far, including those that have left.
    var screens: map<SubId, Bytes>
    ghost var spans: map<SubId, Span>
    ghost var inflight: map<Sender, nat>
    ghost var texts: seq<Bytes>
    ghost var fanned: seq<nat>

    ghost function View(): System
      reads this, ring
    {
      System(ring.capacity, ring.buf, exited, subs, screens, spans, inflight, texts, fanned)
    }

    ghost predicate Valid()
      reads this, ring
    {
      && ring.Valid()
      && (forall c :: c in screens || c in spans ==> c < nextSub)
      && subs <= screens.Keys
    }

    constructor (capacity: nat)
      ensures Valid() && fresh(ring) && View() == Start(capacity)
    {
      ring := new Buffer(capacity);
      subs, nextSub, exited, screens := {}, 0, false, map[];
      spans, inflight, texts, fanned := map[], map[], [], [];
    }

    // First half of broadcast. A goroutine broadcasts one text at a time.
    method WriteLog(p: Bytes, ghost who: Sender)
      requires Valid() && who !in inflight && (who == READER || exited)
      modifies this`inflight, this`texts, ring
      ensures Valid() && Step(old(View()), Writes(who, p)) == Some(View())
    {
      TrimThenAppend(ring.capacity, ring.history, p);
      ring.Write(p);
      inflight, texts := inflight[who := |texts|], texts + [p];
    }

    // Second half of broadcast. The writer of c fails when c is in fails, having taken at most
    // fails[c] bytes of p; it is then dropped.
    method Deliver(p: Bytes, ghost who: Sender, fails: map<SubId, nat>)
      requires Valid() && who in inflight && p == Text(texts, inflight[who])
      modifies this
      ensures Valid() && nextSub == old(nextSub) && Step(old(View()), FansOut(who, fails)) == Some(View())
    {
      var live, sent := FanOut(subs, screens, p, fails);
      subs, screens := live, sent;
      spans, inflight, fanned := Advanced(spans, old(subs), p, fails), inflight - {who}, fanned + [inflight[who]];
    }

    method Broadcast(p: Bytes, ghost who: Sender, fails: map<SubId, nat>)
      requires Valid() && who !in inflight && (who == READER || exited)
      modifies this, ring
      ensures Valid() && BroadcastRun(old(View()), who, p, fails) == Some(View())
    {
      WriteLog(p, who);
      Deliver(p, who, fails);
    }

    // Replay the log to a new client; none if that write fails.
    method Snapshot(replayFails: bool) returns (id: Option<SubId>)
      requires Valid()
      modifies this`nextSub, this`screens, this`spans
      ensures Valid()
      ensures id.None? <==> replayFails && old(View()).ring != []
      ensures id.None? ==> View() == old(View())
      ensures id.Some? ==> Step(old(View()), Snapshots(id.value)) == Some(View())
    {
      var replay := ring.Snapshot();
      if |replay| > 0 && replayFails {
        return None;
      }
      var c := nextSub;
      nextSub, screens := nextSub + 1, screens[c := replay];
      spans := spans[c := Span(Replayed, |texts|, 0, false, [], 0)];
      id := Some(c);
    }

    // Register the client, unless the process has exited: then the lock is released to send the
    // marker, of which the client takes taken bytes if its writer fails.
    method Check(c: SubId, taken: nat) returns (live: bool)
      requires Valid() && AtStage(View(), c, Replayed)
      modifies this`subs, this`screens, this`spans
      ensures Valid() && live == !exited && Step(old(View()), Checks(c, taken)) == Some(View())
    {
      live := !exited;
      if exited {
        var marker := Cut(EXIT_MARKER, taken);
        screens := screens[c := screens[c] + marker];
        spans := spans[c := spans[c].(stage := Marked, late := true, marker := marker)];
      } else {
        Add(c);
      }
    }

    method Add(c: SubId)
      requires Valid() && c in spans && c in screens
      modifies this`subs, this`spans
      ensures Valid() && View() == TerminalProtocol.Register(old(View()), c)
    {
      subs := subs + {c};
      spans := spans[c := spans[c].(stage := Live, join := |fanned|)];
    }

    method Subscribe(replayFails: bool, taken: nat) returns (id: Option<SubId>)
      requires Valid()
      modifies this
      ensures Valid()
      ensures id.None? <==> replayFails && old(View()).ring != []
      ensures id.None? ==> View() == old(View())
      ensures id.Some? ==> SubscribeRun(old(View()), id.value, taken) == Some(View())
    {
      id := Snapshot(replayFails);
      if id.Some? {
        var live := Check(id.value, taken);
        if !live {
          Add(id.value);
        }
      }
    }

    method Unsubscribe(c: SubId)
      requires Valid() && (AtStage(View(), c, Live) || (AtStage(View(), c, Gone) && c !in subs))
      modifies this`subs, this`spans
      ensures Valid() && Step(old(View()), Leaves(c)) == Some(View())
    {
      assert spans[c].stage.Gone? ==> subs - {c} == subs;
      subs := subs - {c};
      if spans[c].stage.Live? {
        spans := spans[c := spans[c].(stage := Gone)];
      }
    }

    // The process has ended; the marker is broadcast afterwards.
    method MarkExited()
      requires Valid() && !exited
      modifies this`exited
      ensures Valid() && Step(old(View()), Exits) == Some(View())
    {
      exited := true;
    }
  }

  lemma ExtendedStep(screens: map<SubId, Bytes>, to: set<SubId>, p: Bytes, fails: map<SubId, nat>, c: SubId)
    requires c in screens && c !in to
    ensures Extended(screens, to + {c}, p, fails)
        == Extended(screens, to, p, fails)[c := screens[c] + p[..Taken(p, fails, c)]]
  {
  }

  // The sending loop, in whatever order the set yields the subscribers.
  method FanOut(subs: set<SubId>, screens: map<SubId, Bytes>, p: Bytes, fails: map<SubId, nat>)
    returns (live: set<SubId>, sent: map<SubId, Bytes>)
    requires subs <= screens.Keys
    ensures live == subs - fails.Keys
    ensures sent == Extended(screens, subs, p, fails)
    ensures sent.Keys == screens.Keys
    ensures forall c :: c in sent ==>
              sent[c] == screens[c] + if c !in subs then []
                                      else if c in fails && fails[c] < |p| then p[..fails[c]] else p
  {
    var todo := subs;
    live, sent := subs, screens;
    while todo != {}
      invariant todo <= subs && live == subs - (fails.Keys - todo)
      invariant sent == Extended(screens, subs - todo, p, fails)
      decreases todo
    {
      var c :| c in todo;
      ExtendedStep(screens, subs - todo, p, fails, c);
      assert subs - todo + {c} == subs - (todo - {c});
      sent := sent[c := sent[c] + p[..Taken(p, fails, c)]];
      if c in fails {
        live := live - {c};
      }
      todo := todo - {c};
    }
    assert subs - {} == subs;
    assert p[..|p|] == p && forall c :: c in screens ==> screens[c] + [] == screens[c];
  }
}
