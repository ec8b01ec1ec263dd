/** The done marker of idle sessions (internal/sessions/merge.go, internal/donestate/donestate.go). */
module DoneMarker {
  import opened Prelude
  import opened EventLog

  // doneSince is 0 when the session is not marked done; last is None before the first pass.
  datatype Entry = Entry(last: Option<State>, doneSince: int)

  type File = map<string, Entry>

  const NO_ENTRY := Entry(None, 0)

  predicate Idle(raw: State) {
    raw == ActiveIdle || raw == InactiveIdle
  }

  function Lookup(f: File, id: string): Entry {
    if id in f then f[id] else NO_ENTRY
  }

  // One session in one pass: its next entry and the state that is shown for it.
  function Next(e: Entry, raw: State, now: int): Entry {
    Entry(Some(raw), if !Idle(raw) then 0 else if e.last == Some(Working) then now else e.doneSince)
  }

  function Shown(e: Entry, raw: State, now: int): State {
    if Idle(raw) && Next(e, raw, now).doneSince != 0 then Done else raw
  }

  datatype Row = Row(id: string, state: State)

  function MergeFile(f: File, rows: seq<Row>, now: int): File {
    if rows == [] then f
    else
      var front := MergeFile(f, rows[..|rows| - 1], now);
      var r := rows[|rows| - 1];
      front[r.id := Next(Lookup(front, r.id), r.state, now)]
  }

  lemma {:induction false} MergeKeys(f: File, rows: seq<Row>, now: int)
    ensures MergeFile(f, rows, now).Keys == f.Keys + set r | r in rows :: r.id
    decreases |rows|
  {
    if rows != [] {
      var n := |rows| - 1;
      MergeKeys(f, rows[..n], now);
      assert rows == rows[..n] + [rows[n]];
    }
  }

  // The rows as a pass reports them.
  function ShownRows(f: File, rows: seq<Row>, now: int): seq<Row> {
    if rows == [] then []
    else
      var front, r := rows[..|rows| - 1], rows[|rows| - 1];
      ShownRows(f, front, now) + [Row(r.id, Shown(Lookup(MergeFile(f, front, now), r.id), r.state, now))]
  }

  function ClearEntry(f: File, id: string): File {
    if id in f then f[id := f[id].(doneSince := 0)] else f
  }

  // What a pass finds in the file.
  function Read(f: File, readable: bool): File {
    if readable then f else map[]
  }

  // What a pass leaves in the file; one without rows writes nothing.
  function AfterPass(f: File, rows: seq<Row>, now: int, readable: bool, saved: bool): File {
    if saved && rows != [] then MergeFile(Read(f, readable), rows, now) else f
  }

  /** The runtime file. */
  class Runtime {
    var entries: File

    // What Merge decides for one session, and whether its entry has to be written.
    method Visit(before: Entry, raw: State, now: int) returns (entry: Entry, shown: State, changed: bool)
      requires now != 0
      ensures shown == Shown(before, raw, now)
      ensures (if changed then entry else before) == Next(before, raw, now)
    {
      entry, shown := before, raw;
      var hadDone := entry.doneSince != 0;
      if raw == ActiveIdle || raw == InactiveIdle {
        if entry.last == Some(Working) {
          entry := entry.(doneSince := now);
          hadDone := true;
        }
        if hadDone {
          shown := Done;
        }
      } else if hadDone {
        entry := entry.(doneSince := 0);
      }
      changed := entry.last != Some(raw) || entry.doneSince != before.doneSince;
      if changed {
        entry := entry.(last := Some(raw));
      }
    }

    // One pass over the sessions. A file that cannot be read counts as empty; it is written only if
    // some entry changed, and a failed write is ignored.
    method Merge(rows: seq<Row>, now: int, readFails: bool, saveFails: bool) returns (out: seq<Row>)
      requires now != 0
      modifies this
      ensures entries == AfterPass(old(entries), rows, now, !readFails, !saveFails)
      ensures out == ShownRows(Read(old(entries), !readFails), rows, now)
      ensures saveFails || rows == [] ==> entries == old(entries)
      ensures !saveFails && rows != [] ==>
                entries.Keys == (if readFails then {} else old(entries).Keys) + set r | r in rows :: r.id
    {
      ghost var start := Read(entries, !readFails);
      var rt, dirty := if readFails then map[] else entries, false;
      out := [];
      for i := 0 to |rows|
        invariant rt == MergeFile(start, rows[..i], now)
        invariant entries == old(entries) && (!dirty ==> rt == start)
        invariant (i == 0 ==> !dirty) && (readFails && i > 0 ==> dirty)
        invariant out == ShownRows(start, rows[..i], now)
      {
        var s := rows[i];
        assert rows[..i + 1][..i] == rows[..i];
        var before := if s.id in rt then rt[s.id] else NO_ENTRY;
        var entry, shown, changed := Visit(before, s.state, now);
        if changed {
          rt := rt[s.id := entry];
          dirty := true;
        } else {
          assert s.id in rt;
          assert rt[s.id := before] == rt;
        }
        out := out + [Row(s.id, shown)];
      }
      assert rows[..|rows|] == rows;
      if dirty && !saveFails {
        entries := rt;
      }
      MergeKeys(start, rows, now);
    }

    // A file that can be neither read nor saved stays as it is.
    method Clear(id: string, fails: bool)
      modifies this
      ensures entries == if fails then old(entries) else ClearEntry(old(entries), id)
      ensures entries == if !fails && id in old(entries) then old(entries)[id := Entry(old(entries)[id].last, 0)]
                         else old(entries)
    {
      if id !in entries {
        return;
      }
      var e := entries[id];
      if e.doneSince == 0 || fails {
        return;
      }
      entries := entries[id := e.(doneSince := 0)];
    }
  }

  // What happens to the file over time, and whether it could be read and saved.
  datatype Op = MergePass(rows: seq<Row>, now: int, readable: bool, saved: bool) | ClearOf(id: string, saved: bool)

  function After(f: File, ops: seq<Op>): File {
    if ops == [] then f
    else
      var g := After(f, ops[..|ops| - 1]);
      match ops[|ops| - 1]
      case MergePass(rows, now, readable, saved) => AfterPass(g, rows, now, readable, saved)
      case ClearOf(id, saved) => if saved then ClearEntry(g, id) else g
  }

  // The same history as one session experiences it; what was not saved has left no trace, and a pass
  // that could not read the file has overwritten it without the session's entry.
  datatype Happening = Pass(raw: State, at: int) | Cleared | Forgotten

  function PassesOf(rows: seq<Row>, now: int, id: string): seq<Happening> {
    if rows == [] then []
    else
      var r := rows[|rows| - 1];
      PassesOf(rows[..|rows| - 1], now, id) + if r.id == id then [Pass(r.state, now)] else []
  }

  function ReadAs(readable: bool): seq<Happening> {
    if readable then [] else [Forgotten]
  }

  function HistoryOf(ops: seq<Op>, id: string): seq<Happening> {
    if ops == [] then []
    else
      HistoryOf(ops[..|ops| - 1], id) +
      match ops[|ops| - 1]
      case MergePass(rows, now, readable, saved) =>
        if saved && rows != [] then ReadAs(readable) + PassesOf(rows, now, id) else []
      case ClearOf(i, saved) => if saved && i == id then [Cleared] else []
  }

  // The state of one session's marker; since is None when it is not up.
  datatype Mark = Mark(last: Option<State>, since: Option<int>)

  const NO_MARK := Mark(None, None)

  function MarkOf(e: Entry): Mark {
    Mark(e.last, if e.doneSince == 0 then None else Some(e.doneSince))
  }

  function Track(m: Mark, h: seq<Happening>): Mark {
    if h == [] then m
    else
      var before := Track(m, h[..|h| - 1]);
      match h[|h| - 1]
      case Pass(raw, at) =>
        Mark(Some(raw), if !Idle(raw) then None else if before.last == Some(Working) then Some(at) else before.since)
      case Cleared => before.(since := None)
      case Forgotten => NO_MARK
  }

  lemma {:induction false} TrackConcat(m: Mark, a: seq<Happening>, b: seq<Happening>)
    ensures Track(m, a + b) == Track(Track(m, a), b)
    decreases |b|
  {
    if b == [] {
      assert a + b == a;
    } else {
      assert (a + b)[..|a + b| - 1] == a + b[..|b| - 1];
      TrackConcat(m, a, b[..|b| - 1]);
    }
  }

  lemma {:induction false} MergeTracks(f: File, rows: seq<Row>, now: int, id: string)
    requires now != 0
    ensures MarkOf(Lookup(MergeFile(f, rows, now), id)) == Track(MarkOf(Lookup(f, id)), PassesOf(rows, now, id))
    decreases |rows|
  {
    if rows != [] {
      var n := |rows| - 1;
      MergeTracks(f, rows[..n], now, id);
      var before := PassesOf(rows[..n], now, id);
      assert before + [] == before;
      assert (before + [Pass(rows[n].state, now)])[..|before|] == before;
    }
  }

  // Reading goes on from the tracked mark, or from none.
  lemma ReadTracks(f: File, h: seq<Happening>, readable: bool, id: string)
    requires MarkOf(Lookup(f, id)) == Track(NO_MARK, h)
    ensures MarkOf(Lookup(Read(f, readable), id)) == Track(NO_MARK, h + ReadAs(readable))
  {
    if readable {
      assert h + [] == h;
    } else {
      FrontOfAppended(h, Forgotten);
    }
  }

  ghost predicate ClockRuns(ops: seq<Op>) {
    forall i :: 0 <= i < |ops| && ops[i].MergePass? ==> ops[i].now != 0
  }

  // The file follows each session's own history, whatever happens to other sessions.
  lemma {:induction false} FileTracks(ops: seq<Op>, id: string)
    requires ClockRuns(ops)
    ensures MarkOf(Lookup(After(map[], ops), id)) == Track(NO_MARK, HistoryOf(ops, id))
    decreases |ops|
  {
    if ops != [] {
      var n := |ops| - 1;
      FileTracks(ops[..n], id);
      var g, h := After(map[], ops[..n]), HistoryOf(ops[..n], id);
      assert h + [] == h;
      match ops[n] {
        case MergePass(rows, now, readable, saved) =>
          if saved && rows != [] {
            ReadTracks(g, h, readable, id);
            MergeTracks(Read(g, readable), rows, now, id);
            TrackConcat(NO_MARK, h + ReadAs(readable), PassesOf(rows, now, id));
            Assoc(h, ReadAs(readable), PassesOf(rows, now, id));
          }
        case ClearOf(i, _) =>
          assert (h + [Cleared])[..|h|] == h;
      }
    }
  }

  // j is the last pass before the idle block that begins at b and reaches to the end of h.
  ghost predicate FinishedBlock(h: seq<Happening>, j: int, b: int) {
    && 0 <= j < b < |h|
    && h[j].Pass? && h[j].raw == Working
    && (forall k :: j < k < b ==> h[k].Cleared?)
    && (forall k :: b <= k < |h| ==> h[k].Pass? && (h[k].raw == ActiveIdle || h[k].raw == InactiveIdle))
  }

  ghost predicate LastPassWorking(h: seq<Happening>, j: int) {
    0 <= j < |h| && h[j].Pass? && h[j].raw == Working && forall k :: j < k < |h| ==> h[k].Cleared?
  }

  lemma {:induction false} TrackedLast(h: seq<Happening>)
    ensures Track(NO_MARK, h).last == Some(Working) <==> exists j :: LastPassWorking(h, j)
    decreases |h|
  {
    if h != [] {
      var n := |h| - 1;
      var front := h[..n];
      TrackedLast(front);
      if j :| LastPassWorking(front, j) && h[n].Cleared? {
        assert LastPassWorking(h, j);
      }
      if j :| LastPassWorking(h, j) && j < n {
        assert LastPassWorking(front, j);
      }
      if h[n].Pass? && h[n].raw == Working {
        assert LastPassWorking(h, n);
      }
    }
  }

  // The marker is up exactly when the session is in an idle block that a working pass led into,
  // with no Clear since that block began, and it is up since the pass that began the block.
  lemma {:induction false} TrackedDone(h: seq<Happening>)
    ensures Track(NO_MARK, h).since.Some? <==> exists j, b :: FinishedBlock(h, j, b)
    ensures forall j, b :: FinishedBlock(h, j, b) ==> h[b].Pass? && Track(NO_MARK, h).since == Some(h[b].at)
    decreases |h|
  {
    if h != [] {
      var n := |h| - 1;
      var front := h[..n];
      TrackedDone(front);
      TrackedLast(front);
      if h[n].Pass? && Idle(h[n].raw) {
        if j :| LastPassWorking(front, j) {
          assert FinishedBlock(h, j, n);
        } else if j, b :| FinishedBlock(front, j, b) {
          assert FinishedBlock(h, j, b);
        }
      }
      forall j, b | FinishedBlock(h, j, b) ensures h[b].Pass? && Track(NO_MARK, h).since == Some(h[b].at) {
        if b == n {
          assert LastPassWorking(front, j);
        } else {
          assert FinishedBlock(front, j, b);
          assert front[n - 1].raw != Working;
        }
      }
    }
  }

  // What a pass shows for a session, over any run of passes and clears before it: done exactly in
  // a finished block, and otherwise the raw state. Its entry then says since when.
  lemma ShownIsDoneInFinishedBlock(ops: seq<Op>, id: string, raw: State, now: int, readable: bool)
    requires ClockRuns(ops) && now != 0
    ensures var h := HistoryOf(ops, id) + ReadAs(readable) + [Pass(raw, now)];
      var before := Lookup(Read(After(map[], ops), readable), id);
      && Shown(before, raw, now) == (if exists j, b :: FinishedBlock(h, j, b) then Done else raw)
      && forall j, b :: FinishedBlock(h, j, b) ==> h[b].Pass? && Next(before, raw, now).doneSince == h[b].at
  {
    FileTracks(ops, id);
    ReadTracks(After(map[], ops), HistoryOf(ops, id), readable, id);
    var before := HistoryOf(ops, id) + ReadAs(readable);
    var h := before + [Pass(raw, now)];
    assert h[..|before|] == before;
    TrackedDone(h);
    if j, b :| FinishedBlock(h, j, b) {
      assert h[|before|].Pass?;
    }
  }
}
