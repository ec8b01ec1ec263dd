/**
 The lists that the session cache hands out are the ones it later renames in place
 (internal/webui/sessioncache.go). What the holder of such a list sees, at any later time.
 */
module SharedLists {
  import opened Prelude
  import opened SessionCache
  import Runs

  // When an answer was the stored list, counted in patches.
  datatype Tenure = NotYet | Since(from: nat) | Between(from: nat, to: nat)

  // Every provider answer is a list of its own, by the number of the answer.
  datatype Shared = Shared(cache: System, lists: seq<seq<Session>>, tenures: seq<Tenure>)

  // The list of answer k becomes the stored one after m patches.
  function Install(tenures: seq<Tenure>, base: nat, k: nat, m: nat): seq<Tenure> {
    var retired :=
      if base < |tenures| && tenures[base].Since? then tenures[base := Between(tenures[base].from, m)] else tenures;
    if k < |retired| then retired[k := Since(m)] else retired
  }

  function ShareStep(s: Shared, a: Action): Option<Shared> {
    match Step(s.cache, a)
    case None => None
    case Some(t) =>
      var m := |s.cache.patches|;
      match a
      case LoadAnswers(_, answer) => Some(Shared(t, s.lists + [answer.sessions], s.tenures + [NotYet]))
      case RefreshAnswers(_, answer) => Some(Shared(t, s.lists + [answer.sessions], s.tenures + [NotYet]))
      case LoadCommits(_, _) => Some(Shared(t, s.lists, Install(s.tenures, s.cache.base, t.base, m)))
      case RefreshCommits(_, _) => Some(Shared(t, s.lists, Install(s.tenures, s.cache.base, t.base, m)))
      case Patches(p) =>
        if s.cache.fields.have && s.cache.base < |s.lists|
        then Some(Shared(t, s.lists[s.cache.base := ApplyPatch(s.lists[s.cache.base], p)], s.tenures))
        else Some(Shared(t, s.lists, s.tenures))
      case _ => Some(Shared(t, s.lists, s.tenures))
  }

  // The patches made while the list was the stored one.
  function Applied(patches: seq<Patch>, tenure: Tenure): seq<Patch> {
    match tenure
    case NotYet => []
    case Since(from) => if from <= |patches| then patches[from..] else []
    case Between(from, to) => if from <= to <= |patches| then patches[from..to] else []
  }

  ghost predicate TenureFits(patches: seq<Patch>, tenure: Tenure) {
    match tenure
    case NotYet => true
    case Since(from) => from <= |patches|
    case Between(from, to) => from <= to <= |patches|
  }

  // Each list holds its answer with the patches of its tenure.
  ghost predicate ListInv(s: Shared) {
    && |s.lists| == |s.cache.answers| == |s.tenures|
    && (forall i :: 0 <= i < |s.lists| ==>
          TenureFits(s.cache.patches, s.tenures[i])
          && s.lists[i] == ApplyPatches(s.cache.answers[i].sessions, Applied(s.cache.patches, s.tenures[i])))
  }

  // Only the stored list is in tenure, and it is what the cache serves.
  ghost predicate StoredInv(s: Shared) {
    && (forall i :: 0 <= i < |s.tenures| && s.tenures[i].Since? ==> s.cache.fields.have && i == s.cache.base)
    && (s.cache.fields.have ==>
          s.cache.base < |s.tenures| && s.cache.base < |s.lists| && s.tenures[s.cache.base].Since?
          && s.cache.fields.snapshot == s.lists[s.cache.base])
    && (forall k :: 0 <= k < |s.cache.served| ==>
          s.cache.served[k].index < |s.tenures| && !s.tenures[s.cache.served[k].index].NotYet?)
  }

  ghost predicate Pending(s: Shared, k: nat) {
    k < |s.tenures| && s.tenures[k].NotYet?
  }

  // An answer that is still to be stored belongs to one call and has not been stored yet.
  ghost predicate PendingInv(s: Shared) {
    var rs, fs := s.cache.readers, s.cache.refreshers;
    && (forall t :: t in rs && rs[t].Called? ==> Pending(s, rs[t].index))
    && (forall r :: r in fs && fs[r].Fetched? ==> Pending(s, fs[r].index))
    && (forall t, u :: t in rs && rs[t].Called? && u in rs && rs[u].Called? && rs[t].index == rs[u].index ==> t == u)
    && (forall t, r :: t in rs && rs[t].Called? && r in fs && fs[r].Fetched? ==> rs[t].index != fs[r].index)
  }

  ghost predicate ShareInv(s: Shared) {
    Inv(s.cache) && ListInv(s) && StoredInv(s) && PendingInv(s)
  }

  lemma AnswerKeepsLists(s: Shared, a: Action)
    requires ShareInv(s) && ShareStep(s, a).Some? && (a.LoadAnswers? || a.RefreshAnswers?)
    ensures var t := ShareStep(s, a).value; ListInv(t) && StoredInv(t)
  {
  }

  lemma CommitKeepsLists(s: Shared, a: Action)
    requires ShareInv(s) && ShareStep(s, a).Some? && (a.LoadCommits? || a.RefreshCommits?)
    ensures ListInv(ShareStep(s, a).value)
  {
    var t, m := ShareStep(s, a).value, |s.cache.patches|;
    var k := t.cache.base;
    assert Pending(s, k);
    assert s.cache.patches[m..] == [];
    forall i | 0 <= i < |t.lists|
      ensures TenureFits(t.cache.patches, t.tenures[i])
      ensures t.lists[i] == ApplyPatches(t.cache.answers[i].sessions, Applied(t.cache.patches, t.tenures[i]))
    {
      if i != k && i == s.cache.base && s.tenures[i].Since? {
        assert s.cache.patches[s.tenures[i].from..m] == s.cache.patches[s.tenures[i].from..];
      }
    }
  }

  lemma CommitKeepsStored(s: Shared, a: Action)
    requires ShareInv(s) && ShareStep(s, a).Some? && (a.LoadCommits? || a.RefreshCommits?)
    ensures StoredInv(ShareStep(s, a).value)
  {
    assert Pending(s, ShareStep(s, a).value.cache.base);
  }

  lemma AnswerKeepsPending(s: Shared, a: Action)
    requires ShareInv(s) && ShareStep(s, a).Some? && (a.LoadAnswers? || a.RefreshAnswers?)
    ensures PendingInv(ShareStep(s, a).value)
  {
  }

  // An answer that has just been stored is nobody's any more.
  lemma InstallLeavesPending(tenures: seq<Tenure>, base: nat, k: nat, m: nat, i: nat)
    requires i < |tenures| && tenures[i].NotYet? && i != k
    ensures var r := Install(tenures, base, k, m); i < |r| && r[i].NotYet?
  {
  }

  lemma LoadKeepsPending(s: Shared, t: Tid, now: int)
    requires ShareInv(s) && ShareStep(s, LoadCommits(t, now)).Some?
    ensures PendingInv(ShareStep(s, LoadCommits(t, now)).value)
  {
    var k := s.cache.readers[t].index;
    forall i | Pending(s, i) && i != k ensures Pending(ShareStep(s, LoadCommits(t, now)).value, i) {
      InstallLeavesPending(s.tenures, s.cache.base, k, |s.cache.patches|, i);
    }
  }

  lemma RefreshKeepsPending(s: Shared, r: Tid, now: int)
    requires ShareInv(s) && ShareStep(s, RefreshCommits(r, now)).Some?
    ensures PendingInv(ShareStep(s, RefreshCommits(r, now)).value)
  {
    var k := s.cache.refreshers[r].index;
    forall i | Pending(s, i) && i != k ensures Pending(ShareStep(s, RefreshCommits(r, now)).value, i) {
      InstallLeavesPending(s.tenures, s.cache.base, k, |s.cache.patches|, i);
    }
  }

  lemma DecisionKeepsPending(s: Shared, t: Tid)
    requires ShareInv(s) && ShareStep(s, GetDecides(t)).Some?
    ensures PendingInv(ShareStep(s, GetDecides(t)).value)
  {
  }

  lemma CheckKeepsPending(s: Shared, t: Tid, now: int, spawned: Tid)
    requires ShareInv(s) && ShareStep(s, GetChecks(t, now, spawned)).Some?
    ensures PendingInv(ShareStep(s, GetChecks(t, now, spawned)).value)
  {
  }

  lemma FieldStepKeepsPending(s: Shared, a: Action)
    requires ShareInv(s) && ShareStep(s, a).Some? && (a.SetsTTL? || a.Patches?)
    ensures PendingInv(ShareStep(s, a).value)
  {
  }

  lemma AppliedGrows(patches: seq<Patch>, p: Patch, tenure: Tenure)
    requires TenureFits(patches, tenure)
    ensures TenureFits(patches + [p], tenure)
    ensures Applied(patches + [p], tenure)
        == if tenure.Since? then Applied(patches, tenure) + [p] else Applied(patches, tenure)
  {
  }

  lemma PatchKeepsLists(s: Shared, p: Patch)
    requires ShareInv(s) && ShareStep(s, Patches(p)).Some?
    ensures var t := ShareStep(s, Patches(p)).value; ListInv(t) && StoredInv(t)
  {
    var t := ShareStep(s, Patches(p)).value;
    forall i | 0 <= i < |t.lists|
      ensures TenureFits(t.cache.patches, t.tenures[i])
      ensures t.lists[i] == ApplyPatches(t.cache.answers[i].sessions, Applied(t.cache.patches, t.tenures[i]))
    {
      AppliedGrows(s.cache.patches, p, s.tenures[i]);
      if s.tenures[i].Since? {
        PatchExtends(s.cache.answers[i].sessions, Applied(s.cache.patches, s.tenures[i]), p);
      }
    }
  }

  lemma OtherStepKeepsLists(s: Shared, a: Action)
    requires ShareInv(s) && ShareStep(s, a).Some? && (a.GetDecides? || a.GetChecks? || a.SetsTTL?)
    ensures var t := ShareStep(s, a).value; ListInv(t) && StoredInv(t)
  {
  }

  lemma {:induction false} ShareStepKeepsInv(s: Shared, a: Action)
    requires ShareInv(s) && ShareStep(s, a).Some?
    ensures ShareInv(ShareStep(s, a).value)
  {
    StepKeepsInv(s.cache, a);
    match a
    case LoadAnswers(_, _) =>
      AnswerKeepsLists(s, a);
      AnswerKeepsPending(s, a);
    case RefreshAnswers(_, _) =>
      AnswerKeepsLists(s, a);
      AnswerKeepsPending(s, a);
    case LoadCommits(t, now) =>
      CommitKeepsLists(s, a);
      CommitKeepsStored(s, a);
      LoadKeepsPending(s, t, now);
    case RefreshCommits(r, now) =>
      CommitKeepsLists(s, a);
      CommitKeepsStored(s, a);
      RefreshKeepsPending(s, r, now);
    case Patches(p) =>
      PatchKeepsLists(s, p);
      FieldStepKeepsPending(s, a);
    case SetsTTL(_) =>
      OtherStepKeepsLists(s, a);
      FieldStepKeepsPending(s, a);
    case GetDecides(t) =>
      OtherStepKeepsLists(s, a);
      DecisionKeepsPending(s, t);
    case GetChecks(t, now, spawned) =>
      OtherStepKeepsLists(s, a);
      CheckKeepsPending(s, t, now, spawned);
  }

  predicate IsStart(s: Shared) {
    s == Shared(Start(s.cache.fields.ttl), [], [])
  }

  ghost predicate Reachable(s: Shared) {
    Runs.Reachable(IsStart, ShareStep, s)
  }

  // Whoever was handed a list sees in it, at any later time, its answer with all patches made
  // while it was the stored list, in order, and no others.
  lemma HandedOutListsTrackPatches(s: Shared, k: nat)
    requires Reachable(s) && k < |s.cache.served|
    ensures var i := s.cache.served[k].index;
      && i < |s.lists| && i < |s.tenures| && i < |s.cache.answers| && !s.tenures[i].NotYet?
      && s.lists[i] == ApplyPatches(s.cache.answers[i].sessions, Applied(s.cache.patches, s.tenures[i]))
      && (s.tenures[i].Since? <==> s.cache.fields.have && i == s.cache.base)
  {
    forall t, a | ShareInv(t) && ShareStep(t, a).Some? ensures ShareInv(ShareStep(t, a).value) {
      ShareStepKeepsInv(t, a);
    }
    Runs.InvariantReached(IsStart, ShareStep, t => ShareInv(t), s);
  }
}
