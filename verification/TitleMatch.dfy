/** Assigning tmux panes to remote sessions by title (internal/sessions/remotematch.go). */
module TitleMatch {
  import opened Text

  datatype Pane = Pane(sessionName: string, windowIndex: string, paneIndex: string, title: string)

  datatype Session = Session(id: string, summary: string, tmuxName: string, tmuxTarget: string)

  function Target(p: Pane): string {
    p.sessionName + ":" + p.windowIndex + "." + p.paneIndex
  }

  predicate MatchTitle(title: string, summary: string) {
    title != "" && summary != "" &&
    (title == summary
     || HasSuffix(title, summary)
     || (|summary| > 10 && Contains(title, summary))
     || (|title| > 10 && Contains(summary, title)))
  }

  // Every accepted pair has one text contained in the other, and short texts only match as a suffix.
  lemma MatchMeansContainment(title: string, summary: string)
    requires MatchTitle(title, summary)
    ensures Contains(title, summary) || Contains(summary, title)
    ensures |title| <= 10 && |summary| <= 10 ==> HasSuffix(title, summary)
  {
    if HasSuffix(title, summary) {
      assert title[|title| - |summary|..|title|] == summary;
    }
    if title == summary {
      assert title[0..|title|] == summary;
    }
  }

  predicate Eligible(s: Session) {
    s.tmuxName == "" && s.summary != ""
  }

  predicate Fits(s: Session, p: Pane) {
    Eligible(s) && MatchTitle(p.title, s.summary)
  }

  // A suffix and a part of a text, put together again.
  lemma SuffixMeans(s: string, suffix: string)
    ensures HasSuffix(s, suffix) <==> exists front :: s == front + suffix
  {
    if HasSuffix(s, suffix) {
      assert s == s[..|s| - |suffix|] + suffix;
    }
  }

  lemma ContainsMeans(s: string, sub: string)
    ensures Contains(s, sub) <==> exists front, back :: s == front + sub + back
  {
    if Contains(s, sub) {
      var i, j :| 0 <= i <= j <= |s| && s[i..j] == sub;
      assert s == s[..i] + sub + s[j..];
    }
    if exists front, back :: s == front + sub + back {
      var front, back :| s == front + sub + back;
      assert s[|front|..|front| + |sub|] == sub;
    }
  }

  // A session takes part if it has a summary and no pane yet. A pane fits it if the title ends with
  // the summary, perhaps behind a prefix, or either contains the other and that one has more than 10 bytes.
  lemma FitsMeans(s: Session, p: Pane)
    ensures Fits(s, p) <==>
      && s.tmuxName == "" && s.summary != "" && p.title != ""
      && (|| (exists front :: p.title == front + s.summary)
          || (|s.summary| > 10 && exists front, back :: p.title == front + s.summary + back)
          || (|p.title| > 10 && exists front, back :: s.summary == front + p.title + back))
  {
    SuffixMeans(p.title, s.summary);
    ContainsMeans(p.title, s.summary);
    ContainsMeans(s.summary, p.title);
    if p.title == s.summary {
      assert p.title == "" + s.summary;
    }
  }

  // Which pane each matched session gets, both by index.
  type Assignment = map<nat, nat>

  ghost predicate IsMatching(m: Assignment, sessions: seq<Session>, panes: seq<Pane>) {
    && (forall i :: i in m ==> i < |sessions| && m[i] < |panes| && Fits(sessions[i], panes[m[i]]))
    && (forall i, k :: i in m && k in m && m[i] == m[k] ==> i == k)
  }

  // No session is left out while a pane that fits it is unused.
  ghost predicate IsMaximal(m: Assignment, sessions: seq<Session>, panes: seq<Pane>) {
    forall i: nat, j: nat :: i < |sessions| && j < |panes| && i !in m && Fits(sessions[i], panes[j]) ==> j in m.Values
  }

  // The panes given to sessions before i.
  ghost function TakenBefore(m: Assignment, i: nat): set<nat> {
    set k | k in m && k < i :: m[k]
  }

  // The first fitting pane that is not in used, or the number of panes.
  predicate FirstFree(s: Session, panes: seq<Pane>, used: set<nat>, j: nat) {
    && j <= |panes|
    && (j < |panes| ==> j !in used && Fits(s, panes[j]))
    && (forall k: nat :: k < j && Fits(s, panes[k]) ==> k in used)
  }

  // The pane of session i, or the number of panes.
  function Pick(m: Assignment, panes: seq<Pane>, i: nat): nat {
    if i in m then m[i] else |panes|
  }

  // Every session, in order, takes the first fitting pane that earlier sessions have left over.
  ghost predicate FirstFit(m: Assignment, sessions: seq<Session>, panes: seq<Pane>) {
    && (forall i :: i in m ==> i < |sessions| && m[i] < |panes|)
    && (forall i :: 0 <= i < |sessions| ==> FirstFree(sessions[i], panes, TakenBefore(m, i), Pick(m, panes, i)))
  }

  lemma FirstFitIsMatching(m: Assignment, sessions: seq<Session>, panes: seq<Pane>)
    requires FirstFit(m, sessions, panes)
    ensures IsMatching(m, sessions, panes) && IsMaximal(m, sessions, panes)
  {
    forall i, k | i in m && k in m && k < i ensures m[k] != m[i] {
      assert FirstFree(sessions[i], panes, TakenBefore(m, i), Pick(m, panes, i));
    }
    forall i | i in m ensures Fits(sessions[i], panes[m[i]]) {
      assert FirstFree(sessions[i], panes, TakenBefore(m, i), Pick(m, panes, i));
    }
    forall i: nat, j: nat | i < |sessions| && j < |panes| && i !in m && Fits(sessions[i], panes[j])
      ensures j in m.Values
    {
      assert FirstFree(sessions[i], panes, TakenBefore(m, i), Pick(m, panes, i));
    }
  }

  lemma FirstFreeIsUnique(s: Session, panes: seq<Pane>, used: set<nat>, j: nat, k: nat)
    requires FirstFree(s, panes, used, j) && FirstFree(s, panes, used, k)
    ensures j == k
  {
  }

  // First fit leaves no choice: it determines the assignment.
  lemma {:induction false} FirstFitIsUnique(m: Assignment, n: Assignment, sessions: seq<Session>, panes: seq<Pane>,
      i: nat)
    requires FirstFit(m, sessions, panes) && FirstFit(n, sessions, panes) && i <= |sessions|
    ensures forall k :: 0 <= k < i ==> Pick(m, panes, k) == Pick(n, panes, k)
  {
    if i > 0 {
      FirstFitIsUnique(m, n, sessions, panes, i - 1);
      SameTaken(m, n, panes, i - 1);
      assert FirstFree(sessions[i - 1], panes, TakenBefore(m, i - 1), Pick(m, panes, i - 1));
      assert FirstFree(sessions[i - 1], panes, TakenBefore(n, i - 1), Pick(n, panes, i - 1));
      FirstFreeIsUnique(sessions[i - 1], panes, TakenBefore(m, i - 1), Pick(m, panes, i - 1), Pick(n, panes, i - 1));
    }
  }

  lemma SameTaken(m: Assignment, n: Assignment, panes: seq<Pane>, i: nat)
    requires forall k :: (k in m ==> m[k] < |panes|) && (k in n ==> n[k] < |panes|)
    requires forall k :: 0 <= k < i ==> Pick(m, panes, k) == Pick(n, panes, k)
    ensures TakenBefore(m, i) == TakenBefore(n, i)
  {
    forall k | k in m && k < i ensures k in n && n[k] == m[k] {
      assert Pick(m, panes, k) == Pick(n, panes, k);
    }
    forall k | k in n && k < i ensures k in m && n[k] == m[k] {
      assert Pick(m, panes, k) == Pick(n, panes, k);
    }
  }

  method AssignByTitle(sessions: array<Session>, panes: seq<Pane>) returns (taken: Assignment)
    modifies sessions
    ensures FirstFit(taken, old(sessions[..]), panes)
    ensures forall i :: 0 <= i < sessions.Length ==>
              sessions[i] == if i in taken
                             then var p := panes[taken[i]];
                                  old(sessions[i]).(tmuxName := p.sessionName,
                                                        tmuxTarget := p.sessionName + ":" + p.windowIndex
                                                                      + "." + p.paneIndex)
                             else old(sessions[i])
  {
    taken := map[];
    var usedPanes: set<nat> := {};
    ghost var input := sessions[..];
    for i := 0 to sessions.Length
      invariant FirstFit(taken, input[..i], panes)
      invariant usedPanes == taken.Values
      invariant forall k :: 0 <= k < i ==>
        sessions[k] == if k in taken
                       then input[k].(tmuxName := panes[taken[k]].sessionName, tmuxTarget := Target(panes[taken[k]]))
                       else input[k]
      invariant forall k :: i <= k < sessions.Length ==> sessions[k] == input[k]
    {
      ghost var before := taken;
      var pick := FindPane(sessions[i], panes, usedPanes);
      ExtendFirstFit(taken, input[..i], panes, input[i], pick);
      assert input[..i + 1] == input[..i] + [input[i]];
      if pick < |panes| {
        sessions[i] := sessions[i].(tmuxName := panes[pick].sessionName, tmuxTarget := Target(panes[pick]));
        usedPanes := usedPanes + {pick};
        taken := taken[i := pick];
      }
      assert taken == Extend(before, panes, i, pick);
    }
    assert input[..sessions.Length] == input;
  }

  // The first unused pane that fits, or the number of panes.
  method FindPane(s: Session, panes: seq<Pane>, used: set<nat>) returns (j: nat)
    ensures FirstFree(s, panes, used, j)
  {
    if s.tmuxName != "" || s.summary == "" {
      return |panes|;
    }
    j := 0;
    while j < |panes|
      invariant j <= |panes| && forall k: nat :: k < j && Fits(s, panes[k]) ==> k in used
    {
      if j !in used && MatchTitle(panes[j].title, s.summary) {
        return;
      }
      j := j + 1;
    }
  }

  function Extend(m: Assignment, panes: seq<Pane>, i: nat, j: nat): Assignment {
    if j < |panes| then m[i := j] else m
  }

  lemma ExtendFirstFit(m: Assignment, sessions: seq<Session>, panes: seq<Pane>, s: Session, j: nat)
    requires FirstFit(m, sessions, panes) && FirstFree(s, panes, m.Values, j)
    ensures FirstFit(Extend(m, panes, |sessions|, j), sessions + [s], panes)
    ensures Extend(m, panes, |sessions|, j).Values == m.Values + if j < |panes| then {j} else {}
  {
    var n := |sessions|;
    var m' := Extend(m, panes, n, j);
    assert n !in m;
    assert TakenBefore(m, n) == m.Values;
    forall i: nat | i <= n ensures TakenBefore(m', i) == TakenBefore(m, i) {
      assert forall k :: k in m && k < i ==> k in m' && m'[k] == m[k];
    }
    forall i | 0 <= i < |sessions + [s]|
      ensures FirstFree((sessions + [s])[i], panes, TakenBefore(m', i), Pick(m', panes, i))
    {
      if i < n {
        assert FirstFree(sessions[i], panes, TakenBefore(m, i), Pick(m, panes, i));
      }
    }
    if j < |panes| {
      assert m'[n] == j;
      assert forall v :: v in m.Values ==> exists k :: k in m && m[k] == v && m'[k] == v;
    }
  }

  lemma {:induction false} InjectionBounds(a: set<nat>, m: Assignment, b: set<nat>)
    requires a <= m.Keys && forall i :: i in a ==> m[i] in b
    requires forall i, k :: i in a && k in a && m[i] == m[k] ==> i == k
    ensures |a| <= |b|
    decreases |a|
  {
    if a != {} {
      var i :| i in a;
      InjectionBounds(a - {i}, m, b - {m[i]});
    }
  }

  lemma {:induction false} ImageBounds(a: set<nat>, m: Assignment, b: set<nat>)
    requires a <= m.Keys && forall v :: v in b ==> exists i :: i in a && m[i] == v
    ensures |b| <= |a|
    decreases |a|
  {
    if b != {} {
      var v :| v in b;
      var i :| i in a && m[i] == v;
      ImageBounds(a - {i}, m, b - {v});
    }
  }

  // Sessions that only the other matching serves have their panes taken by the greedy one.
  lemma OnlyOthersAreBounded(m: Assignment, other: Assignment, sessions: seq<Session>, panes: seq<Pane>)
    requires IsMaximal(m, sessions, panes) && IsMatching(other, sessions, panes)
    ensures |other.Keys - m.Keys| <= |m.Keys|
  {
    InjectionBounds(other.Keys - m.Keys, other, m.Values);
    ImageBounds(m.Keys, m, m.Values);
  }

  // Greedy assignment matches at least half as many sessions as any matching at all.
  lemma GreedyIsHalfOptimal(m: Assignment, other: Assignment, sessions: seq<Session>, panes: seq<Pane>)
    requires FirstFit(m, sessions, panes) && IsMatching(other, sessions, panes)
    ensures |other| <= 2 * |m|
  {
    FirstFitIsMatching(m, sessions, panes);
    OnlyOthersAreBounded(m, other, sessions, panes);
    HalfBySplit(other.Keys, m.Keys);
    assert |other| == |other.Keys| && |m| == |m.Keys|;
  }

  lemma HalfBySplit(a: set<nat>, b: set<nat>)
    requires |a - b| <= |b|
    ensures |a| <= 2 * |b|
  {
    assert a == (a * b) + (a - b);
    var rest := b - (a * b);
    assert b == (a * b) + rest;
  }

  lemma CrossedPair(a: Session, b: Session, p: Pane, q: Pane)
    requires Fits(a, p) && Fits(a, q) && Fits(b, p) && !Fits(b, q)
    ensures FirstFit(map[0 := 0], [a, b], [p, q])
    ensures IsMatching(map[0 := 1, 1 := 0], [a, b], [p, q])
  {
    var m: Assignment := map[0 := 0];
    assert TakenBefore(m, 0) == {};
    assert m[0] == 0;
    assert TakenBefore(m, 1) == {0};
    assert FirstFree(a, [p, q], {}, 0);
    assert FirstFree(b, [p, q], {0}, 2);
  }

  // Half is all that can be promised: with the summaries "x" and "yx" and panes titled "yx" and
  // "x", the first session takes the only pane that the second could have had.
  lemma GreedyCanMissHalf(nameP: string, nameQ: string)
    ensures var sessions := [Session("1", "x", "", ""), Session("2", "yx", "", "")];
      var panes := [Pane(nameP, "0", "0", "yx"), Pane(nameQ, "0", "0", "x")];
      FirstFit(map[0 := 0], sessions, panes) && IsMatching(map[0 := 1, 1 := 0], sessions, panes)
  {
    var a, b := Session("1", "x", "", ""), Session("2", "yx", "", "");
    var p, q := Pane(nameP, "0", "0", "yx"), Pane(nameQ, "0", "0", "x");
    assert "yx"[1..] == "x" && "x" != "yx";
    CrossedPair(a, b, p, q);
  }
}
