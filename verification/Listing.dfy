/** The order of the session listing (internal/sessions/merge.go). */
module Listing {
  import opened EventLog

  datatype Session = Session(id: string, state: State, tmuxName: string, updatedAt: int)

  predicate IsActive(s: State) {
    s == Waiting || s == Working || s == ActiveIdle || s == Done
  }

  function Bucket(s: Session): int {
    if s.state == Exited then 3
    else if s.tmuxName != "" then 0
    else if IsActive(s.state) then 1
    else 2
  }

  function StatePriority(s: State): int {
    match s
    case Waiting => 5
    case Working => 4
    case Done => 3
    case ActiveIdle => 2
    case InactiveIdle => 1
    case _ => 0
  }

  // The comparator handed to the sort: bucket first, then priority, then recency.
  predicate Less(a: Session, b: Session) {
    if Bucket(a) != Bucket(b) then Bucket(a) < Bucket(b)
    else if StatePriority(a.state) != StatePriority(b.state) then StatePriority(a.state) > StatePriority(b.state)
    else a.updatedAt > b.updatedAt
  }

  predicate Tied(a: Session, b: Session) {
    !Less(a, b) && !Less(b, a)
  }

  // A strict weak order: irreflexive, transitive, and ties are transitive too.
  lemma LessIsStrictWeakOrder(a: Session, b: Session, c: Session)
    ensures !Less(a, a)
    ensures Less(a, b) ==> !Less(b, a)
    ensures Less(a, b) && Less(b, c) ==> Less(a, c)
    ensures Tied(a, b) && Tied(b, c) ==> Tied(a, c)
    ensures Less(a, b) && Tied(b, c) ==> Less(a, c)
    ensures Tied(a, b) && Less(b, c) ==> Less(a, c)
  {
  }

  predicate Sorted(s: seq<Session>) {
    forall i, j :: 0 <= i < j < |s| ==> !Less(s[j], s[i])
  }

  // The sessions tied with a pivot, in order.
  function TiedWith(s: seq<Session>, pivot: Session): seq<Session> {
    if s == [] then [] else (if Tied(s[0], pivot) then [s[0]] else []) + TiedWith(s[1..], pivot)
  }

  // out is a rearrangement of s that leaves every group of tied sessions in its original order.
  ghost predicate StablyRearranged(s: seq<Session>, out: seq<Session>) {
    forall pivot :: TiedWith(out, pivot) == TiedWith(s, pivot)
  }

  ghost predicate StableSortOf(s: seq<Session>, out: seq<Session>) {
    Sorted(out) && StablyRearranged(s, out)
  }

  // Insert x behind everything that does not come after it.
  function Insert(s: seq<Session>, x: Session): seq<Session> {
    if s == [] || !Less(x, s[|s| - 1]) then s + [x]
    else Insert(s[..|s| - 1], x) + [s[|s| - 1]]
  }

  function InsertionSort(s: seq<Session>): seq<Session> {
    if s == [] then [] else Insert(InsertionSort(s[..|s| - 1]), s[|s| - 1])
  }

  lemma {:induction false} TiedWithConcat(a: seq<Session>, b: seq<Session>, pivot: Session)
    ensures TiedWith(a + b, pivot) == TiedWith(a, pivot) + TiedWith(b, pivot)
  {
    if a == [] {
      assert a + b == b;
    } else {
      assert (a + b)[1..] == a[1..] + b;
      TiedWithConcat(a[1..], b, pivot);
    }
  }

  lemma {:induction false} InsertIsStable(s: seq<Session>, x: Session, pivot: Session)
    ensures TiedWith(Insert(s, x), pivot) == TiedWith(s + [x], pivot)
    decreases |s|
  {
    if s != [] && Less(x, s[|s| - 1]) {
      var front, y := s[..|s| - 1], s[|s| - 1];
      InsertIsStable(front, x, pivot);
      TiedWithConcat(Insert(front, x), [y], pivot);
      TiedWithConcat(front, [x], pivot);
      TiedWithConcat(s, [x], pivot);
      TiedWithConcat(front, [y], pivot);
      assert s == front + [y];
      LessIsStrictWeakOrder(x, y, pivot);
      LessIsStrictWeakOrder(pivot, x, y);
      assert [x][1..] == [] && [y][1..] == [];
    }
  }

  lemma {:induction false} InsertKeepsSorted(s: seq<Session>, x: Session)
    requires Sorted(s)
    ensures Sorted(Insert(s, x))
    ensures forall y :: y in Insert(s, x) ==> y == x || y in s
    decreases |s|
  {
    if s == [] || !Less(x, s[|s| - 1]) {
      forall i | 0 <= i < |s| ensures !Less(x, s[i]) {
        LessIsStrictWeakOrder(x, s[i], s[|s| - 1]);
      }
    } else {
      var front, y := s[..|s| - 1], s[|s| - 1];
      InsertKeepsSorted(front, x);
      var r := Insert(front, x);
      forall i | 0 <= i < |r| ensures !Less(y, r[i]) {
        assert r[i] in r;
        LessIsStrictWeakOrder(x, y, x);
        if r[i] != x {
          var j :| 0 <= j < |front| && front[j] == r[i];
          assert s[j] == r[i];
        }
      }
    }
  }

  lemma {:induction false} InsertionSortIsStable(s: seq<Session>)
    ensures StableSortOf(s, InsertionSort(s))
    decreases |s|
  {
    if s != [] {
      var front, x := s[..|s| - 1], s[|s| - 1];
      InsertionSortIsStable(front);
      InsertKeepsSorted(InsertionSort(front), x);
      forall pivot ensures TiedWith(InsertionSort(s), pivot) == TiedWith(s, pivot) {
        InsertIsStable(InsertionSort(front), x, pivot);
        TiedWithConcat(InsertionSort(front), [x], pivot);
        TiedWithConcat(front, [x], pivot);
        assert s == front + [x];
      }
    }
  }

  lemma {:induction false} TiedWithCounts(s: seq<Session>, x: Session)
    ensures multiset(TiedWith(s, x))[x] == multiset(s)[x]
  {
    if s != [] {
      TiedWithCounts(s[1..], x);
      assert s == [s[0]] + s[1..];
    }
  }

  lemma StablyRearrangedIsPermutation(s: seq<Session>, out: seq<Session>)
    requires StablyRearranged(s, out)
    ensures multiset(out) == multiset(s)
  {
    forall x ensures multiset(out)[x] == multiset(s)[x] {
      TiedWithCounts(s, x);
      TiedWithCounts(out, x);
      assert TiedWith(out, x) == TiedWith(s, x);
    }
  }

  lemma {:induction false} TiedWithMember(s: seq<Session>, pivot: Session)
    requires TiedWith(s, pivot) != []
    ensures TiedWith(s, pivot)[0] in s && Tied(TiedWith(s, pivot)[0], pivot)
  {
    if !Tied(s[0], pivot) {
      TiedWithMember(s[1..], pivot);
      assert TiedWith(s, pivot)[0] in s[1..];
    }
  }

  lemma HeadIsTied(s: seq<Session>)
    requires s != []
    ensures TiedWith(s, s[0]) != [] && TiedWith(s, s[0])[0] == s[0]
  {
    LessIsStrictWeakOrder(s[0], s[0], s[0]);
  }

  // Nothing tied with the head of a precedes the head of b.
  lemma HeadNotAfter(a: seq<Session>, b: seq<Session>)
    requires a != [] && b != [] && Sorted(b) && TiedWith(a, a[0]) == TiedWith(b, a[0])
    ensures !Less(a[0], b[0])
  {
    HeadIsTied(a);
    TiedWithMember(b, a[0]);
    var j :| 0 <= j < |b| && b[j] == a[0];
  }

  // There is only one stable sort of a list, so any stable sorting algorithm gives this listing.
  lemma {:induction false} SortedByGroupsIsUnique(a: seq<Session>, b: seq<Session>)
    requires Sorted(a) && Sorted(b) && forall pivot :: TiedWith(a, pivot) == TiedWith(b, pivot)
    ensures a == b
    decreases |a|
  {
    if a == [] {
      if b != [] {
        HeadIsTied(b);
        assert false;
      }
    } else {
      HeadIsTied(a);
      assert TiedWith(b, a[0]) == TiedWith(a, a[0]);
      assert b != [];
      HeadIsTied(b);
      HeadNotAfter(a, b);
      HeadNotAfter(b, a);
      assert Tied(b[0], a[0]);
      assert TiedWith(b, a[0])[0] == b[0];
      forall pivot ensures TiedWith(a[1..], pivot) == TiedWith(b[1..], pivot) {
        assert TiedWith(a, pivot) == TiedWith(b, pivot);
        var head := if Tied(a[0], pivot) then [a[0]] else [];
        assert TiedWith(a, pivot)[|head|..] == TiedWith(a[1..], pivot);
        assert TiedWith(b, pivot)[|head|..] == TiedWith(b[1..], pivot);
      }
      SortedByGroupsIsUnique(a[1..], b[1..]);
    }
  }

  lemma StableSortIsUnique(s: seq<Session>, out: seq<Session>)
    requires StableSortOf(s, out)
    ensures out == InsertionSort(s)
  {
    InsertionSortIsStable(s);
    forall pivot ensures TiedWith(out, pivot) == TiedWith(InsertionSort(s), pivot) {
      assert TiedWith(out, pivot) == TiedWith(s, pivot);
      assert TiedWith(InsertionSort(s), pivot) == TiedWith(s, pivot);
    }
    SortedByGroupsIsUnique(out, InsertionSort(s));
  }

  // Both rows are attached to tmux, or both active without it, or both idle or unknown, or both exited.
  predicate Alike(a: Session, b: Session) {
    && (a.state == Exited <==> b.state == Exited)
    && (a.state != Exited ==>
          && (a.tmuxName == "" <==> b.tmuxName == "")
          && (a.tmuxName == "" ==>
                (a.state in {Waiting, Working, ActiveIdle, Done} <==> b.state in {Waiting, Working, ActiveIdle, Done})))
  }

  // Row a may stand before row b: sessions attached to tmux come before those that are not, then
  // active ones, and exited ones last; in each of these groups those that wait for the user lead, then
  // working, done, active and inactive idle ones; and within all that the most recent comes first.
  predicate MayPrecede(a: Session, b: Session) {
    && (a.state == Exited ==> b.state == Exited)
    && (b.state != Exited && b.tmuxName != "" ==> a.state != Exited && a.tmuxName != "")
    && (b.state in {Waiting, Working, ActiveIdle, Done} ==>
          a.tmuxName != "" || a.state in {Waiting, Working, ActiveIdle, Done})
    && (Alike(a, b) ==>
          && (b.state == Waiting ==> a.state == Waiting)
          && (b.state == Working ==> a.state in {Waiting, Working})
          && (b.state == Done ==> a.state in {Waiting, Working, Done})
          && (b.state == ActiveIdle ==> a.state in {Waiting, Working, Done, ActiveIdle})
          && (b.state == InactiveIdle ==> a.state in {Waiting, Working, Done, ActiveIdle, InactiveIdle})
          && (a.state == b.state ==> a.updatedAt >= b.updatedAt))
  }

  // The comparator puts b first exactly when a may not stand there.
  lemma LessMeans(a: Session, b: Session)
    ensures Less(b, a) <==> !MayPrecede(a, b)
  {
  }

  // What the user sees, for any two rows of the listing.
  lemma RowsAreRanked(s: seq<Session>, out: seq<Session>, i: nat, j: nat)
    requires StableSortOf(s, out) && i < j < |out|
    ensures var a, b := out[i], out[j];
      && MayPrecede(a, b)
      && (a.state == Exited ==> b.state == Exited)
      && (b.state != Exited && b.tmuxName != "" ==> a.state != Exited && a.tmuxName != "")
      && (IsActive(b.state) ==> a.state != Exited && (a.tmuxName != "" || IsActive(a.state)))
      && (Bucket(a) == Bucket(b) && b.state == Waiting ==> a.state == Waiting)
      && (Bucket(a) == Bucket(b) && b.state == Working ==> a.state in {Waiting, Working})
      && (Bucket(a) == Bucket(b) && b.state == Done ==> a.state in {Waiting, Working, Done})
      && (Bucket(a) == Bucket(b) && a.state == b.state ==> a.updatedAt >= b.updatedAt)
  {
    assert !Less(out[j], out[i]);
    LessMeans(out[i], out[j]);
  }

  lemma {:induction false} InsertAt(s: seq<Session>, x: Session, j: nat)
    requires j <= |s| && (j > 0 ==> !Less(x, s[j - 1]))
    requires forall k :: j <= k < |s| ==> Less(x, s[k])
    ensures Insert(s, x) == s[..j] + [x] + s[j..]
    decreases |s|
  {
    if j < |s| {
      InsertAt(s[..|s| - 1], x, j);
      assert s[..|s| - 1][..j] == s[..j];
      assert s[j..] == s[..|s| - 1][j..] + [s[|s| - 1]];
    } else {
      assert s[..j] == s && s[j..] == [];
    }
  }

  // Move the element at i down to its place among the sorted elements before it.
  method SiftDown(a: array<Session>, i: nat)
    requires i < a.Length
    modifies a
    ensures a[..i + 1] == Insert(old(a[..i]), old(a[i]))
    ensures a[i + 1..] == old(a[i + 1..])
  {
    ghost var s := a[..i];
    var x := a[i];
    var j := i;
    while j > 0 && Less(x, a[j - 1])
      invariant 0 <= j <= i && a[j] == x
      invariant a[..j] == s[..j]
      invariant a[j + 1..i + 1] == s[j..]
      invariant a[i + 1..] == old(a[i + 1..])
      invariant forall k :: j <= k < i ==> Less(x, s[k])
    {
      assert a[j - 1] == s[j - 1];
      a[j], a[j - 1] := a[j - 1], a[j];
      assert a[j..i + 1] == [s[j - 1]] + s[j..];
      j := j - 1;
    }
    InsertAt(s, x, j);
    assert a[..i + 1] == a[..j] + [a[j]] + a[j + 1..i + 1];
  }

  // Sort in place. The library's stable sort is free to work otherwise; its result is the same.
  method SortMerged(a: array<Session>)
    modifies a
    ensures StableSortOf(old(a[..]), a[..])
  {
    ghost var s := a[..];
    for i := 0 to a.Length
      invariant a[..i] == InsertionSort(s[..i])
      invariant a[i..] == s[i..]
    {
      assert a[i] == s[i] && s[..i + 1][..i] == s[..i];
      SiftDown(a, i);
      assert a[i + 1..] == s[i..][1..];
    }
    InsertionSortIsStable(s);
    assert a[..] == a[..a.Length] && s[..a.Length] == s;
  }
}
