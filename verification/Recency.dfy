/** Sequences ordered by last use: what a map that keeps insertion order holds when each use re-inserts its key. */
module Recency {
  import opened Prelude

  function IndexOf<T(==)>(s: seq<T>, k: T): (i: nat)
    requires k in s
    ensures i < |s| && s[i] == k
    ensures forall j :: 0 <= j < i ==> s[j] != k
  {
    if s[0] == k then 0 else 1 + IndexOf(s[1..], k)
  }

  // A sequence without the first occurrence of a key.
  function Without<T(==)>(s: seq<T>, k: T): seq<T> {
    if s == [] then [] else if s[0] == k then s[1..] else [s[0]] + Without(s[1..], k)
  }

  lemma {:induction false} WithoutShortens<T>(s: seq<T>, k: T)
    requires k in s
    ensures |Without(s, k)| == |s| - 1
  {
    if s[0] != k {
      WithoutShortens(s[1..], k);
    }
  }

  // Removing a key keeps the other keys in order.
  lemma {:induction false} WithoutKeepsOrder<T>(s: seq<T>, k: T, j: nat)
    requires k in s && j < |Without(s, k)|
    ensures |Without(s, k)| == |s| - 1
    ensures Without(s, k)[j] == if j < IndexOf(s, k) then s[j] else s[j + 1]
  {
    WithoutShortens(s, k);
    if s[0] == k {
      assert IndexOf(s, k) == 0;
    } else if j > 0 {
      WithoutKeepsOrder(s[1..], k, j - 1);
    }
  }

  lemma {:induction false} WithoutKeepsDistinct<T>(s: seq<T>, k: T)
    requires NoDuplicates(s)
    ensures NoDuplicates(Without(s, k)) && k !in Without(s, k)
  {
    if s != [] {
      var rest := s[1..];
      assert forall i :: 0 <= i < |rest| ==> rest[i] == s[i + 1] != s[0];
      if s[0] != k {
        WithoutKeepsDistinct(rest, k);
        WithoutKeepsOthers(rest, k, s[0]);
      }
    }
  }

  lemma {:induction false} WithoutAbsent<T>(s: seq<T>, k: T)
    requires k !in s
    ensures Without(s, k) == s
  {
    if s != [] {
      WithoutAbsent(s[1..], k);
    }
  }

  lemma {:induction false} WithoutKeepsOthers<T>(s: seq<T>, k: T, x: T)
    requires x != k
    ensures x in Without(s, k) <==> x in s
  {
    if s != [] {
      assert s == [s[0]] + s[1..];
      if s[0] != k {
        WithoutKeepsOthers(s[1..], k, x);
      }
    }
  }

  // The distinct keys of a history in the order of their last selection.
  function Recent<T(==)>(history: seq<T>): seq<T> {
    if history == [] then []
    else Without(Recent(history[..|history| - 1]), history[|history| - 1]) + [history[|history| - 1]]
  }

  // The position of the last selection of k.
  function LastSelected<T(==)>(history: seq<T>, k: T): (i: nat)
    requires k in history
    ensures i < |history| && history[i] == k
    ensures forall j :: i < j < |history| ==> history[j] != k
    decreases |history|
  {
    var n := |history| - 1;
    assert history == history[..n] + [history[n]];
    if history[n] == k then n else LastSelected(history[..n], k)
  }

  lemma {:induction false} RecentHasNoDuplicates<T>(history: seq<T>)
    ensures NoDuplicates(Recent(history))
    decreases |history|
  {
    if history != [] {
      var n := |history| - 1;
      RecentHasNoDuplicates(history[..n]);
      WithoutKeepsDistinct(Recent(history[..n]), history[n]);
    }
  }

  lemma {:induction false} RecentIsSelected<T>(history: seq<T>, x: T)
    ensures x in Recent(history) <==> x in history
    decreases |history|
  {
    if history != [] {
      var n := |history| - 1;
      RecentIsSelected(history[..n], x);
      if x != history[n] {
        WithoutKeepsOthers(Recent(history[..n]), history[n], x);
      }
      assert history == history[..n] + [history[n]];
    }
  }

  // Where the elements of Recent come from when one more key is selected.
  lemma RecentStep<T>(front: seq<T>, k: T, i: nat) returns (p: nat)
    requires i < |Recent(front + [k])| - 1
    ensures var r := Recent(front);
      && p < |r| && r[p] in front && r[p] == Recent(front + [k])[i] != k
      && p == if k in r && i >= IndexOf(r, k) then i + 1 else i
  {
    var r := Recent(front);
    assert (front + [k])[..|front|] == front;
    RecentHasNoDuplicates(front);
    WithoutKeepsDistinct(r, k);
    assert Recent(front + [k]) == Without(r, k) + [k];
    assert Without(r, k)[i] in Without(r, k);
    if k in r {
      WithoutKeepsOrder(r, k, i);
      p := if i >= IndexOf(r, k) then i + 1 else i;
    } else {
      WithoutAbsent(r, k);
      p := i;
    }
    RecentIsSelected(front, r[p]);
  }

  lemma LastSelectedStep<T>(front: seq<T>, k: T, x: T)
    requires x in front && x != k
    ensures LastSelected(front + [k], x) == LastSelected(front, x)
  {
    assert (front + [k])[..|front|] == front;
  }

  // Recent lists the keys of the history by when each was last selected, oldest first.
  lemma {:induction false} RecentIsOrderOfLastSelection<T>(history: seq<T>, i: nat, j: nat)
    requires i < j < |Recent(history)|
    ensures Recent(history)[i] in history && Recent(history)[j] in history
    ensures LastSelected(history, Recent(history)[i]) < LastSelected(history, Recent(history)[j])
    decreases |history|
  {
    var n := |history| - 1;
    var front, k := history[..n], history[n];
    assert history == front + [k];
    var x, y := Recent(history)[i], Recent(history)[j];
    var p := RecentStep(front, k, i);
    LastSelectedStep(front, k, x);
    if j < |Recent(history)| - 1 {
      var q := RecentStep(front, k, j);
      RecentIsOrderOfLastSelection(front, p, q);
      LastSelectedStep(front, k, y);
    } else {
      assert y == k && LastSelected(history, k) == n;
    }
  }

  lemma {:induction false} WithoutBehind<T>(a: seq<T>, b: seq<T>, k: T)
    requires k !in a
    ensures Without(a + b, k) == a + Without(b, k)
  {
    if a == [] {
      assert a + b == b;
    } else {
      assert (a + b)[1..] == a[1..] + b;
      WithoutBehind(a[1..], b, k);
    }
  }

  lemma NotInFront<T>(a: seq<T>, b: seq<T>, k: T)
    requires NoDuplicates(a + b) && k in b
    ensures k !in a
  {
    var j :| 0 <= j < |b| && b[j] == k;
    forall i | 0 <= i < |a| ensures a[i] != k {
      assert (a + b)[i] == a[i] && (a + b)[|a| + j] == k;
    }
  }

  lemma LastOfWithoutNear<T>(s: seq<T>, k: T, n: nat)
    requires NoDuplicates(s) && k in LastN(n + 1, s)
    ensures LastN(n, Without(s, k)) == Without(LastN(n + 1, s), k)
  {
    var w := LastN(n + 1, s);
    WithoutShortens(w, k);
    if |s| > n + 1 {
      var front := s[..|s| - |w|];
      assert s == front + w;
      NotInFront(front, w, k);
      WithoutBehind(front, w, k);
      LastNOfConcat(n, front, Without(w, k));
    }
  }

  lemma {:induction false} WithoutInFront<T>(a: seq<T>, b: seq<T>, k: T)
    requires k in a
    ensures Without(a + b, k) == Without(a, k) + b
  {
    assert (a + b)[1..] == a[1..] + b;
    if a[0] != k {
      WithoutInFront(a[1..], b, k);
    }
  }

  lemma LastOfWithoutFar<T>(s: seq<T>, k: T, n: nat)
    requires k !in LastN(n + 1, s)
    ensures LastN(n, Without(s, k)) == LastN(n, s)
  {
    var w := LastN(n + 1, s);
    var front := s[..|s| - |w|];
    assert s == front + w;
    if k in front {
      WithoutInFront(front, w, k);
      LastNOfConcat(n, Without(front, k), w);
      LastNOfConcat(n, front, w);
    } else {
      WithoutAbsent(s, k);
    }
  }

  lemma AppendedIsRemoved<T>(s: seq<T>, k: T)
    requires k !in s
    ensures Without(s + [k], k) == s
  {
    WithoutBehind(s, [k], k);
  }
}
