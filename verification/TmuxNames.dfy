/** Choosing the name of a new tmux session (internal/tmux/tmux.go). */
module TmuxNames {
  datatype Session = Session(name: string, path: string)

  // The decimal digits of n, as %d prints them.
  function Decimal(n: nat): string {
    (if n < 10 then "" else Decimal(n / 10)) + [('0' as int + n % 10) as char]
  }

  function Candidate(desired: string, i: nat): string {
    desired + "-" + Decimal(i)
  }

  lemma {:induction false} DecimalIsInjective(a: nat, b: nat)
    requires Decimal(a) == Decimal(b)
    ensures a == b
    decreases a
  {
    var x, y := Decimal(a), Decimal(b);
    assert x[|x| - 1] == y[|y| - 1];
    assert a % 10 == b % 10;
    assert x[..|x| - 1] == (if a < 10 then "" else Decimal(a / 10));
    assert y[..|y| - 1] == (if b < 10 then "" else Decimal(b / 10));
    if a >= 10 && b >= 10 {
      DecimalIsInjective(a / 10, b / 10);
    }
  }

  // The number that a text of decimal digits stands for.
  function Value(s: string): int {
    if s == "" then 0 else 10 * Value(s[..|s| - 1]) + (s[|s| - 1] as int - '0' as int)
  }

  lemma ValueOfNext(front: string, digit: int)
    requires 0 <= digit < 10
    ensures Value(front + [('0' as int + digit) as char]) == 10 * Value(front) + digit
  {
    var s := front + [('0' as int + digit) as char];
    assert s[..|s| - 1] == front;
  }

  predicate AllDigits(s: string) {
    forall i :: 0 <= i < |s| ==> '0' <= s[i] <= '9'
  }

  // What is printed are digits without a leading zero, and they stand for the number.
  lemma {:induction false} DecimalReadsBack(n: nat)
    ensures Value(Decimal(n)) == n
    ensures Decimal(n) != "" && AllDigits(Decimal(n)) && (n > 0 ==> Decimal(n)[0] != '0')
  {
    var q, d := n / 10, n % 10;
    var front := if n < 10 then "" else Decimal(q);
    assert Decimal(n) == front + [('0' as int + d) as char];
    ValueOfNext(front, d);
    if n >= 10 {
      DecimalReadsBack(q);
    }
  }

  lemma CandidatesDiffer(desired: string, i: nat, j: nat)
    requires Candidate(desired, i) == Candidate(desired, j)
    ensures i == j
  {
    var x, y := Candidate(desired, i), Candidate(desired, j);
    assert x[|desired| + 1..] == Decimal(i) && y[|desired| + 1..] == Decimal(j);
    DecimalIsInjective(i, j);
  }

  function Names(existing: seq<Session>): set<string> {
    set s | s in existing :: s.name
  }

  // If the first suffixes are all taken, there are at least as many taken names.
  lemma {:induction false} TakenSuffixesCount(desired: string, taken: set<string>, i: nat)
    requires i >= 2 && forall j :: 2 <= j < i ==> Candidate(desired, j) in taken
    ensures i - 2 <= |taken|
    decreases i
  {
    if i > 2 {
      var last := Candidate(desired, i - 1);
      forall j | 2 <= j < i - 1 ensures Candidate(desired, j) in taken - {last} {
        if Candidate(desired, j) == last {
          CandidatesDiffer(desired, j, i - 1);
        }
      }
      TakenSuffixesCount(desired, taken - {last}, i - 1);
    }
  }

  // Some session is rooted at the path.
  ghost predicate Rooted(existing: seq<Session>, path: string, clean: string -> string, k: nat) {
    && k < |existing| && clean(existing[k].path) == clean(path)
    && forall j :: 0 <= j < k ==> clean(existing[j].path) != clean(path)
  }

  // The smallest suffix, from 2 up, whose name is free.
  ghost predicate SmallestFree(desired: string, taken: set<string>, i: nat) {
    i >= 2 && Candidate(desired, i) !in taken && forall j :: 2 <= j < i ==> Candidate(desired, j) in taken
  }

  method FirstFreeName(desired: string, taken: set<string>) returns (name: string)
    ensures exists i: nat :: i <= |taken| + 2 && SmallestFree(desired, taken, i)
                && name == desired + "-" + Decimal(i)
  {
    var i := 2;
    while Candidate(desired, i) in taken
      invariant i >= 2 && forall j :: 2 <= j < i ==> Candidate(desired, j) in taken
      decreases |taken| + 2 - i
    {
      TakenSuffixesCount(desired, taken, i + 1);
      i := i + 1;
    }
    TakenSuffixesCount(desired, taken, i);
    assert SmallestFree(desired, taken, i);
    return Candidate(desired, i);
  }

  // clean stands for filepath.Clean.
  method ResolveSessionName(desired: string, path: string, existing: seq<Session>, clean: string -> string)
    returns (name: string, resume: bool)
    ensures resume <==> exists k: nat :: Rooted(existing, path, clean, k)
    ensures resume ==> exists k: nat :: Rooted(existing, path, clean, k) && name == existing[k].name
    ensures !resume ==> name !in Names(existing)
    ensures !resume && desired !in Names(existing) ==> name == desired
    ensures !resume && desired in Names(existing) ==>
              exists i: nat :: i <= |Names(existing)| + 2 && SmallestFree(desired, Names(existing), i)
                  && name == desired + "-" + Decimal(i)
  {
    var taken: set<string> := {};
    for k := 0 to |existing|
      invariant taken == Names(existing[..k])
      invariant forall j :: 0 <= j < k ==> clean(existing[j].path) != clean(path)
    {
      NamesOfNext(existing, k);
      taken := taken + {existing[k].name};
      if clean(existing[k].path) == clean(path) {
        assert Rooted(existing, path, clean, k);
        return existing[k].name, true;
      }
    }
    assert existing[..|existing|] == existing;
    if desired !in taken {
      return desired, false;
    }
    name := FirstFreeName(desired, taken);
    return name, false;
  }

  lemma NamesOfNext(existing: seq<Session>, k: nat)
    requires k < |existing|
    ensures Names(existing[..k + 1]) == Names(existing[..k]) + {existing[k].name}
  {
    assert existing[..k + 1] == existing[..k] + [existing[k]];
  }
}
