/** Small shared vocabulary. */
module Prelude {
  datatype Option<+T> = None | Some(value: T)

  function Max(a: int, b: int): int {
    if a >= b then a else b
  }

  // The last n elements of s, or all of s if it is shorter.
  function LastN<T>(n: nat, s: seq<T>): seq<T> {
    if |s| <= n then s else s[|s| - n..]
  }

  predicate NoDuplicates<T(==)>(s: seq<T>) {
    forall i, j :: 0 <= i < j < |s| ==> s[i] != s[j]
  }

  lemma Assoc<T>(a: seq<T>, b: seq<T>, c: seq<T>)
    ensures a + b + c == a + (b + c)
  {
  }

  lemma SuffixStep<T>(s: seq<T>, i: nat)
    requires i < |s|
    ensures s[i..] == [s[i]] + s[i + 1..]
  {
  }

  lemma FrontOfAppended<T>(s: seq<T>, x: T)
    ensures (s + [x])[..|s|] == s && (s + [x])[|s|] == x
  {
  }

  lemma DropOfConcat<T>(a: seq<T>, b: seq<T>, k: nat)
    requires k <= |b|
    ensures (a + b)[|a| + k..] == b[k..]
  {
    var x, y := (a + b)[|a| + k..], b[k..];
    assert |x| == |y|;
    forall i | 0 <= i < |y| ensures x[i] == y[i] {
      assert x[i] == (a + b)[|a| + k + i];
    }
  }

  // The last elements of a concatenation whose second part is long enough.
  lemma LastNOfConcat<T>(n: nat, a: seq<T>, b: seq<T>)
    requires n <= |b|
    ensures LastN(n, a + b) == LastN(n, b)
  {
    DropOfConcat(a, b, |b| - n);
    if |b| == n {
      assert b[0..] == b;
      if a == [] {
        assert a + b == b;
      }
    }
  }

  lemma LastNAt<T>(n: nat, s: seq<T>, i: nat)
    requires i < |LastN(n, s)|
    ensures LastN(n, s)[i] == s[|s| - |LastN(n, s)| + i]
  {
  }
}
