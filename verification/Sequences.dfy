/**
 Options, and lists of numbers that are sorted or free of repetitions.
 */
module Sequences {

  datatype Option<T> = None | Some(value: T)

  ghost predicate Distinct<T>(s: seq<T>) {
    forall i, j :: 0 <= i < j < |s| ==> s[i] != s[j]
  }

  lemma DistinctPush<T>(xs: seq<T>, x: T)
    requires Distinct(xs) && x !in xs
    ensures Distinct(xs + [x])
  {
    forall i, j | 0 <= i < j < |xs| + 1 ensures (xs + [x])[i] != (xs + [x])[j] {
      assert xs[i] in xs;
    }
  }

  predicate Ascending(xs: seq<nat>) {
    forall i, j :: 0 <= i < j < |xs| ==> xs[i] < xs[j]
  }

  lemma AscendingPush(xs: seq<nat>, i: nat)
    requires Ascending(xs) && forall x :: x in xs ==> x < i
    ensures Ascending(xs + [i])
  {
    forall a, b | 0 <= a < b < |xs| + 1 ensures (xs + [i])[a] < (xs + [i])[b] {
      assert xs[a] in xs;
    }
  }

  lemma AscendingTail(xs: seq<nat>)
    requires xs != []
    ensures Ascending(xs) ==> Ascending(xs[1..]) && forall y :: y in xs[1..] ==> xs[0] < y
  {
  }

  lemma AscendingCons(x: nat, ys: seq<nat>)
    ensures Ascending(ys) && (forall y :: y in ys ==> x < y) ==> Ascending([x] + ys)
  {
    if Ascending(ys) && (forall y :: y in ys ==> x < y) {
      var r := [x] + ys;
      forall i, j | 0 <= i < j < |r| ensures r[i] < r[j] {
        assert r[j] == ys[j - 1] && ys[j - 1] in ys;
      }
    }
  }

  /** Inserts a number into a sorted set. */
  function InsertSorted(xs: seq<nat>, x: nat): (r: seq<nat>)
    ensures forall y :: y in r <==> y in xs || y == x
    ensures Ascending(xs) ==> Ascending(r)
    ensures 0 < |r| <= |xs| + 1
  {
    if xs == [] then [x]
    else if x == xs[0] then xs
    else if x < xs[0] then [x] + xs
    else
      AscendingTail(xs);
      var rest := InsertSorted(xs[1..], x);
      AscendingCons(xs[0], rest);
      assert xs == [xs[0]] + xs[1..];
      [xs[0]] + rest
  }

  // ---------- counting ----------

  function ToSet<T(==)>(xs: seq<T>): set<T> {
    set x | x in xs
  }

  /** The numbers below n. */
  function UpTo(n: nat): (r: set<nat>)
    ensures |r| == n && forall x: nat :: x in r <==> x < n
  {
    if n == 0 then {} else UpTo(n - 1) + {n - 1}
  }

  lemma {:induction false} DistinctSize(xs: seq<nat>)
    requires Distinct(xs)
    ensures |ToSet(xs)| == |xs|
  {
    if xs == [] {
      assert ToSet(xs) == {};
    } else {
      var r, x := xs[..|xs| - 1], xs[|xs| - 1];
      assert xs == r + [x];
      DistinctSize(r);
      assert forall i :: 0 <= i < |r| ==> r[i] == xs[i] && xs[i] != x;
      assert ToSet(xs) == ToSet(r) + {x};
    }
  }

  lemma SubsetSize(a: set<nat>, b: set<nat>)
    requires a <= b
    ensures |a| <= |b| && (|a| == |b| ==> a == b)
  {
    assert b == a + (b - a);
  }
}
