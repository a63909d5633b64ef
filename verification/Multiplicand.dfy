/**
 The multiplier that clears the denominators of a sequence of rationals: the loop of
 get_multiplicand computes exactly their least common multiple.
 */
module Multiplicand {
  import opened Sequences
  import opened NumberTheory
  import opened Rationals

  /** Every number of the sequence divides x. */
  ghost predicate AllDivide(ds: seq<nat>, x: int) {
    forall i :: 0 <= i < |ds| ==> Divides(ds[i], x)
  }

  ghost predicate Positive(ds: seq<nat>) {
    forall i :: 0 <= i < |ds| ==> ds[i] > 0
  }

  /** The least common multiple, dividing the larger argument by the gcd first. */
  function Lcm(a: nat, b: nat): nat
    requires a > 0 && b > 0
  {
    if b > a then NatTimes(b / Gcd(a, b), a) else NatTimes(a / Gcd(a, b), b)
  }

  function NatTimes(x: int, y: nat): (z: nat)
    ensures x >= 0 ==> z == x * y
  {
    if x >= 0 then MulMono(0, x, y); x * y else 0
  }

  /** The denominator left of m/d in lowest terms. */
  function QuotientDen(m: nat, d: nat): nat
    requires d > 0
  {
    Reduce(m, d).den
  }

  lemma QuotientDenIs(m: nat, d: nat)
    requires d > 0
    ensures Gcd(m, d) > 0 && QuotientDen(m, d) == d / Gcd(m, d) > 0
    ensures d == Gcd(m, d) * QuotientDen(m, d)
  {
    CofactorsCoprime(m, d);
    assert QuotientDen(m, d) == d / Gcd(m, d);
  }

  /** Over a common factor g and coprime cofactors: g*n divides g*k*z exactly when n divides z. */
  lemma DividesCofactors(g: nat, n: nat, k: nat, z: int)
    requires g > 0 && n > 0 && Coprime(k, n)
    ensures g * n > 0 && (Divides(g * n, (g * k) * z) <==> Divides(n, z))
  {
    MulMono(1, g, n);
    if Divides(n, z) {
      DividesElim(n, z);
      var w := z / n;
      assert (g * k) * (n * w) == (g * n) * (k * w) by { Rearrange(g, k, n, w); }
      DividesIntro(g * n, k * w, (g * k) * z);
    }
    if Divides(g * n, (g * k) * z) {
      DividesElim(g * n, (g * k) * z);
      var w := (g * k) * z / (g * n);
      Rearrange(g, k, z, 1);
      Rearrange(g, n, w, 1);
      MulCancel(g, k * z, n * w);
      DividesIntro(n, w, k * z);
      CoprimeCommutes(k, n);
      EuclidLemma(n, k, z);
    }
  }

  lemma Rearrange(g: int, k: int, n: int, w: int)
    ensures (g * k) * (n * w) == (g * n) * (k * w) == g * (k * n * w)
    ensures (g * k) * n == g * (k * n)
  {
    assert (g * k) * (n * w) == g * (k * (n * w)) && (g * n) * (k * w) == g * (n * (k * w));
    assert k * (n * w) == n * (k * w) == k * n * w;
  }

  /** d divides m*z exactly when the denominator of m/d divides z. */
  lemma DividesProduct(d: nat, m: nat, z: int)
    requires d > 0 && m > 0
    ensures Divides(d, m * z) <==> Divides(QuotientDen(m, d), z)
  {
    QuotientDenIs(m, d);
    CofactorsCoprime(m, d);
    DividesCofactors(Gcd(m, d), QuotientDen(m, d), m / Gcd(m, d), z);
  }

  /** The least common multiple divides exactly the common multiples. */
  lemma LcmDivides(a: nat, b: nat, y: int)
    requires a > 0 && b > 0
    ensures Lcm(a, b) > 0
    ensures Divides(Lcm(a, b), y) <==> Divides(a, y) && Divides(b, y)
  {
    if b > a {
      GcdCommutes(a, b);
      LcmDividesOrdered(b, a, y);
    } else {
      LcmDividesOrdered(a, b, y);
    }
  }

  lemma ProductDivides(a: nat, b: nat, x: int)
    requires a > 0 && b > 0
    ensures NatTimes(a, b) > 0
    ensures Divides(NatTimes(a, b), x) <==> Divides(a, x) && Divides(b, x / a)
    ensures Divides(NatTimes(a, b), x) ==> x / NatTimes(a, b) == (x / a) / b
  {
    MulMono(1, a, b);
    if Divides(a * b, x) {
      DividesElim(a * b, x);
      var w := x / (a * b);
      assert (a * b) * w == a * (b * w);
      DividesIntro(a, b * w, x);
      DividesIntro(b, w, x / a);
    }
    if Divides(a, x) && Divides(b, x / a) {
      DividesElim(a, x);
      DividesElim(b, x / a);
      var w := (x / a) / b;
      assert a * (b * w) == (a * b) * w;
      DividesIntro(a * b, w, x);
    }
  }

  lemma LcmDividesOrdered(a: nat, b: nat, y: int)
    requires a > 0 && b > 0
    ensures a / Gcd(a, b) > 0 && NatTimes(a / Gcd(a, b), b) > 0
    ensures Divides(NatTimes(a / Gcd(a, b), b), y) <==> Divides(a, y) && Divides(b, y)
  {
    GcdCommutes(a, b);
    QuotientDenIs(b, a);
    var n := QuotientDen(b, a);
    ProductDivides(b, n, y);
    assert NatTimes(b, n) == NatTimes(n, b);
    if Divides(b, y) {
      DividesElim(b, y);
      DividesProduct(a, b, y / b);
    }
  }

  // ---------- the loop ----------

  /** Sorted without repetitions, as after std::sort and std::unique. */
  method SortUnique(ds: seq<nat>) returns (r: seq<nat>)
    ensures Ascending(r)
    ensures forall x :: x in r <==> x in ds
    ensures |r| <= |ds| && (|ds| > 0 ==> |r| > 0)
  {
    r := [];
    for i := 0 to |ds|
      invariant Ascending(r)
      invariant forall x :: x in r <==> x in ds[..i]
      invariant |r| <= i && (i > 0 ==> |r| > 0)
    {
      assert ds[..i + 1] == ds[..i] + [ds[i]];
      r := InsertSorted(r, ds[i]);
    }
    assert ds[..|ds|] == ds;
  }

  /** What the filtering pass keeps: the denominators left after taking out m. */
  ghost predicate Filtered(ds: seq<nat>, n: nat, m: nat, kept: seq<nat>)
    requires Positive(ds) && n <= |ds|
  {
    && (forall j :: 0 <= j < n ==> QuotientDen(m, ds[j]) == 1 || QuotientDen(m, ds[j]) in kept)
    && (forall k :: 0 <= k < |kept| ==> exists j :: 0 <= j < n && kept[k] == QuotientDen(m, ds[j]))
  }

  lemma FilteredDivides(ds: seq<nat>, n: nat, m: nat, kept: seq<nat>, z: int)
    requires Positive(ds) && n <= |ds| && m > 0 && Filtered(ds, n, m, kept)
    ensures AllDivide(kept, z) <==> AllDivide(ds[..n], m * z)
  {
    forall j | 0 <= j < n ensures Divides(ds[j], m * z) <==> Divides(QuotientDen(m, ds[j]), z) {
      DividesProduct(ds[j], m, z);
    }
    if AllDivide(kept, z) {
      forall j | 0 <= j < n ensures Divides(ds[..n][j], m * z) {
        if QuotientDen(m, ds[j]) == 1 { DividesIntro(1, z, z); }
      }
    }
    if AllDivide(ds[..n], m * z) {
      forall k | 0 <= k < |kept| ensures Divides(kept[k], z) {
        var j :| 0 <= j < n && kept[k] == QuotientDen(m, ds[j]);
        assert Divides(ds[..n][j], m * z);
      }
    }
  }

  /**
   x is a multiple of mult whose quotient every remaining denominator divides: the set of
   such x is what the loop keeps constant.
   */
  ghost predicate Clears(mult: nat, ds: seq<nat>, x: int) {
    Divides(mult, x) && AllDivide(ds, x / mult)
  }

  lemma ClearsSameSet(mult: nat, ds: seq<nat>, es: seq<nat>, x: int)
    requires forall d :: d in ds <==> d in es
    ensures Clears(mult, ds, x) <==> Clears(mult, es, x)
  {
    if Divides(mult, x) {
      if AllDivide(ds, x / mult) {
        forall i | 0 <= i < |es| ensures Divides(es[i], x / mult) {
          assert es[i] in ds;
        }
      }
      if AllDivide(es, x / mult) {
        forall i | 0 <= i < |ds| ensures Divides(ds[i], x / mult) {
          assert ds[i] in es;
        }
      }
    }
  }

  /** One round: the two largest denominators move into the multiplier as their lcm. */
  lemma RoundKeepsClears(mult: nat, ds: seq<nat>, kept: seq<nat>, m: nat, x: int)
    requires mult > 0 && |ds| >= 2 && Positive(ds)
    requires m == Lcm(ds[|ds| - 1], ds[|ds| - 2]) && m > 0
    requires Filtered(ds, |ds| - 2, m, kept)
    ensures Clears(mult, ds, x) <==> Clears(NatTimes(mult, m), kept, x)
  {
    ProductDivides(mult, m, x);
    var n := |ds| - 2;
    if Divides(mult, x) {
      var y := x / mult;
      LcmDivides(ds[n + 1], ds[n], y);
      if Divides(m, y) {
        DividesElim(m, y);
        FilteredDivides(ds, n, m, kept, y / m);
        assert AllDivide(ds, y) <==> AllDivide(ds[..n], y) by {
          forall i | 0 <= i < |ds| && AllDivide(ds[..n], y) ensures Divides(ds[i], y) {
            if i < n { assert Divides(ds[..n][i], y); }
          }
        }
      } else {
        assert Divides(ds[n], y) && Divides(ds[n + 1], y) ==> Divides(m, y);
      }
    }
  }

  /** The filtering pass over all but the two largest denominators, in place. */
  method FilterInPlace(ds: seq<nat>, m: nat) returns (kept: seq<nat>)
    requires |ds| >= 2 && Positive(ds) && m > 0
    ensures Positive(kept) && |kept| <= |ds| - 2
    ensures Filtered(ds, |ds| - 2, m, kept)
  {
    var k := 0;
    var a := ds;
    for j := 0 to |ds| - 2
      invariant 0 <= k <= j && |a| == |ds| && a[j..] == ds[j..]
      invariant Positive(a[..k]) && Filtered(ds, j, m, a[..k])
    {
      assert a[j] == a[j..][0] == ds[j];
      var n := QuotientDen(m, a[j]);
      QuotientDenIs(m, ds[j]);
      ghost var before := a[..k];
      if n != 1 {
        a := a[k := n];
        assert a[..k + 1] == before + [n];
        k := k + 1;
      }
      FilteredStep(ds, j, m, before, n, a[..k]);
    }
    kept := a[..k];
  }

  lemma FilteredStep(ds: seq<nat>, j: nat, m: nat, before: seq<nat>, n: nat, after: seq<nat>)
    requires Positive(ds) && j < |ds| && Filtered(ds, j, m, before) && n == QuotientDen(m, ds[j])
    requires after == if n != 1 then before + [n] else before
    ensures Filtered(ds, j + 1, m, after)
  {
    forall i | 0 <= i < j + 1 ensures QuotientDen(m, ds[i]) == 1 || QuotientDen(m, ds[i]) in after {
    }
    forall k | 0 <= k < |after| ensures exists i :: 0 <= i < j + 1 && after[k] == QuotientDen(m, ds[i]) {
      if k < |before| {
        var i :| 0 <= i < j && before[k] == QuotientDen(m, ds[i]);
        assert after[k] == QuotientDen(m, ds[i]);
      } else {
        assert after[k] == QuotientDen(m, ds[j]);
      }
    }
  }

  /** The integers that clear every denominator are exactly the multiples of the result. */
  method GetMultiplicand(reals: seq<Q>) returns (mult: nat)
    requires forall i :: 0 <= i < |reals| ==> Canonical(reals[i])
    ensures mult > 0
    ensures forall x: int :: Divides(mult, x) <==> forall i :: 0 <= i < |reals| ==> Divides(reals[i].den, x)
  {
    var dens: seq<nat> := [];
    for i := 0 to |reals|
      invariant Positive(dens)
      invariant forall d :: d in dens ==> exists j :: 0 <= j < i && reals[j].den == d
      invariant forall j :: 0 <= j < i ==> reals[j].den == 1 || reals[j].den in dens
    {
      if reals[i].den != 1 {
        dens := dens + [reals[i].den];
      }
    }
    ghost var all := dens;
    mult := 1;
    forall x: int ensures Clears(1, all, x) <==> AllDivide(all, x) {
      DividesIntro(1, x, x);
    }
    while |dens| > 0
      invariant mult > 0 && Positive(dens)
      invariant forall x: int :: Clears(mult, dens, x) <==> AllDivide(all, x)
      decreases |dens|
    {
      var sorted := SortUnique(dens);
      forall x: int ensures Clears(mult, sorted, x) <==> AllDivide(all, x) {
        ClearsSameSet(mult, dens, sorted, x);
        assert Clears(mult, dens, x) <==> AllDivide(all, x);
      }
      assert Positive(sorted) by {
        forall i | 0 <= i < |sorted| ensures sorted[i] > 0 { assert sorted[i] in dens; }
      }
      ghost var was := mult;
      if |sorted| == 1 {
        forall x: int ensures Clears(NatTimes(mult, sorted[0]), [], x) <==> AllDivide(all, x) {
          ProductDivides(mult, sorted[0], x);
          assert Clears(mult, sorted, x) <==> AllDivide(all, x);
        }
        ProductDivides(mult, sorted[0], 0);
        mult := NatTimes(mult, sorted[0]);
        dens := [];
      } else {
        LcmDivides(sorted[|sorted| - 1], sorted[|sorted| - 2], 0);
        var m := Lcm(sorted[|sorted| - 1], sorted[|sorted| - 2]);
        var kept := FilterInPlace(sorted, m);
        forall x: int ensures Clears(NatTimes(mult, m), kept, x) <==> AllDivide(all, x) {
          RoundKeepsClears(mult, sorted, kept, m, x);
          assert Clears(mult, sorted, x) <==> AllDivide(all, x);
        }
        ProductDivides(mult, m, 0);
        mult := NatTimes(mult, m);
        dens := kept;
      }
    }
    forall x: int
      ensures Divides(mult, x) <==> forall i :: 0 <= i < |reals| ==> Divides(reals[i].den, x)
    {
      assert Clears(mult, [], x) <==> AllDivide(all, x);
      DividesIntro(1, x, x);
      assert (forall i :: 0 <= i < |reals| ==> Divides(reals[i].den, x)) ==> AllDivide(all, x) by {
        forall k | 0 <= k < |all| && (forall i :: 0 <= i < |reals| ==> Divides(reals[i].den, x))
          ensures Divides(all[k], x)
        {
          assert all[k] in all;
        }
      }
    }
  }

  /** Multiplying a fraction in lowest terms gives an integer exactly for multiples of its denominator. */
  lemma IntegerProduct(q: Q, m: int)
    requires Canonical(q)
    ensures Mul(q, Q(m, 1)).den == 1 <==> Divides(q.den, m)
  {
    var r := Mul(q, Q(m, 1));
    var p := q.num * m;
    var k := if q.num < 0 then -1 else 1;
    assert Abs(q.num) * m == p * k;
    if Divides(q.den, m) {
      DividesMultiple(q.den, m, q.num);
      DividesElim(q.den, p);
      FractionsEqual(p, q.den, p / q.den, 1);
      RealProduct(q, Q(m, 1), p, q.den);
      CanonicalUnique(r, Q(p / q.den, 1));
    }
    if r.den == 1 {
      RealProduct(q, Q(m, 1), p, q.den);
      FractionsEqualConverse(p, q.den, r.num, 1);
      DividesIntro(q.den, r.num, p);
      DividesMultiple(q.den, p, k);
      CoprimeCommutes(q.den, Abs(q.num));
      EuclidLemma(q.den, Abs(q.num), m);
    }
  }
}
