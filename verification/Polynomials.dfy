/**
 Linear polynomials as lists of monomials, sorted by variable. The undefined reference, the
 largest of all, stands for the constant.
 */
module Polynomials {

  const UNDEF: nat := 0x7fff_ffff

  datatype Monomial = Monomial(v: nat, coeff: real)

  type Poly = seq<Monomial>

  /** Sorted, without zero coefficients. */
  ghost predicate Proper(p: Poly) {
    && (forall i, j :: 0 <= i < j < |p| ==> p[i].v < p[j].v)
    && (forall i :: 0 <= i < |p| ==> p[i].coeff != 0.0 && p[i].v <= UNDEF)
  }

  function Variables(p: Poly): set<nat> {
    set x | x in p :: x.v
  }

  // ---------- values ----------

  type Values = nat -> real

  ghost function ValueOf(m: Values, v: nat): real {
    if v == UNDEF then 1.0 else m(v)
  }

  /** The value of a monomial. */
  ghost function Part(x: Monomial, m: Values): real {
    x.coeff * ValueOf(m, x.v)
  }

  ghost function Eval(p: Poly, m: Values): real {
    if p == [] then 0.0 else Part(p[0], m) + Eval(p[1..], m)
  }

  ghost function Scale(c: real, x: real): real {
    c * x
  }

  lemma ScaleSum(c: real, x: real, y: real)
    ensures Scale(c, x + y) == Scale(c, x) + Scale(c, y)
  {
  }

  /** A monomial times a number. */
  function Times(x: Monomial, c: real): Monomial {
    Monomial(x.v, x.coeff * c)
  }

  lemma ScalePart(c: real, x: Monomial, m: Values)
    ensures Scale(c, Part(x, m)) == Part(Times(x, c), m)
  {
    var y := ValueOf(m, x.v);
    assert c * (x.coeff * y) == (x.coeff * c) * y;
  }

  lemma PartSum(v: nat, c: real, d: real, m: Values)
    ensures Part(Monomial(v, c + d), m) == Part(Monomial(v, c), m) + Part(Monomial(v, d), m)
    ensures Part(Monomial(v, 0.0), m) == 0.0
  {
  }

  lemma {:induction false} EvalAppend(p: Poly, q: Poly, m: Values)
    ensures Eval(p + q, m) == Eval(p, m) + Eval(q, m)
  {
    if p == [] {
      assert p + q == q;
    } else {
      assert (p + q)[1..] == p[1..] + q;
      EvalAppend(p[1..], q, m);
    }
  }

  lemma EvalOne(x: Monomial, m: Values)
    ensures Eval([x], m) == Part(x, m)
  {
    assert [x][1..] == [];
    assert Eval([], m) == 0.0;
  }

  lemma EvalPush(p: Poly, x: Monomial, m: Values)
    ensures Eval(p + [x], m) == Eval(p, m) + Part(x, m)
  {
    EvalAppend(p, [x], m);
    EvalOne(x, m);
  }

  lemma EvalTake(p: Poly, i: nat, m: Values)
    requires i < |p|
    ensures Eval(p[..i + 1], m) == Eval(p[..i], m) + Part(p[i], m)
  {
    assert p[..i + 1] == p[..i] + [p[i]];
    EvalPush(p[..i], p[i], m);
  }

  lemma {:induction false} EvalAgree(p: Poly, m: Values, n: Values)
    requires forall v :: v in Variables(p) && v != UNDEF ==> m(v) == n(v)
    ensures Eval(p, m) == Eval(p, n)
  {
    if p != [] {
      assert p[0].v in Variables(p);
      assert forall x :: x in p[1..] ==> x in p;
      EvalAgree(p[1..], m, n);
    }
  }

  // ---------- removing a variable ----------

  function IndexOf(p: Poly, v: nat): (i: nat)
    requires v in Variables(p)
    ensures i < |p| && p[i].v == v
  {
    if p[0].v == v then 0
    else
      assert p == [p[0]] + p[1..];
      1 + IndexOf(p[1..], v)
  }

  function Without(p: Poly, v: nat): Poly
    requires v in Variables(p)
  {
    p[..IndexOf(p, v)] + p[IndexOf(p, v) + 1..]
  }

  function CoeffOf(p: Poly, v: nat): real
    requires v in Variables(p)
  {
    p[IndexOf(p, v)].coeff
  }

  lemma WithoutIs(p: Poly, v: nat)
    requires Proper(p) && v in Variables(p)
    ensures var q := Without(p, v);
            Proper(q) && |q| == |p| - 1 && Variables(q) == Variables(p) - {v} && CoeffOf(p, v) != 0.0
  {
    var i, q := IndexOf(p, v), Without(p, v);
    hide IndexOf, Variables;
    assert forall k :: 0 <= k < |q| ==> q[k] == p[if k < i then k else k + 1];
    TakeOut(p, i, q);
  }

  lemma TakeOut(p: Poly, i: nat, q: Poly)
    requires Proper(p) && i < |p| && |q| == |p| - 1
    requires forall k :: 0 <= k < |q| ==> q[k] == p[if k < i then k else k + 1]
    ensures Variables(q) == Variables(p) - {p[i].v}
  {
    forall x | x in Variables(p) - {p[i].v} ensures x in Variables(q) {
      var y :| y in p && y.v == x;
      var k :| 0 <= k < |p| && p[k] == y;
      var k' := if k < i then k else k - 1;
      assert q[k'] == y && q[k'] in q;
    }
    forall x | x in Variables(q) ensures x in Variables(p) - {p[i].v} {
      var y :| y in q && y.v == x;
      var k :| 0 <= k < |q| && q[k] == y;
      var k' := if k < i then k else k + 1;
      assert p[k'] == y && p[k'] in p && p[k'].v != p[i].v;
    }
  }

  lemma WithoutEval(p: Poly, v: nat, m: Values)
    requires v in Variables(p)
    ensures Eval(p, m) == Part(Monomial(v, CoeffOf(p, v)), m) + Eval(Without(p, v), m)
  {
    var i := IndexOf(p, v);
    assert p == (p[..i] + [p[i]]) + p[i + 1..];
    EvalAppend(p[..i] + [p[i]], p[i + 1..], m);
    EvalPush(p[..i], p[i], m);
    EvalAppend(p[..i], p[i + 1..], m);
    assert p[i] == Monomial(v, CoeffOf(p, v));
  }

  /** Finds the variable's monomial and takes it out. */
  method RemoveVar(p: Poly, v: nat) returns (coeff: real, q: Poly)
    requires v in Variables(p)
    ensures coeff == CoeffOf(p, v) && q == Without(p, v)
  {
    var i := 0;
    while p[i].v != v
      invariant 0 <= i <= IndexOf(p, v)
      invariant v in Variables(p[i..]) && IndexOf(p, v) == i + IndexOf(p[i..], v)
      decreases |p| - i
    {
      assert p[i..][1..] == p[i + 1..] && p[i..] == [p[i]] + p[i + 1..];
      i := i + 1;
    }
    coeff, q := p[i].coeff, p[..i] + p[i + 1..];
  }

  /** Divides every coefficient. */
  method DivideBy(p: Poly, r: real) returns (q: Poly)
    requires r != 0.0
    ensures |q| == |p| && forall i :: 0 <= i < |p| ==> q[i] == Monomial(p[i].v, p[i].coeff / r)
  {
    q := [];
    for i := 0 to |p|
      invariant |q| == i && forall k :: 0 <= k < i ==> q[k] == Monomial(p[k].v, p[k].coeff / r)
    {
      q := q + [Monomial(p[i].v, p[i].coeff / r)];
    }
  }

  ghost predicate Divided(p: Poly, r: real, q: Poly)
    requires r != 0.0
  {
    |q| == |p| && forall i :: 0 <= i < |p| ==> q[i] == Monomial(p[i].v, p[i].coeff / r)
  }

  lemma DivideReals(x: real, y: real, r: real)
    requires r != 0.0
    ensures (x / r) * y == (x * y) / r
    ensures x != 0.0 ==> x / r != 0.0
  {
    var q := x / r;
    assert q * r == x;
    assert (q * y) * r == x * y;
  }

  lemma {:induction false} DividedEval(p: Poly, r: real, q: Poly, m: Values)
    requires r != 0.0 && Divided(p, r, q)
    ensures Eval(q, m) == Eval(p, m) / r
  {
    if p == [] {
      assert Eval(p, m) == 0.0 && 0.0 / r == 0.0;
    } else {
      DividedEval(p[1..], r, q[1..], m);
      DividedPart(p[0], r, m);
      assert Eval(q, m) == Part(q[0], m) + Eval(q[1..], m) && Eval(p, m) == Part(p[0], m) + Eval(p[1..], m);
      hide *;
      SumQuotient(Part(p[0], m), Eval(p[1..], m), r);
    }
  }

  lemma DividedPart(x: Monomial, r: real, m: Values)
    requires r != 0.0
    ensures Part(Monomial(x.v, x.coeff / r), m) == Part(x, m) / r
  {
    DivideReals(x.coeff, ValueOf(m, x.v), r);
  }

  lemma SumQuotient(x: real, y: real, r: real)
    requires r != 0.0
    ensures x / r + y / r == (x + y) / r
  {
    assert (x / r + y / r) * r == x + y;
  }

  lemma DividedProper(p: Poly, r: real, q: Poly)
    requires r != 0.0 && Divided(p, r, q) && Proper(p)
    ensures Proper(q) && Variables(q) == Variables(p)
  {
    forall i | 0 <= i < |p| ensures q[i].coeff != 0.0 { DivideReals(p[i].coeff, 0.0, r); }
    forall x | x in Variables(p) ensures x in Variables(q) {
      var k :| 0 <= k < |p| && p[k].v == x;
      assert q[k] in q;
    }
    forall x | x in Variables(q) ensures x in Variables(p) {
      var k :| 0 <= k < |q| && q[k].v == x;
      assert p[k] in p;
    }
  }

  // ---------- merging ----------

  /** The first monomials of both polynomials have been merged. */
  ghost predicate Merging(p: Poly, i: nat, other: Poly, j: nat, coeff: real, out: Poly) {
    && i <= |p| && j <= |other| && Proper(p) && Proper(other) && coeff != 0.0
    && Proper(out) && Before(out, p, i) && Before(out, other, j)
    && SameValue(p[..i], other[..j], coeff, out) && SameNames(Variables(p[..i]), Variables(other[..j]), Variables(out))
  }

  ghost predicate Before(out: Poly, p: Poly, i: nat) {
    forall x :: x in out ==> i < |p| ==> x.v < p[i].v
  }

  ghost predicate SameValue(p: Poly, other: Poly, coeff: real, out: Poly) {
    forall m: Values :: Eval(out, m) == Eval(p, m) + Scale(coeff, Eval(other, m))
  }

  ghost predicate SameNames(ps: set<nat>, others: set<nat>, outs: set<nat>) {
    outs <= ps + others && ps - others <= outs
  }

  /** What merging promises: the sum of the polynomials, the second one scaled. */
  ghost predicate IsSum(p: Poly, other: Poly, coeff: real, out: Poly) {
    Proper(out) && SameValue(p, other, coeff, out) && SameNames(Variables(p), Variables(other), Variables(out))
  }

  lemma ProperPush(out: Poly, x: Monomial)
    requires Proper(out) && (forall y :: y in out ==> y.v < x.v) && x.v <= UNDEF && x.coeff != 0.0
    ensures Proper(out + [x])
  {
    var r := out + [x];
    forall i, j | 0 <= i < j < |r| ensures r[i].v < r[j].v {
      assert out[i] in out;
    }
  }

  lemma TakeVariables(p: Poly, i: nat)
    requires i < |p|
    ensures Variables(p[..i + 1]) == Variables(p[..i]) + {p[i].v}
  {
    assert p[..i + 1] == p[..i] + [p[i]];
    PushVariables(p[..i], p[i]);
  }

  lemma PushVariables(p: Poly, x: Monomial)
    ensures Variables(p + [x]) == Variables(p) + {x.v}
  {
    forall v | v in Variables(p) + {x.v} ensures v in Variables(p + [x]) {
      if v == x.v { assert x in p + [x]; } else { var y :| y in p && y.v == v; assert y in p + [x]; }
    }
  }

  lemma NextLater(p: Poly, i: nat)
    requires Proper(p) && i < |p|
    ensures i + 1 < |p| ==> p[i].v < p[i + 1].v
    ensures p[i].coeff != 0.0 && p[i].v <= UNDEF
  {
  }

  lemma BeforePush(out: Poly, x: Monomial, p: Poly, i: nat)
    requires Before(out, p, i) && Proper(p) && i < |p| && p[i].v == x.v
    ensures Before(out + [x], p, i + 1) && Before(out, p, i + 1)
  {
    assert i + 1 < |p| ==> p[i].v < p[i + 1].v;
  }

  lemma BeforeStays(out: Poly, x: Monomial, p: Poly, i: nat)
    requires Before(out, p, i) && (i < |p| ==> x.v < p[i].v)
    ensures Before(out + [x], p, i)
  {
  }

  lemma PushOk(p: Poly, i: nat, x: Monomial, out: Poly)
    requires Proper(p) && i < |p| && Before(out, p, i) && Proper(out) && x.v == p[i].v && x.coeff != 0.0
    ensures Proper(out + [x])
  {
    ProperPush(out, x);
  }

  lemma FirstValue(p: Poly, i: nat, q: Poly, coeff: real, out: Poly)
    requires i < |p| && SameValue(p[..i], q, coeff, out)
    ensures SameValue(p[..i + 1], q, coeff, out + [p[i]])
  {
    hide Eval, Scale, Part;
    forall m: Values ensures Eval(out + [p[i]], m) == Eval(p[..i + 1], m) + Scale(coeff, Eval(q, m)) {
      EvalPush(out, p[i], m);
      EvalTake(p, i, m);
    }
  }

  lemma SecondValue(q: Poly, other: Poly, j: nat, coeff: real, out: Poly)
    requires j < |other| && SameValue(q, other[..j], coeff, out)
    ensures SameValue(q, other[..j + 1], coeff, out + [Times(other[j], coeff)])
  {
    var x := Times(other[j], coeff);
    hide Eval, Scale, Part, Times;
    forall m: Values ensures Eval(out + [x], m) == Eval(q, m) + Scale(coeff, Eval(other[..j + 1], m)) {
      EvalPush(out, x, m);
      EvalTake(other, j, m);
      ScaleSum(coeff, Eval(other[..j], m), Part(other[j], m));
      ScalePart(coeff, other[j], m);
    }
  }

  lemma BothValue(p: Poly, i: nat, other: Poly, j: nat, coeff: real, out: Poly, c: real)
    requires i < |p| && j < |other| && p[i].v == other[j].v && SameValue(p[..i], other[..j], coeff, out)
    requires c == p[i].coeff + Times(other[j], coeff).coeff
    ensures SameValue(p[..i + 1], other[..j + 1], coeff, if c == 0.0 then out else out + [Monomial(p[i].v, c)])
  {
    var x, y := Monomial(p[i].v, c), Times(other[j], coeff);
    assert y == Monomial(x.v, y.coeff) && p[i] == Monomial(x.v, p[i].coeff);
    var out' := if c == 0.0 then out else out + [x];
    hide Eval, Scale, Part, Times;
    forall m: Values ensures Eval(out', m) == Eval(p[..i + 1], m) + Scale(coeff, Eval(other[..j + 1], m)) {
      EvalPush(out, x, m);
      EvalTake(p, i, m);
      EvalTake(other, j, m);
      ScaleSum(coeff, Eval(other[..j], m), Part(other[j], m));
      ScalePart(coeff, other[j], m);
      PartSum(x.v, p[i].coeff, y.coeff, m);
    }
  }

  /** The next monomial comes from the first polynomial only. */
  lemma MergeFirst(p: Poly, i: nat, other: Poly, j: nat, coeff: real, out: Poly)
    requires Merging(p, i, other, j, coeff, out) && i < |p| && (j < |other| ==> p[i].v < other[j].v)
    ensures Merging(p, i + 1, other, j, coeff, out + [p[i]])
  {
    NextLater(p, i);
    hide Proper, Variables, SameValue, Before;
    PushOk(p, i, p[i], out);
    BeforePush(out, p[i], p, i);
    BeforeStays(out, p[i], other, j);
    FirstValue(p, i, other[..j], coeff, out);
    TakeVariables(p, i);
    PushVariables(out, p[i]);
  }

  /** The next monomial comes from the second polynomial only. */
  lemma MergeSecond(p: Poly, i: nat, other: Poly, j: nat, coeff: real, out: Poly)
    requires Merging(p, i, other, j, coeff, out) && j < |other| && (i < |p| ==> other[j].v < p[i].v)
    ensures Merging(p, i, other, j + 1, coeff, out + [Times(other[j], coeff)])
  {
    var x := Times(other[j], coeff);
    NextLater(other, j);
    NotZero(other[j].coeff, coeff);
    hide Proper, Variables, SameValue, Before;
    PushOk(other, j, x, out);
    BeforePush(out, x, other, j);
    BeforeStays(out, x, p, i);
    SecondValue(p[..i], other, j, coeff, out);
    TakeVariables(other, j);
    PushVariables(out, x);
  }

  lemma NotZero(x: real, y: real)
    requires x != 0.0 && y != 0.0
    ensures x * y != 0.0
  {
  }

  /** Both polynomials have the variable next; the monomial may vanish. */
  lemma MergeBoth(p: Poly, i: nat, other: Poly, j: nat, coeff: real, out: Poly, c: real)
    requires Merging(p, i, other, j, coeff, out) && i < |p| && j < |other| && p[i].v == other[j].v
    requires c == p[i].coeff + Times(other[j], coeff).coeff
    ensures Merging(p, i + 1, other, j + 1, coeff, if c == 0.0 then out else out + [Monomial(p[i].v, c)])
  {
    var x := Monomial(p[i].v, c);
    NextLater(p, i);
    hide Proper, Variables, SameValue, Before;
    if c != 0.0 { PushOk(p, i, x, out); }
    BeforePush(out, x, p, i);
    BeforePush(out, x, other, j);
    BothValue(p, i, other, j, coeff, out, c);
    TakeVariables(p, i);
    TakeVariables(other, j);
    PushVariables(out, x);
  }

  lemma MergeDone(p: Poly, other: Poly, coeff: real, out: Poly)
    requires Merging(p, |p|, other, |other|, coeff, out)
    ensures IsSum(p, other, coeff, out)
  {
    assert p[..|p|] == p && other[..|other|] == other;
  }

  lemma MergeStarts(p: Poly, other: Poly, coeff: real)
    requires Proper(p) && Proper(other) && coeff != 0.0
    ensures Merging(p, 0, other, 0, coeff, [])
  {
    assert p[..0] == [] && other[..0] == [];
    assert Scale(coeff, 0.0) == 0.0;
    forall m: Values ensures Eval([], m) == 0.0 {}
  }

  /** Adds a multiple of another polynomial. */
  method Merge(p: Poly, other: Poly, coeff: real) returns (out: Poly)
    requires Proper(p) && Proper(other) && coeff != 0.0
    ensures IsSum(p, other, coeff, out)
  {
    hide *;
    MergeStarts(p, other, coeff);
    out := [];
    var i: nat, j: nat := 0, 0;
    while i < |p| && j < |other|
      invariant Merging(p, i, other, j, coeff, out) && i <= |p| && j <= |other|
      decreases |p| + |other| - i - j
    {
      if p[i].v < other[j].v {
        MergeFirst(p, i, other, j, coeff, out);
        out, i := out + [p[i]], i + 1;
      } else if other[j].v < p[i].v {
        MergeSecond(p, i, other, j, coeff, out);
        out, j := out + [Times(other[j], coeff)], j + 1;
      } else {
        var c := p[i].coeff + Times(other[j], coeff).coeff;
        MergeBoth(p, i, other, j, coeff, out, c);
        if c != 0.0 { out := out + [Monomial(p[i].v, c)]; }
        i, j := i + 1, j + 1;
      }
    }
    out := MergeRest(p, i, other, j, coeff, out);
    MergeDone(p, other, coeff, out);
  }

  /** What is left of one of the polynomials. */
  method MergeRest(p: Poly, i0: nat, other: Poly, j0: nat, coeff: real, out0: Poly) returns (out: Poly)
    requires Merging(p, i0, other, j0, coeff, out0) && i0 <= |p| && j0 <= |other| && (i0 == |p| || j0 == |other|)
    ensures Merging(p, |p|, other, |other|, coeff, out)
  {
    hide *;
    out := out0;
    var i, j := i0, j0;
    while j < |other|
      invariant Merging(p, i, other, j, coeff, out) && j <= |other| && (i == |p| || j == |other|)
      decreases |other| - j
    {
      MergeSecond(p, i, other, j, coeff, out);
      out, j := out + [Times(other[j], coeff)], j + 1;
    }
    while i < |p|
      invariant Merging(p, i, other, j, coeff, out) && i <= |p|
      decreases |p| - i
    {
      MergeFirst(p, i, other, j, coeff, out);
      out, i := out + [p[i]], i + 1;
    }
  }
}
