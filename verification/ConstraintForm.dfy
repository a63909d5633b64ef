/**
 The normal form of a linear constraint is decided by the solutions: constraints with the same
 solutions are the same term, equalities up to the sign of both sides.
 */
module ConstraintForm {
  import opened NumberTheory
  import opened Rationals
  import opened Sequences
  import opened LinearConstraints

  /** What the constructors return. */
  ghost predicate Normal(c: Constraint, isInt: bool) {
    ProperConstraint(c) && if isInt then Tight(c) else UnitLead(c)
  }

  /** The points that count: all of them, or those with integer values. */
  ghost predicate OnGrid(isInt: bool, m: Reals) {
    isInt ==> forall v: nat :: m(v) == m(v).Floor as real
  }

  ghost predicate SameOn(isInt: bool, c: Constraint, d: Constraint)
    requires ProperConstraint(c) && ProperConstraint(d)
  {
    forall m: Reals :: OnGrid(isInt, m) ==> (Satisfies(m, c) <==> Satisfies(m, d))
  }

  // ---------- coefficients ----------

  ghost function Coefficient(fs: seq<Factor>, v: nat): real
    requires Dots(fs)
  {
    if fs == [] then 0.0 else (if fs[0].v == v then RealOf(fs[0].coeff) else 0.0) + Coefficient(fs[1..], v)
  }

  ghost function Moved(m: Reals, v: nat, t: real): Reals {
    (x: nat) => if x == v then m(x) + t else m(x)
  }

  /** Moving one variable changes the value by its coefficient. */
  lemma {:induction false} MovedDot(fs: seq<Factor>, m: Reals, v: nat, t: real)
    requires Dots(fs)
    ensures Dot(fs, Moved(m, v, t)) == Dot(fs, m) + Product(Coefficient(fs, v), t)
  {
    if fs == [] {
      assert Product(0.0, t) == 0.0;
    } else {
      MovedDot(fs[1..], m, v, t);
      var a, c := RealOf(fs[0].coeff), Coefficient(fs[1..], v);
      ProductSum(m(fs[0].v), t, a);
      ProductSum(a, c, t);
      assert Product(0.0, t) == 0.0 && 0.0 + c == c;
      hide Product, RealOf;
    }
  }

  lemma {:induction false} NoCoefficient(fs: seq<Factor>, v: nat)
    requires Dots(fs) && forall f :: f in fs ==> f.v != v
    ensures Coefficient(fs, v) == 0.0
  {
    if fs != [] {
      assert fs == [fs[0]] + fs[1..];
      NoCoefficient(fs[1..], v);
    }
  }

  lemma {:induction false} CoefficientAt(fs: seq<Factor>, i: nat)
    requires Dots(fs) && InOrder(fs) && i < |fs|
    ensures Coefficient(fs, fs[i].v) == RealOf(fs[i].coeff)
  {
    if i == 0 {
      forall f | f in fs[1..] ensures f.v != fs[0].v { }
      NoCoefficient(fs[1..], fs[0].v);
    } else {
      assert fs[1..][i - 1] == fs[i];
      CoefficientAt(fs[1..], i - 1);
    }
  }

  ghost predicate Occurs(fs: seq<Factor>, v: nat) {
    exists i :: 0 <= i < |fs| && fs[i].v == v
  }

  /** A variable has a coefficient exactly if it occurs. */
  lemma CoefficientOccurs(fs: seq<Factor>, v: nat)
    requires ProperFactors(fs) && InOrder(fs)
    ensures Dots(fs) && (Coefficient(fs, v) != 0.0 <==> Occurs(fs, v))
  {
    if i :| 0 <= i < |fs| && fs[i].v == v {
      CoefficientAt(fs, i);
      NonZeroReal(fs[i].coeff);
    } else {
      forall f | f in fs ensures f.v != v { }
      NoCoefficient(fs, v);
    }
  }

  // ---------- points ----------

  lemma {:induction false} ZeroDot(fs: seq<Factor>)
    requires Dots(fs)
    ensures Dot(fs, _ => 0.0) == 0.0
  {
    if fs != [] {
      ZeroDot(fs[1..]);
      assert Product(RealOf(fs[0].coeff), 0.0) == 0.0;
    }
  }

  /** A point where the factors have the value of the bound. */
  lemma BasePoint(c: Constraint, isInt: bool) returns (m: Reals)
    requires Normal(c, isInt) && (c.AtMost? || c.Equals?)
    ensures OnGrid(isInt, m) && Dots(c.factors) && Dot(c.factors, m) == RealOf(c.bound)
  {
    var fs, b := c.factors, c.bound;
    if isInt {
      var n := TightSolvable(b.num, fs);
      assert b == Q(b.num, 1);
      IntegerCanonical(b.num);
      m := AsReals(n);
      assert forall v: nat :: m(v) == (n(v) as real) && (n(v) as real).Floor == n(v);
    } else {
      CoefficientAt(fs, 0);
      NonZeroReal(fs[0].coeff);
      ZeroDot(fs);
      var t := RealOf(b) / Coefficient(fs, fs[0].v);
      m := Moved(_ => 0.0, fs[0].v, t);
      MovedDot(fs, _ => 0.0, fs[0].v, t);
      assert Product(Coefficient(fs, fs[0].v), t) == RealOf(b);
    }
  }

  lemma WholeCoefficient(fs: seq<Factor>, v: nat)
    requires ProperFactors(fs) && InOrder(fs) && IntegerCoefficients(fs)
    ensures Dots(fs) && Coefficient(fs, v) == Coefficient(fs, v).Floor as real
  {
    CoefficientOccurs(fs, v);
    if i :| 0 <= i < |fs| && fs[i].v == v {
      CoefficientAt(fs, i);
      assert fs[i].coeff == Q(fs[i].coeff.num, 1);
      IntegerCanonical(fs[i].coeff.num);
    }
  }

  /** The point moved along the direction in which the first factors do not change. */
  ghost function Along(fs: seq<Factor>, m: Reals, u: nat, v: nat, t: int): Reals
    requires Dots(fs)
  {
    Moved(Moved(m, v, Product(t as real, Coefficient(fs, u))), u, -Product(t as real, Coefficient(fs, v)))
  }

  lemma AlongGrid(c: Constraint, isInt: bool, m: Reals, u: nat, v: nat, t: int)
    requires Normal(c, isInt) && (c.AtMost? || c.Equals?) && OnGrid(isInt, m)
    ensures Dots(c.factors) && OnGrid(isInt, Along(c.factors, m, u, v, t))
  {
    var fs := c.factors;
    if isInt {
      WholeCoefficient(fs, u);
      WholeCoefficient(fs, v);
      var a, b := Coefficient(fs, u).Floor, Coefficient(fs, v).Floor;
      WholeProduct(t, a);
      WholeProduct(t, b);
      var n := Along(fs, m, u, v, t);
      forall x: nat ensures n(x) == n(x).Floor as real {
        var y := m(x).Floor + (if x == v then t * a else 0) - (if x == u then t * b else 0);
        assert n(x) == y as real;
      }
    }
  }

  lemma WholeProduct(t: int, a: int)
    ensures Product(t as real, a as real) == (t * a) as real
  {
  }

  /** What the move does to another list of factors. */
  ghost function Cross(fs: seq<Factor>, gs: seq<Factor>, u: nat, v: nat): real
    requires Dots(fs) && Dots(gs)
  {
    Product(Coefficient(fs, u), Coefficient(gs, v)) - Product(Coefficient(fs, v), Coefficient(gs, u))
  }

  lemma AlongDot(fs: seq<Factor>, gs: seq<Factor>, m: Reals, u: nat, v: nat, t: int)
    requires Dots(fs) && Dots(gs)
    ensures Dot(gs, Along(fs, m, u, v, t)) == Dot(gs, m) + Product(t as real, Cross(fs, gs, u, v))
  {
    var a, b, x, y, r := Coefficient(fs, u), Coefficient(fs, v), Coefficient(gs, u), Coefficient(gs, v), t as real;
    MovedDot(gs, m, v, Product(r, a));
    MovedDot(gs, Moved(m, v, Product(r, a)), u, -Product(r, b));
    hide *;
    CrossProduct(a, b, x, y, r);
  }

  lemma CrossProduct(a: real, b: real, x: real, y: real, r: real)
    ensures Product(y, Product(r, a)) + Product(x, -Product(r, b)) == Product(r, Product(a, y) - Product(b, x))
  {
    assert y * (r * a) == r * (a * y);
    assert x * (r * b) == r * (b * x);
  }

  lemma NoCross(fs: seq<Factor>, u: nat, v: nat)
    requires Dots(fs)
    ensures Cross(fs, fs, u, v) == 0.0
  {
  }

  /** A value that changes at a constant rate goes below every bound, one way or the other. */
  lemma FallsBelow(x: real, d: real, b: real) returns (t: int)
    ensures (d != 0.0 ==> x + Product(t as real, d) < b) && Product(t as real, d) <= 0.0
  {
    if d == 0.0 { return 0; }
    var q := (b - x) / d;
    if d < 0.0 {
      t := if q.Floor + 1 < 0 then 0 else q.Floor + 1;
    } else {
      t := if q.Floor - 1 > 0 then 0 else q.Floor - 1;
    }
    BelowBound(x, d, b, t as real, q);
  }

  lemma BelowBound(x: real, d: real, b: real, t: real, q: real)
    requires d != 0.0 && q == (b - x) / d && (if d < 0.0 then t > q && t >= 0.0 else t < q && t <= 0.0)
    ensures x + Product(t, d) < b && Product(t, d) <= 0.0
  {
    assert q * d == b - x;
    assert (t - q) * d < 0.0;
    assert t * d == (t - q) * d + q * d;
  }

  // ---------- the coefficients are proportional ----------

  lemma NoCrossing(c: Constraint, d: Constraint, isInt: bool, u: nat, v: nat)
    requires Normal(c, isInt) && Normal(d, isInt) && SameOn(isInt, c, d)
    requires (c.AtMost? && d.AtMost?) || (c.Equals? && d.Equals?)
    ensures Dots(c.factors) && Dots(d.factors) && Cross(c.factors, d.factors, u, v) == 0.0
  {
    var fs, gs := c.factors, d.factors;
    var m := BasePoint(c, isInt);
    var t := FallsBelow(Dot(gs, m), Cross(fs, gs, u, v), RealOf(d.bound));
    AlongSatisfies(c, isInt, m, u, v, t);
    AlongDot(fs, gs, m, u, v, t);
    assert Satisfies(Along(fs, m, u, v, t), d);
    AlongSatisfies(c, isInt, m, u, v, 0);
    AlongDot(fs, gs, m, u, v, 0);
    assert Satisfies(Along(fs, m, u, v, 0), d);
    assert Product(0 as real, Cross(fs, gs, u, v)) == 0.0;
  }

  lemma AlongSatisfies(c: Constraint, isInt: bool, m: Reals, u: nat, v: nat, t: int)
    requires Normal(c, isInt) && (c.AtMost? || c.Equals?) && OnGrid(isInt, m)
    requires Dots(c.factors) && Dot(c.factors, m) == RealOf(c.bound)
    ensures OnGrid(isInt, Along(c.factors, m, u, v, t)) && Satisfies(Along(c.factors, m, u, v, t), c)
  {
    NoCross(c.factors, u, v);
    AlongGrid(c, isInt, m, u, v, t);
    AlongDot(c.factors, c.factors, m, u, v, t);
    assert Product(t as real, 0.0) == 0.0;
  }

  /** The ratio of the coefficients, taken at the first variable of the first constraint. */
  ghost function Ratio(fs: seq<Factor>, gs: seq<Factor>): real
    requires Dots(fs) && Dots(gs) && fs != [] && Coefficient(fs, fs[0].v) != 0.0
  {
    Coefficient(gs, fs[0].v) / Coefficient(fs, fs[0].v)
  }

  lemma Proportional(c: Constraint, d: Constraint, isInt: bool) returns (k: real)
    requires Normal(c, isInt) && Normal(d, isInt) && SameOn(isInt, c, d)
    requires (c.AtMost? && d.AtMost?) || (c.Equals? && d.Equals?)
    ensures Dots(c.factors) && Dots(d.factors) && k != 0.0
    ensures forall v: nat :: Coefficient(d.factors, v) == Product(k, Coefficient(c.factors, v))
  {
    var fs, gs := c.factors, d.factors;
    var u, w := fs[0].v, gs[0].v;
    CoefficientOccurs(fs, u);
    CoefficientOccurs(gs, w);
    k := Ratio(fs, gs);
    forall v: nat ensures Coefficient(gs, v) == Product(k, Coefficient(fs, v)) {
      NoCrossing(c, d, isInt, u, v);
      RatioOf(Coefficient(fs, u), Coefficient(fs, v), Coefficient(gs, u), Coefficient(gs, v));
    }
    assert Coefficient(gs, w) == Product(k, Coefficient(fs, w));
    assert Product(0.0, Coefficient(fs, w)) == 0.0;
  }

  lemma RatioOf(a: real, b: real, x: real, y: real)
    requires a != 0.0 && Product(a, y) - Product(b, x) == 0.0
    ensures y == Product(x / a, b)
  {
    assert (x / a) * a == x;
    assert (y - (x / a) * b) * a == 0.0;
  }

  // ---------- the same variables ----------

  /** Proportional coefficients: the same variables in the same order, multiplied. */
  lemma {:induction false} ScaledBy(fs: seq<Factor>, gs: seq<Factor>, k: real)
    requires ProperFactors(fs) && ProperFactors(gs) && InOrder(fs) && InOrder(gs) && k != 0.0
    requires Dots(fs) && Dots(gs) && forall v: nat :: Coefficient(gs, v) == Product(k, Coefficient(fs, v))
    ensures Scaled(fs, k, gs)
  {
    forall v: nat ensures Occurs(fs, v) <==> Occurs(gs, v) {
      CoefficientOccurs(fs, v);
      CoefficientOccurs(gs, v);
      ZeroProduct(k, Coefficient(fs, v));
    }
    SameVariables(fs, gs);
    forall i | 0 <= i < |fs| ensures ScaledFactor(fs[i], k, gs[i]) {
      CoefficientAt(fs, i);
      CoefficientAt(gs, i);
    }
  }

  lemma ZeroProduct(k: real, x: real)
    requires k != 0.0
    ensures Product(k, x) == 0.0 <==> x == 0.0
  {
  }

  lemma {:induction false} SameVariables(fs: seq<Factor>, gs: seq<Factor>)
    requires InOrder(fs) && InOrder(gs) && forall v: nat :: Occurs(fs, v) <==> Occurs(gs, v)
    ensures |fs| == |gs| && forall i :: 0 <= i < |fs| ==> fs[i].v == gs[i].v
  {
    if fs == [] {
      NoneOccurs(gs);
    } else if gs == [] {
      NoneOccurs(fs);
    } else {
      LeastOccurs(fs);
      LeastOccurs(gs);
      assert fs[0].v == gs[0].v;
      SameVariables(fs[1..], gs[1..]);
      forall i | 0 <= i < |fs| ensures fs[i].v == gs[i].v {
        if i > 0 { assert fs[i] == fs[1..][i - 1] && gs[i] == gs[1..][i - 1]; }
      }
    }
  }

  lemma NoneOccurs(fs: seq<Factor>)
    ensures fs == [] || exists v: nat :: Occurs(fs, v)
  {
    if fs != [] { assert Occurs(fs, fs[0].v); }
  }

  lemma LeastOccurs(fs: seq<Factor>)
    requires InOrder(fs) && fs != []
    ensures Occurs(fs, fs[0].v) && InOrder(fs[1..])
    ensures forall v: nat :: Occurs(fs, v) ==> fs[0].v <= v
    ensures forall v: nat :: Occurs(fs[1..], v) <==> Occurs(fs, v) && v != fs[0].v
  {
    forall v: nat | Occurs(fs, v) && v != fs[0].v ensures Occurs(fs[1..], v) && fs[0].v <= v {
      var i :| 0 <= i < |fs| && fs[i].v == v;
      assert fs[1..][i - 1].v == v;
    }
    forall v: nat | Occurs(fs[1..], v) ensures Occurs(fs, v) && v != fs[0].v {
      var i :| 0 <= i < |fs[1..]| && fs[1..][i].v == v;
      assert fs[i + 1].v == v;
    }
  }

  // ---------- the ratio is one ----------

  /** Both lists are normalized: the ratio is a unit. */
  lemma UnitRatio(c: Constraint, d: Constraint, isInt: bool, k: real)
    requires Normal(c, isInt) && Normal(d, isInt) && (c.AtMost? || c.Equals?) && (d.AtMost? || d.Equals?)
    requires k != 0.0 && Scaled(c.factors, k, d.factors)
    ensures k == 1.0 || k == -1.0
  {
    var fs, gs := c.factors, d.factors;
    if isInt {
      var n := TightSolvable(1, fs);
      var l := TightSolvable(1, gs);
      ScaledDot(fs, k, gs, AsReals(n));
      ScaledDot(fs, k, gs, AsReals(l));
      IntDotReal(gs, n);
      IntDotReal(fs, l);
      UnitProduct(k, IntDot(gs, n), IntDot(fs, l));
    } else {
      assert ScaledFactor(fs[0], k, gs[0]);
      UnitQuotient(k, RealOf(fs[0].coeff), RealOf(gs[0].coeff));
    }
  }

  lemma UnitQuotient(k: real, x: real, y: real)
    requires (x == 1.0 || x == -1.0) && (y == 1.0 || y == -1.0) && y == Product(k, x)
    ensures k == 1.0 || k == -1.0
  {
  }

  lemma UnitProduct(k: real, a: int, b: int)
    requires a as real == Product(k, 1.0) && 1.0 == Product(k, b as real)
    ensures k == 1.0 || k == -1.0
  {
    assert (a * b) as real == a as real * b as real == 1.0;
    assert a * b == 1 == (-a) * (-b);
    if a >= 0 { UnitFactors(a, b); } else { UnitFactors(-a, -b); }
  }

  /** Inequalities with the same solutions point the same way. */
  lemma SameWay(c: Constraint, d: Constraint, isInt: bool, k: real)
    requires Normal(c, isInt) && Normal(d, isInt) && SameOn(isInt, c, d) && c.AtMost? && d.AtMost?
    requires Scaled(c.factors, k, d.factors) && (k == 1.0 || k == -1.0)
    ensures k == 1.0
  {
    var fs, gs := c.factors, d.factors;
    var u := fs[0].v;
    var m := BasePoint(c, isInt);
    CoefficientOccurs(fs, u);
    assert Occurs(fs, u);
    var a := Coefficient(fs, u);
    var t := FallsBelow(-RealOf(c.bound), -a, RealOf(d.bound));
    var p := Moved(m, u, t as real);
    GridMoved(isInt, m, u, t);
    MovedDot(fs, m, u, t as real);
    Reflected(t as real, a);
    assert Satisfies(p, c);
    assert Satisfies(p, d);
    ScaledDot(fs, k, gs, p);
    MinusOne(Dot(fs, p));
  }

  lemma MinusOne(x: real)
    ensures Product(-1.0, x) == -x
  {
  }

  lemma Reflected(t: real, a: real)
    ensures Product(a, t) == -Product(t, -a)
  {
  }

  lemma GridMoved(isInt: bool, m: Reals, u: nat, t: int)
    requires OnGrid(isInt, m)
    ensures OnGrid(isInt, Moved(m, u, t as real))
  {
    if isInt {
      var n := Moved(m, u, t as real);
      forall x: nat ensures n(x) == n(x).Floor as real {
        assert n(x) == (m(x).Floor + if x == u then t else 0) as real;
      }
    }
  }

  // ---------- one normal form ----------

  lemma SameFactors(fs: seq<Factor>, gs: seq<Factor>)
    requires ProperFactors(fs) && ProperFactors(gs) && Scaled(fs, 1.0, gs)
    ensures fs == gs
  {
    forall i | 0 <= i < |fs| ensures fs[i] == gs[i] {
      assert ScaledFactor(fs[i], 1.0, gs[i]);
      CanonicalUnique(fs[i].coeff, gs[i].coeff);
    }
  }

  lemma SameInequality(c: Constraint, d: Constraint, isInt: bool)
    requires Normal(c, isInt) && Normal(d, isInt) && SameOn(isInt, c, d) && c.AtMost? && d.AtMost?
    ensures c == d
  {
    var k := Proportional(c, d, isInt);
    ScaledBy(c.factors, d.factors, k);
    UnitRatio(c, d, isInt, k);
    SameWay(c, d, isInt, k);
    SameFactors(c.factors, d.factors);
    var m := BasePoint(c, isInt);
    var n := BasePoint(d, isInt);
    assert Satisfies(m, c) && Satisfies(n, d);
    assert Satisfies(m, d) && Satisfies(n, c);
    CanonicalUnique(c.bound, d.bound);
  }

  /** The equality with the signs of both sides changed. */
  ghost predicate Flipped(c: Constraint, d: Constraint) {
    && c.Equals? && d.Equals? && |c.factors| == |d.factors| && d.bound == Neg(c.bound)
    && forall i :: 0 <= i < |c.factors| ==> d.factors[i] == Factor(c.factors[i].v, Neg(c.factors[i].coeff))
  }

  lemma SameEquality(c: Constraint, d: Constraint, isInt: bool)
    requires Normal(c, isInt) && Normal(d, isInt) && SameOn(isInt, c, d) && c.Equals? && d.Equals?
    ensures c == d || Flipped(c, d)
  {
    var k := Proportional(c, d, isInt);
    ScaledBy(c.factors, d.factors, k);
    UnitRatio(c, d, isInt, k);
    var m := BasePoint(c, isInt);
    assert Satisfies(m, c);
    assert Satisfies(m, d);
    ScaledDot(c.factors, k, d.factors, m);
    if k == 1.0 {
      SameFactors(c.factors, d.factors);
      CanonicalUnique(c.bound, d.bound);
    } else {
      NegIsExact(c.bound);
      CanonicalUnique(Neg(c.bound), d.bound);
      NegatedFactors(c.factors, d.factors);
    }
  }

  lemma NegatedFactors(fs: seq<Factor>, gs: seq<Factor>)
    requires ProperFactors(fs) && Scaled(fs, -1.0, gs)
    ensures forall i :: 0 <= i < |fs| ==> gs[i] == Factor(fs[i].v, Neg(fs[i].coeff))
  {
    forall i | 0 <= i < |fs| ensures gs[i] == Factor(fs[i].v, Neg(fs[i].coeff)) {
      assert ScaledFactor(fs[i], -1.0, gs[i]);
      NegIsExact(fs[i].coeff);
      CanonicalUnique(Neg(fs[i].coeff), gs[i].coeff);
    }
  }

  /** A constraint that is no truth value holds at some point and fails at another. */
  lemma Undecided(c: Constraint, isInt: bool) returns (m: Reals, n: Reals)
    requires Normal(c, isInt) && (c.AtMost? || c.Equals?)
    ensures OnGrid(isInt, m) && OnGrid(isInt, n) && Satisfies(m, c) && !Satisfies(n, c)
  {
    var u := c.factors[0].v;
    m := BasePoint(c, isInt);
    CoefficientOccurs(c.factors, u);
    assert Occurs(c.factors, u);
    var a := Coefficient(c.factors, u);
    var t := FallsBelow(RealOf(c.bound), a, RealOf(c.bound));
    n := Moved(m, u, t as real);
    GridMoved(isInt, m, u, t);
    MovedDot(c.factors, m, u, t as real);
    Reflected(t as real, -a);
  }

  lemma NoTruth(c: Constraint, d: Constraint, isInt: bool)
    requires Normal(c, isInt) && (c.AtMost? || c.Equals?) && (d.Yes? || d.No?)
    ensures !SameOn(isInt, c, d) && !SameOn(isInt, d, c)
  {
    var m, n := Undecided(c, isInt);
    assert Satisfies(m, c) && !Satisfies(n, c);
  }

  /** Truth values are alike only with themselves. */
  lemma SameTruth(c: Constraint, d: Constraint, isInt: bool)
    requires Normal(c, isInt) && Normal(d, isInt) && SameOn(isInt, c, d) && (c.Yes? || c.No? || d.Yes? || d.No?)
    ensures c == d
  {
    var zero: Reals := _ => 0.0;
    assert OnGrid(isInt, zero);
    assert Satisfies(zero, c) <==> Satisfies(zero, d);
    if c.AtMost? || c.Equals? { NoTruth(c, d, isInt); }
    if d.AtMost? || d.Equals? { NoTruth(d, c, isInt); }
  }

  // ---------- the constructors ----------

  ghost predicate SameLeq(isInt: bool, lhs: Sum, rhs: Sum, lhs': Sum, rhs': Sum)
    requires ProperSum(lhs) && ProperSum(rhs) && ProperSum(lhs') && ProperSum(rhs')
  {
    if isInt then
      forall n: Integers ::
        Value(lhs, AsReals(n)) <= Value(rhs, AsReals(n)) <==> Value(lhs', AsReals(n)) <= Value(rhs', AsReals(n))
    else
      forall m: Reals :: Value(lhs, m) <= Value(rhs, m) <==> Value(lhs', m) <= Value(rhs', m)
  }

  ghost predicate SameEq(isInt: bool, lhs: Sum, rhs: Sum, lhs': Sum, rhs': Sum)
    requires ProperSum(lhs) && ProperSum(rhs) && ProperSum(lhs') && ProperSum(rhs')
  {
    if isInt then
      forall n: Integers ::
        Value(lhs, AsReals(n)) == Value(rhs, AsReals(n)) <==> Value(lhs', AsReals(n)) == Value(rhs', AsReals(n))
    else
      forall m: Reals :: Value(lhs, m) == Value(rhs, m) <==> Value(lhs', m) == Value(rhs', m)
  }

  /** What holds at integer points holds on the grid. */
  lemma GridPoints(c: Constraint, d: Constraint)
    requires ProperConstraint(c) && ProperConstraint(d)
    requires forall n: Integers :: Satisfies(AsReals(n), c) <==> Satisfies(AsReals(n), d)
    ensures SameOn(true, c, d)
  {
    forall m: Reals | OnGrid(true, m) ensures Satisfies(m, c) <==> Satisfies(m, d) {
      var n: Integers := (v: nat) => m(v).Floor;
      SatisfiesAgree(c, m, AsReals(n));
      SatisfiesAgree(d, m, AsReals(n));
      assert Satisfies(AsReals(n), c) <==> Satisfies(AsReals(n), d);
    }
  }

  lemma SatisfiesAgree(c: Constraint, m: Reals, n: Reals)
    requires ProperConstraint(c) && forall v: nat :: m(v) == n(v)
    ensures Satisfies(m, c) <==> Satisfies(n, c)
  {
    if c.AtMost? || c.Equals? { DotAgree(c.factors, m, n); }
  }

  lemma {:induction false} DotAgree(fs: seq<Factor>, m: Reals, n: Reals)
    requires Dots(fs) && forall v: nat :: m(v) == n(v)
    ensures Dot(fs, m) == Dot(fs, n)
  {
    if fs != [] { DotAgree(fs[1..], m, n); }
  }

  /**
   Inequalities between sums have the same solutions exactly if the constructor makes the same
   term of them.
   */
  lemma LeqForm(isInt: bool, lhs: Sum, rhs: Sum, c: Constraint, lhs': Sum, rhs': Sum, d: Constraint)
    requires ProperSum(lhs) && ProperSum(rhs) && ProperSum(lhs') && ProperSum(rhs')
    requires SaysLeq(lhs, rhs, isInt, c) && SaysLeq(lhs', rhs', isInt, d)
    ensures c == d <==> SameLeq(isInt, lhs, rhs, lhs', rhs')
  {
    if SameLeq(isInt, lhs, rhs, lhs', rhs') {
      hide Value, ProperConstraint, Tight, UnitLead, Satisfies;
      if isInt { GridPoints(c, d); }
      assert SameOn(isInt, c, d);
      if c.AtMost? && d.AtMost? { SameInequality(c, d, isInt); } else { SameTruth(c, d, isInt); }
    }
  }

  /** Equalities, likewise, up to the signs of both sides. */
  lemma EqForm(isInt: bool, lhs: Sum, rhs: Sum, c: Constraint, lhs': Sum, rhs': Sum, d: Constraint)
    requires ProperSum(lhs) && ProperSum(rhs) && ProperSum(lhs') && ProperSum(rhs')
    requires SaysEqual(lhs, rhs, isInt, c) && SaysEqual(lhs', rhs', isInt, d)
    ensures c == d || Flipped(c, d) <==> SameEq(isInt, lhs, rhs, lhs', rhs')
  {
    if SameEq(isInt, lhs, rhs, lhs', rhs') {
      hide Value, ProperConstraint, Tight, UnitLead, Satisfies;
      if isInt { GridPoints(c, d); }
      assert SameOn(isInt, c, d);
      if c.Equals? && d.Equals? { SameEquality(c, d, isInt); } else { SameTruth(c, d, isInt); }
    }
    if Flipped(c, d) {
      hide Value, Tight, UnitLead;
      forall m: Reals ensures Satisfies(m, c) <==> Satisfies(m, d) { FlippedSame(c, d, m); }
    }
  }

  lemma FlippedSame(c: Constraint, d: Constraint, m: Reals)
    requires ProperConstraint(c) && ProperConstraint(d) && Flipped(c, d)
    ensures Satisfies(m, c) <==> Satisfies(m, d)
  {
    NegScaled(c.factors, d.factors);
    ScaledDot(c.factors, -1.0, d.factors, m);
    MinusOne(Dot(c.factors, m));
    NegIsExact(c.bound);
  }
}
