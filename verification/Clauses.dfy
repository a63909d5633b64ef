/**
 Clauses over signed terms, their meaning under a valuation of terms, and the clauses that
 define a connective.
 */
module Clauses {
  import opened Terms
  import opened Facts

  /** A clause: a disjunction of signed terms, none of them a negation. */
  type Clause = seq<PtAsgn>

  /** A truth value for every term: what a SAT assignment says about the terms of its variables. */
  type Valuation = Term -> bool

  ghost predicate LitHolds(l: PtAsgn, tau: Valuation) {
    tau(l.tr) == l.sgn
  }

  ghost predicate ClauseHolds(c: Clause, tau: Valuation) {
    exists i :: 0 <= i < |c| && LitHolds(c[i], tau)
  }

  ghost predicate Sat(cs: seq<Clause>, tau: Valuation) {
    forall i :: 0 <= i < |cs| ==> ClauseHolds(cs[i], tau)
  }

  lemma SatConcat(a: seq<Clause>, b: seq<Clause>, tau: Valuation)
    ensures Sat(a + b, tau) <==> Sat(a, tau) && Sat(b, tau)
  {
    var c := a + b;
    if Sat(c, tau) {
      forall i | 0 <= i < |a| ensures ClauseHolds(a[i], tau) { assert c[i] == a[i]; }
      forall i | 0 <= i < |b| ensures ClauseHolds(b[i], tau) { assert c[|a| + i] == b[i]; }
    }
  }

  lemma SatPrefix(cs: seq<Clause>, n: nat, tau: Valuation)
    requires n <= |cs| && Sat(cs, tau)
    ensures Sat(cs[..n], tau)
  {
  }

  lemma ClauseConcat(c: Clause, d: Clause, tau: Valuation)
    ensures ClauseHolds(c + d, tau) <==> ClauseHolds(c, tau) || ClauseHolds(d, tau)
  {
    var e := c + d;
    if ClauseHolds(c, tau) {
      var i :| 0 <= i < |c| && LitHolds(c[i], tau);
      assert LitHolds(e[i], tau);
    }
    if ClauseHolds(d, tau) {
      var i :| 0 <= i < |d| && LitHolds(d[i], tau);
      assert LitHolds(e[|c| + i], tau);
    }
    if ClauseHolds(e, tau) {
      var i :| 0 <= i < |e| && LitHolds(e[i], tau);
      assert if i < |c| then LitHolds(c[i], tau) else LitHolds(d[i - |c|], tau);
    }
  }

  lemma Unit(l: PtAsgn, tau: Valuation)
    ensures ClauseHolds([l], tau) <==> LitHolds(l, tau)
  {
    if LitHolds(l, tau) { assert LitHolds([l][0], tau); }
  }

  lemma Binary(l: PtAsgn, k: PtAsgn, tau: Valuation)
    ensures ClauseHolds([l, k], tau) <==> LitHolds(l, tau) || LitHolds(k, tau)
  {
    ClauseConcat([l], [k], tau);
    assert [l] + [k] == [l, k];
    Unit(l, tau);
    Unit(k, tau);
  }

  lemma Ternary(l: PtAsgn, k: PtAsgn, j: PtAsgn, tau: Valuation)
    ensures ClauseHolds([l, k, j], tau) <==> LitHolds(l, tau) || LitHolds(k, tau) || LitHolds(j, tau)
  {
    ClauseConcat([l, k], [j], tau);
    assert [l, k] + [j] == [l, k, j];
    Binary(l, k, tau);
    Unit(j, tau);
  }

  // ---------- propositional meaning ----------

  /** The value of a term by its literal: its positive term's value under its sign. */
  ghost predicate TermValue(t: Term, tau: Valuation) {
    LitHolds(Pure(t), tau)
  }

  function Flip(l: PtAsgn): PtAsgn {
    PtAsgn(l.tr, !l.sgn)
  }

  /** Terms that Tseitin defines by their arguments; all others are atoms. */
  predicate Connective(t: Term) {
    t.And? || t.Or? || t.Xor? || t.Not? || (t.Eq? && IsBool(t.lhs))
  }

  /** The value of a formula computed from the values of its atoms. */
  ghost predicate PropHolds(t: Term, tau: Valuation) {
    match t
    case Not(a) => !PropHolds(a, tau)
    case And(xs) => forall i :: 0 <= i < |xs| ==> PropHolds(xs[i], tau)
    case Or(xs) => exists i :: 0 <= i < |xs| && PropHolds(xs[i], tau)
    case Xor(a, b) => PropHolds(a, tau) != PropHolds(b, tau)
    case Eq(a, b) => if IsBool(a) then PropHolds(a, tau) == PropHolds(b, tau) else tau(t)
    case _ => tau(t)
  }

  ghost function OfModel(m: Model): Valuation {
    t => Holds(t, m)
  }

  /** Under a model's valuation a formula's propositional value is its truth in the model. */
  lemma {:induction false} PropModel(t: Term, m: Model)
    requires WellFormed(t) && IsBool(t)
    ensures PropHolds(t, OfModel(m)) <==> Holds(t, m)
  {
    if Connective(t) {
      forall i | 0 <= i < |Args(t)| ensures PropHolds(Args(t)[i], OfModel(m)) <==> Holds(Args(t)[i], m) {
        ArgBool(t, i);
        PropModel(Args(t)[i], m);
      }
      PropStep(t, m);
    }
  }

  lemma ArgBool(t: Term, i: nat)
    requires WellFormed(t) && IsBool(t) && Connective(t) && i < |Args(t)|
    ensures WellFormed(Args(t)[i]) && IsBool(Args(t)[i])
  {
  }

  lemma PropStep(t: Term, m: Model)
    requires WellFormed(t) && IsBool(t) && Connective(t)
    requires forall i :: 0 <= i < |Args(t)| ==> (PropHolds(Args(t)[i], OfModel(m)) <==> Holds(Args(t)[i], m))
    ensures PropHolds(t, OfModel(m)) <==> Holds(t, m)
  {
    match t {
      case Not(a) => assert Args(t)[0] == a; MkNotMeaning(a, m);
      case And(xs) => assert Args(t) == xs;
      case Or(xs) => assert Args(t) == xs;
      case Xor(a, b) => assert Args(t)[0] == a && Args(t)[1] == b; XorMeaning(a, b, m);
      case Eq(a, b) => assert Args(t)[0] == a && Args(t)[1] == b; EqMeaning(a, b, m); BoolEquality(a, b, m);
    }
  }

  /** A valuation and a model that agree on all atoms agree on all formulas. */
  ghost predicate AtomsAgree(tau: Valuation, m: Model) {
    forall t :: WellFormed(t) && IsBool(t) && !Connective(t) ==> (tau(t) <==> Holds(t, m))
  }

  lemma {:induction false} PropAgree(t: Term, tau: Valuation, m: Model)
    requires WellFormed(t) && IsBool(t) && AtomsAgree(tau, m)
    ensures PropHolds(t, tau) <==> Holds(t, m)
  {
    PropModel(t, m);
    PropSame(t, tau, OfModel(m));
  }

  lemma {:induction false} PropSame(t: Term, tau: Valuation, rho: Valuation)
    requires WellFormed(t) && IsBool(t)
    requires forall u :: WellFormed(u) && IsBool(u) && !Connective(u) ==> tau(u) == rho(u)
    ensures PropHolds(t, tau) <==> PropHolds(t, rho)
  {
    if Connective(t) {
      forall i | 0 <= i < |Args(t)| ensures PropHolds(Args(t)[i], tau) <==> PropHolds(Args(t)[i], rho) {
        ArgBool(t, i);
        PropSame(Args(t)[i], tau, rho);
      }
      match t {
        case Not(a) => assert Args(t)[0] == a;
        case And(xs) => assert Args(t) == xs;
        case Or(xs) => assert Args(t) == xs;
        case Xor(a, b) => assert Args(t)[0] == a && Args(t)[1] == b;
        case Eq(a, b) => assert Args(t)[0] == a && Args(t)[1] == b;
      }
    }
  }

  lemma {:induction false} PureValue(t: Term, m: Model)
    requires WellFormed(t) && IsBool(t)
    ensures TermValue(t, OfModel(m)) <==> Holds(t, m)
  {
    PureMeaning(t, m);
  }

  // ---------- definitions of connectives ----------

  /** The value of a connective agrees with the values of its arguments. */
  ghost predicate Defined(t: Term, tau: Valuation) {
    match t
    case And(xs) => TermValue(t, tau) <==> forall i :: 0 <= i < |xs| ==> TermValue(xs[i], tau)
    case Or(xs) => TermValue(t, tau) <==> exists i :: 0 <= i < |xs| && TermValue(xs[i], tau)
    case Xor(a, b) => TermValue(t, tau) <==> TermValue(a, tau) != TermValue(b, tau)
    case Eq(a, b) => IsBool(a) ==> (TermValue(t, tau) <==> TermValue(a, tau) == TermValue(b, tau))
    case _ => true
  }

  /** The small clauses of a conjunction or disjunction: its literal against each argument's. */
  function LittleClauses(v: PtAsgn, xs: seq<Term>, flip: bool): (cs: seq<Clause>)
    ensures |cs| == |xs|
    ensures forall i :: 0 <= i < |cs| ==> cs[i] == [v, if flip then Flip(Pure(xs[i])) else Pure(xs[i])]
  {
    seq(|xs|, i requires 0 <= i < |xs| => [v, if flip then Flip(Pure(xs[i])) else Pure(xs[i])])
  }

  function ArgLits(xs: seq<Term>, flip: bool): (c: Clause)
    ensures |c| == |xs| && forall i :: 0 <= i < |c| ==> c[i] == if flip then Flip(Pure(xs[i])) else Pure(xs[i])
  {
    seq(|xs|, i requires 0 <= i < |xs| => if flip then Flip(Pure(xs[i])) else Pure(xs[i]))
  }

  /** The clauses that define a connective, in the order they are added. */
  function DefClauses(t: Term): seq<Clause> {
    var v := Pure(t);
    match t
    case And(xs) => LittleClauses(Flip(v), xs, false) + [[v] + ArgLits(xs, true)]
    case Or(xs) => LittleClauses(v, xs, true) + [[Flip(v)] + ArgLits(xs, false)]
    case Xor(a, b) =>
      var (p, q) := (Pure(a), Pure(b));
      [[Flip(v), p, q], [Flip(v), Flip(p), Flip(q)], [v, Flip(p), q], [v, p, Flip(q)]]
    case Eq(a, b) =>
      var (p, q) := (Pure(a), Pure(b));
      if IsBool(a) then [[Flip(v), p, Flip(q)], [Flip(v), Flip(p), q], [v, p, q], [v, Flip(p), Flip(q)]] else []
    case _ => []
  }

  lemma LittleMeaning(v: PtAsgn, xs: seq<Term>, flip: bool, tau: Valuation)
    ensures Sat(LittleClauses(v, xs, flip), tau) <==> LitHolds(v, tau) || forall i :: 0 <= i < |xs| ==>
      TermValue(xs[i], tau) != flip
  {
    var cs := LittleClauses(v, xs, flip);
    forall i | 0 <= i < |xs| ensures ClauseHolds(cs[i], tau) <==> LitHolds(v, tau) || TermValue(xs[i], tau) != flip {
      Binary(cs[i][0], cs[i][1], tau);
      assert cs[i] == [cs[i][0], cs[i][1]];
    }
  }

  lemma ArgLitsMeaning(xs: seq<Term>, flip: bool, tau: Valuation)
    ensures ClauseHolds(ArgLits(xs, flip), tau) <==> exists i :: 0 <= i < |xs| && TermValue(xs[i], tau) != flip
  {
    var c := ArgLits(xs, flip);
    if i :| 0 <= i < |xs| && TermValue(xs[i], tau) != flip {
      assert LitHolds(c[i], tau);
    }
  }

  /** The definition clauses hold exactly when the value of the connective is right. */
  lemma DefClausesMeaning(t: Term, tau: Valuation)
    ensures Sat(DefClauses(t), tau) <==> Defined(t, tau)
  {
    var v := Pure(t);
    match t {
      case And(xs) => NaryClauses(Flip(v), xs, false, tau);
      case Or(xs) => NaryClauses(v, xs, true, tau);
      case Xor(a, b) =>
        var (p, q) := (Pure(a), Pure(b));
        FourClauses([Flip(v), p, q], [Flip(v), Flip(p), Flip(q)], [v, Flip(p), q], [v, p, Flip(q)], tau);
      case Eq(a, b) =>
        var (p, q) := (Pure(a), Pure(b));
        FourClauses([Flip(v), p, Flip(q)], [Flip(v), Flip(p), q], [v, p, q], [v, Flip(p), Flip(q)], tau);
      case _ =>
    }
  }

  lemma NaryClauses(v: PtAsgn, xs: seq<Term>, flip: bool, tau: Valuation)
    ensures Sat(LittleClauses(v, xs, flip) + [[Flip(v)] + ArgLits(xs, !flip)], tau)
       <==> (!LitHolds(v, tau) <==> forall i :: 0 <= i < |xs| ==> TermValue(xs[i], tau) != flip)
  {
    var big := [Flip(v)] + ArgLits(xs, !flip);
    LittleMeaning(v, xs, flip, tau);
    ArgLitsMeaning(xs, !flip, tau);
    ClauseConcat([Flip(v)], ArgLits(xs, !flip), tau);
    Unit(Flip(v), tau);
    SatConcat(LittleClauses(v, xs, flip), [big], tau);
    assert Sat([big], tau) <==> ClauseHolds([big][0], tau);
  }

  lemma FourClauses(c: Clause, d: Clause, e: Clause, f: Clause, tau: Valuation)
    requires |c| == |d| == |e| == |f| == 3
    ensures Sat([c, d, e, f], tau) <==>
              && (LitHolds(c[0], tau) || LitHolds(c[1], tau) || LitHolds(c[2], tau))
              && (LitHolds(d[0], tau) || LitHolds(d[1], tau) || LitHolds(d[2], tau))
              && (LitHolds(e[0], tau) || LitHolds(e[1], tau) || LitHolds(e[2], tau))
              && (LitHolds(f[0], tau) || LitHolds(f[1], tau) || LitHolds(f[2], tau))
  {
    assert c == [c[0], c[1], c[2]] && d == [d[0], d[1], d[2]] && e == [e[0], e[1], e[2]] && f == [f[0], f[1], f[2]];
    Ternary(c[0], c[1], c[2], tau);
    Ternary(d[0], d[1], d[2], tau);
    Ternary(e[0], e[1], e[2], tau);
    Ternary(f[0], f[1], f[2], tau);
    var cs := [c, d, e, f];
    assert Sat(cs, tau) <==> ClauseHolds(cs[0], tau) && ClauseHolds(cs[1], tau) && ClauseHolds(cs[2], tau)
                             && ClauseHolds(cs[3], tau);
  }

  /** Every definition holds under the valuation of a model. */
  lemma DefinedByModel(t: Term, m: Model)
    requires WellFormed(t) && IsBool(t)
    ensures Defined(t, OfModel(m))
  {
    PureValue(t, m);
    if Connective(t) {
      forall i | 0 <= i < |Args(t)| ensures TermValue(Args(t)[i], OfModel(m)) <==> Holds(Args(t)[i], m) {
        ArgBool(t, i);
        PureValue(Args(t)[i], m);
      }
      match t {
        case Not(a) =>
        case And(xs) => assert Args(t) == xs; assert TermValue(t, OfModel(m)) <==> EachHolds(xs, m);
        case Or(xs) => assert Args(t) == xs; assert TermValue(t, OfModel(m)) <==> OneHolds(xs, m);
        case Xor(a, b) => assert Args(t)[0] == a && Args(t)[1] == b; XorMeaning(a, b, m);
        case Eq(a, b) => assert Args(t)[0] == a && Args(t)[1] == b; EqMeaning(a, b, m); BoolEquality(a, b, m);
      }
    }
  }

  /** The terms a formula's value is defined by: itself and what hangs below its connectives. */
  ghost predicate ClosedBelow(ts: set<Term>) {
    forall t :: t in ts && Connective(t) ==> forall i :: 0 <= i < |Args(t)| ==> Args(t)[i] in ts
  }

  /** If everything below a formula is defined, its literal has its propositional value. */
  lemma {:induction false} DefinedValue(t: Term, ts: set<Term>, tau: Valuation)
    requires WellFormed(t) && IsBool(t) && t in ts && ClosedBelow(ts)
    requires forall u :: u in ts ==> Defined(u, tau)
    ensures TermValue(t, tau) <==> PropHolds(t, tau)
  {
    if Connective(t) {
      forall i | 0 <= i < |Args(t)| ensures TermValue(Args(t)[i], tau) <==> PropHolds(Args(t)[i], tau) {
        ArgBool(t, i);
        DefinedValue(Args(t)[i], ts, tau);
      }
      match t {
        case Not(a) => assert Args(t)[0] == a; assert TermValue(t, tau) <==> !TermValue(a, tau);
        case And(xs) => assert Args(t) == xs;
        case Or(xs) => assert Args(t) == xs;
        case Xor(a, b) => assert Args(t)[0] == a && Args(t)[1] == b;
        case Eq(a, b) => assert Args(t)[0] == a && Args(t)[1] == b;
      }
    }
  }
}
