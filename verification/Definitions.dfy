/**
 Tseitin's definitions of terms as clauses, in the order they are given to the solver.
 */
module Definitions {
  import opened Terms
  import opened Facts
  import opened Clauses
  import opened Literals
  import opened GuardedClauses

  ghost predicate ThreeStand(vt: seq<Term>, v: Lit, a: Lit, c: Lit, t: Term, x: Term, y: Term) {
    Stands(vt, v, Pure(t)) && Stands(vt, a, Pure(x)) && Stands(vt, c, Pure(y))
  }

  function ThreeClause(t: Term, x: Term, y: Term, fv: bool, fa: bool, fc: bool): (d: Clause)
    ensures |d| == 3
  {
    [if fv then Flip(Pure(t)) else Pure(t), if fa then Flip(Pure(x)) else Pure(x),
     if fc then Flip(Pure(y)) else Pure(y)]
  }

  lemma ThreeLiterals(vt: seq<Term>, v: Lit, a: Lit, c: Lit, t: Term, x: Term, y: Term, fv: bool, fa: bool, fc: bool)
    requires ThreeStand(vt, v, a, c, t, x, y)
    ensures var d := ThreeClause(t, x, y, fv, fa, fc);
            && Stands(vt, if fv then Neg(v) else v, d[0])
            && Stands(vt, if fa then Neg(a) else a, d[1])
            && Stands(vt, if fc then Neg(c) else c, d[2])
  {
  }

  lemma ThreeTogether(vt: seq<Term>, v: Lit, a: Lit, c: Lit, t: Term, x: Term, y: Term)
    requires Stands(vt, v, Pure(t)) && Stands(vt, a, Pure(x)) && Stands(vt, c, Pure(y))
    ensures ThreeStand(vt, v, a, c, t, x, y)
  {
  }

  lemma ThreeGrow(vt: seq<Term>, more: seq<Term>, v: Lit, a: Lit, c: Lit, t: Term, x: Term, y: Term)
    requires ThreeStand(vt, v, a, c, t, x, y) && vt <= more
    ensures ThreeStand(more, v, a, c, t, x, y)
  {
  }

  lemma StandsGrow(vt: seq<Term>, more: seq<Term>, l: Lit, a: PtAsgn)
    requires Stands(vt, l, a) && vt <= more
    ensures Stands(more, l, a)
  {
  }

  /** The first n clauses of an xor's definition. */
  function XorClauses(t: Term, n: nat): seq<Clause>
    requires t.Xor? && n <= 4
  {
    [ThreeClause(t, t.lhs, t.rhs, true, false, false), ThreeClause(t, t.lhs, t.rhs, true, true, true),
     ThreeClause(t, t.lhs, t.rhs, false, true, false), ThreeClause(t, t.lhs, t.rhs, false, false, true)][..n]
  }

  lemma XorDef(t: Term)
    requires t.Xor?
    ensures [] + [ThreeClause(t, t.lhs, t.rhs, true, false, false)] == XorClauses(t, 1)
    ensures XorClauses(t, 1) + [ThreeClause(t, t.lhs, t.rhs, true, true, true)] == XorClauses(t, 2)
    ensures XorClauses(t, 2) + [ThreeClause(t, t.lhs, t.rhs, false, true, false)] == XorClauses(t, 3)
    ensures XorClauses(t, 3) + [ThreeClause(t, t.lhs, t.rhs, false, false, true)] == DefClauses(t)
  {
  }

  /** The first n clauses of an equivalence's definition. */
  function IffClauses(t: Term, n: nat): seq<Clause>
    requires t.Eq? && n <= 4
  {
    [ThreeClause(t, t.lhs, t.rhs, true, false, true), ThreeClause(t, t.lhs, t.rhs, true, true, false),
     ThreeClause(t, t.lhs, t.rhs, false, false, false), ThreeClause(t, t.lhs, t.rhs, false, true, true)][..n]
  }

  lemma IffDef(t: Term)
    requires t.Eq? && IsBool(t.lhs)
    ensures [] + [ThreeClause(t, t.lhs, t.rhs, true, false, true)] == IffClauses(t, 1)
    ensures IffClauses(t, 1) + [ThreeClause(t, t.lhs, t.rhs, true, true, false)] == IffClauses(t, 2)
    ensures IffClauses(t, 2) + [ThreeClause(t, t.lhs, t.rhs, false, false, false)] == IffClauses(t, 3)
    ensures IffClauses(t, 3) + [ThreeClause(t, t.lhs, t.rhs, false, true, true)] == DefClauses(t)
  {
  }

  /** The result of some additions: whether the solver, if it was OK, still is. */
  predicate Reports(before: bool, now: bool, res: bool) {
    (now ==> res && before) && (before ==> res == now)
  }

  lemma ReportsStart(ok: bool)
    ensures Reports(ok, ok, true)
  {
  }

  lemma ReportsAll(before: bool, r1: bool, r2: bool, r3: bool, r4: bool, now: bool)
    requires (r1 ==> before) && (r2 ==> r1) && (r3 ==> r2) && (r4 ==> r3) && r4 == now
    ensures Reports(before, now, r1 && r2 && r3 && r4)
  {
  }

  lemma ReportsStep(before: bool, mid: bool, res: bool, now: bool, r: bool)
    requires Reports(before, mid, res) && r == now && (r ==> mid)
    ensures Reports(before, now, res && r)
  {
  }

  /** The first n small clauses of a conjunction or disjunction. */
  function SmallClauses(l: PtAsgn, xs: seq<Term>, flip: bool, n: nat): seq<Clause>
    requires n <= |xs|
  {
    LittleClauses(l, xs, flip)[..n]
  }

  /** The big clause over the first n arguments. */
  function BigClause(l: PtAsgn, xs: seq<Term>, flip: bool, n: nat): Clause
    requires n <= |xs|
  {
    [l] + ArgLits(xs, flip)[..n]
  }

  lemma NaryStep(sl: PtAsgn, bl: PtAsgn, xs: seq<Term>, isAnd: bool, i: nat)
    requires i < |xs|
    ensures SmallClauses(sl, xs, !isAnd, i) + [[sl, if !isAnd then Flip(Pure(xs[i])) else Pure(xs[i])]]
         == SmallClauses(sl, xs, !isAnd, i + 1)
    ensures BigClause(bl, xs, isAnd, i) + [if !isAnd then Pure(xs[i]) else Flip(Pure(xs[i]))]
         == BigClause(bl, xs, isAnd, i + 1)
  {
  }

  lemma NaryDef(t: Term, isAnd: bool)
    requires if isAnd then t.And? else t.Or?
    ensures var xs, v := Args(t), Pure(t);
            var (sl, bl) := (if isAnd then Flip(v) else v, if isAnd then v else Flip(v));
            && SmallClauses(sl, xs, !isAnd, 0) == [] && BigClause(bl, xs, isAnd, 0) == [bl]
            && SmallClauses(sl, xs, !isAnd, |xs|) + [BigClause(bl, xs, isAnd, |xs|)] == DefClauses(t)
  {
    var xs, v := Args(t), Pure(t);
    var (sl, bl) := (if isAnd then Flip(v) else v, if isAnd then v else Flip(v));
    assert LittleClauses(sl, xs, !isAnd)[..|xs|] == LittleClauses(sl, xs, !isAnd);
    assert ArgLits(xs, isAnd)[..|xs|] == ArgLits(xs, isAnd);
    assert [bl] + [] == [bl];
  }

  lemma NothingYet(b: Snapshot, g: Term)
    ensures Adds(b, b, Guarded([], g))
  {
    AddsNothing(b);
    assert Guarded([], g) == [];
  }

  function Constants(g: Term): seq<Clause> {
    Guarded([ArgLits([True], false)], g) + Guarded([ArgLits([False], true)], g)
  }

  lemma ConstantClauses(b: Snapshot, m: Snapshot, a: Snapshot, g: Term)
    requires Adds(b, m, Guarded([ArgLits([True], false)], g)) && Adds(m, a, Guarded([ArgLits([False], true)], g))
    ensures Adds(b, a, Constants(g))
    ensures forall n: Model :: Sat(b.meaning, OfModel(n)) ==> Sat(a.meaning, OfModel(n))
    ensures a.ok ==> forall tau: Valuation :: Sat(a.meaning, tau) ==> GuardOn(g, tau) || (tau(True) && !tau(False))
  {
    AddsMore(b, m, a, Guarded([ArgLits([True], false)], g), Guarded([ArgLits([False], true)], g));
    forall tau: Valuation
      ensures Sat(Constants(g), tau) <==> GuardOn(g, tau) || (tau(True) && !tau(False))
    {
      ConstantsMeaning(g, tau);
    }
    forall tau: Valuation ensures a.ok && Sat(a.meaning, tau) ==> Sat(Constants(g), tau)
    {
      AddsMeaning(b, a, Constants(g), tau);
    }
    forall n: Model | Sat(b.meaning, OfModel(n)) ensures Sat(a.meaning, OfModel(n)) {
      AddsMeaning(b, a, Constants(g), OfModel(n));
      ConstantMeaning(n);
    }
  }

  lemma ConstantsMeaning(g: Term, tau: Valuation)
    ensures Sat(Constants(g), tau) <==> GuardOn(g, tau) || (tau(True) && !tau(False))
  {
    SatConcat(Guarded([ArgLits([True], false)], g), Guarded([ArgLits([False], true)], g), tau);
    GuardedMeaning([ArgLits([True], false)], g, tau);
    GuardedMeaning([ArgLits([False], true)], g, tau);
    assert Sat([ArgLits([True], false)], tau) <==> ClauseHolds([ArgLits([True], false)][0], tau);
    assert Sat([ArgLits([False], true)], tau) <==> ClauseHolds([ArgLits([False], true)][0], tau);
    ArgLitsMeaning([True], false, tau);
    ArgLitsMeaning([False], true, tau);
    assert TermValue([True][0], tau) <==> tau(True);
    assert TermValue([False][0], tau) <==> tau(False);
  }
}
