/**
 Conversion of formulas to guarded clauses: the Cnfizer with Tseitin's definitions, one guard
 literal for each frame and caches for what a frame has been given.
 */
module Conversion {
  import opened Sequences
  import opened Terms
  import opened Facts
  import opened Clauses
  import opened Literals
  import opened TermMapping
  import opened TreeOps
  import opened GuardedClauses
  import opened ClauseShapes
  import opened NestedBooleans
  import opened Definitions
  import opened CnfCaches
  import opened FrameAssumptions

  // ---------- the converter ----------

  class Cnfizer {
    const solver: SatSolver
    const tmap: TermMapper
    var alreadyAsserted: Cache
    var alreadyCnfized: Cache
    var frameTerms: seq<Term>
    var currentFrameTerm: Term
    /** The guards of frames that made the solver not OK while they were added. */
    ghost var dead: set<Term>

    constructor (solver: SatSolver, tmap: TermMapper)
      ensures this.solver == solver && this.tmap == tmap
      ensures alreadyAsserted == {} && alreadyCnfized == {} && frameTerms == [True] && currentFrameTerm == True
        && dead == {}
      ensures tmap.Valid() && solver.Valid() && tmap.varToTerm == [] && solver.clauses == [] ==>
        Valid() && Snap().meaning == []
    {
      this.solver, this.tmap, dead := solver, tmap, {};
      alreadyAsserted, alreadyCnfized := {}, {};
      frameTerms, currentFrameTerm := [True], True;
    }

    ghost predicate WellMapped()
      reads solver, tmap
    {
      tmap.Valid() && solver.Valid() && AllInRange(tmap.varToTerm, solver.clauses)
    }

    ghost function Snap(): Snapshot
      requires WellMapped()
      reads solver, tmap
    {
      Snapshot(tmap.varToTerm, AsClauses(tmap.varToTerm, solver.clauses), solver.ok)
    }

    method GetOrCreateLiteralFor(t: Term) returns (l: Lit)
      requires WellMapped()
      modifies tmap
      ensures WellMapped() && Adds(old(Snap()), Snap(), []) && old(tmap.varToTerm) <= tmap.varToTerm
      ensures InRange(tmap.varToTerm, l) && AsSigned(tmap.varToTerm, l) == Pure(t)
    {
      l := tmap.GetOrCreateLit(t);
      AsClausesGrow(old(tmap.varToTerm), tmap.varToTerm, solver.clauses);
      AddsVars(old(Snap()), Snap());
    }

    /** Gives a clause to the solver, guarded by the literal of the current frame. */
    method AddClause(cIn: seq<Lit>) returns (res: bool)
      requires WellMapped() && ClauseInRange(tmap.varToTerm, cIn)
      modifies tmap, solver`clauses, solver`ok
      ensures WellMapped() && old(tmap.varToTerm) <= tmap.varToTerm
      ensures Adds(old(Snap()), Snap(), [AsClause(old(tmap.varToTerm), cIn) + GuardLits(currentFrameTerm)])
      ensures res == solver.ok && (res ==> old(solver.ok))
    {
      hide Adds, AllClausesTrue;
      var c := cIn;
      ghost var b := Snap();
      if currentFrameTerm != True {
        var l := GetOrCreateLiteralFor(currentFrameTerm);
        tmap.SetFrozen(l.v);
        AsClauseGrow(b.vt, tmap.varToTerm, cIn);
        c := c + [l];
        assert AsClause(tmap.varToTerm, c) == AsClause(b.vt, cIn) + GuardLits(currentFrameTerm);
      } else {
        AddsNothing(b);
        assert AsClause(b.vt, cIn) + GuardLits(currentFrameTerm) == AsClause(b.vt, cIn);
      }
      ghost var mid := Snap();
      res := Send(c);
      AddsMore(b, mid, Snap(), [], [AsClause(mid.vt, c)]);
      assert [] + [AsClause(mid.vt, c)] == [AsClause(mid.vt, c)];
    }

    /** Hands a complete clause to the solver. */
    method Send(c: seq<Lit>) returns (res: bool)
      requires WellMapped() && ClauseInRange(tmap.varToTerm, c)
      modifies solver`clauses, solver`ok
      ensures WellMapped() && res == solver.ok && (res ==> old(solver.ok))
      ensures Adds(old(Snap()), Snap(), [AsClause(tmap.varToTerm, c)])
    {
      ghost var b := Snap();
      res := solver.AddOriginalSMTClause(c);
      if b.ok && !solver.ok {
        forall tau: Valuation ensures !Sat(Snap().meaning, tau) {
          PullClauses(tmap.varToTerm, solver.clauses, tau);
        }
      }
      AddsOne(b, Snap(), AsClause(tmap.varToTerm, c));
    }
  
    /** Gives a clause whose literals stand for known signed terms. */
    method Add(c: seq<Lit>, ghost d: Clause, ghost b: Snapshot, ghost cs: seq<Clause>) returns (res: bool)
      requires WellMapped() && StandFor(tmap.varToTerm, c, d)
      requires Adds(b, Snap(), Guarded(cs, currentFrameTerm))
      modifies tmap, solver`clauses, solver`ok
      ensures WellMapped() && old(tmap.varToTerm) <= tmap.varToTerm && res == solver.ok && (res ==> old(solver.ok))
      ensures Adds(b, Snap(), Guarded(cs + [d], currentFrameTerm))
    {
      hide Adds, Guarded, GuardLits;
      ghost var m := Snap();
      res := AddClause(c);
      AddsGuarded(b, m, Snap(), cs, d, currentFrameTerm);
    }

    /** The literal of a term; what was added before stays added. */
    method LiteralAfter(t: Term, ghost b: Snapshot, ghost cs: seq<Clause>) returns (l: Lit)
      requires WellMapped() && Adds(b, Snap(), cs)
      modifies tmap
      ensures WellMapped() && old(tmap.varToTerm) <= tmap.varToTerm && Adds(b, Snap(), cs)
      ensures Stands(tmap.varToTerm, l, Pure(t)) && Stands(tmap.varToTerm, Neg(l), Flip(Pure(t)))
      ensures tmap.varToTerm == old(tmap.varToTerm) || |tmap.varToTerm| > |old(tmap.varToTerm)|
    {
      hide Adds;
      ghost var m := Snap();
      l := GetOrCreateLiteralFor(t);
      AddsAfter(b, m, Snap(), cs);
    }

    /** One argument of a conjunction or disjunction: its small clause, and its place in the big one. */
    method AddArgument(v: Lit, arg: Term, flip: bool, big: seq<Lit>,
                       ghost lit: PtAsgn, ghost bigd: Clause, ghost b: Snapshot, ghost cs: seq<Clause>)
      returns (res: bool, more: seq<Lit>)
      requires WellMapped() && Adds(b, Snap(), Guarded(cs, currentFrameTerm))
      requires StandFor(tmap.varToTerm, [v], [lit]) && StandFor(tmap.varToTerm, big, bigd)
      modifies tmap, solver`clauses, solver`ok
      ensures WellMapped() && res == solver.ok && (res ==> old(solver.ok))
      ensures Adds(b, Snap(), Guarded(cs + [[lit, if flip then Flip(Pure(arg)) else Pure(arg)]], currentFrameTerm))
      ensures StandFor(tmap.varToTerm, [v], [lit])
      ensures StandFor(tmap.varToTerm, more, bigd + [if flip then Pure(arg) else Flip(Pure(arg))])
    {
      hide *;
      ghost var vt, p := tmap.varToTerm, Pure(arg);
      var a := LiteralAfter(arg, b, Guarded(cs, currentFrameTerm));
      StandForGrow(vt, tmap.varToTerm, [v], [lit]);
      StandForGrow(vt, tmap.varToTerm, big, bigd);
      vt := tmap.varToTerm;
      var small, large := if flip then Neg(a) else a, if flip then a else Neg(a);
      ghost var smalld, larged := if flip then Flip(p) else p, if flip then p else Flip(p);
      StandForPush(vt, [v], [lit], small, smalld);
      StandForPush(vt, big, bigd, large, larged);
      more := big + [large];
      res := Add([v] + [small], [lit] + [smalld], b, cs);
      StandForGrow(vt, tmap.varToTerm, [v], [lit]);
      StandForGrow(vt, tmap.varToTerm, more, bigd + [larged]);
      assert [lit] + [smalld] == [lit, smalld];
    }

    /** The clauses of a conjunction (literal flipped in the small ones) or a disjunction. */
    method CnfizeArgs(t: Term, isAnd: bool) returns (res: bool)
      requires WellMapped() && (if isAnd then t.And? else t.Or?)
      modifies tmap, solver`clauses, solver`ok
      ensures WellMapped() && Adds(old(Snap()), Snap(), Guarded(DefClauses(t), currentFrameTerm))
      ensures Reports(old(solver.ok), solver.ok, res)
    {
      var xs := Args(t);
      NaryDef(t, isAnd);
      hide *;
      ghost var b := Snap();
      ghost var sl, bl := if isAnd then Flip(Pure(t)) else Pure(t), if isAnd then Pure(t) else Flip(Pure(t));
      NothingYet(b, currentFrameTerm);
      var v := LiteralAfter(t, b, Guarded([], currentFrameTerm));
      var small := if isAnd then Neg(v) else v;
      var bigClause := [if isAnd then v else Neg(v)];
      StandForOne(tmap.varToTerm, small, sl);
      StandForOne(tmap.varToTerm, bigClause[0], bl);
      res, bigClause := AddArguments(xs, isAnd, small, bigClause, sl, bl, b);
      ghost var mid := solver.ok;
      var r := Add(bigClause, BigClause(bl, xs, isAnd, |xs|), b, SmallClauses(sl, xs, !isAnd, |xs|));
      ReportsStep(old(solver.ok), mid, res, solver.ok, r);
      res := res && r;
    }

    method AddArguments(xs: seq<Term>, isAnd: bool, small: Lit, big: seq<Lit>,
                        ghost sl: PtAsgn, ghost bl: PtAsgn, ghost b: Snapshot) returns (res: bool, bigClause: seq<Lit>)
      requires WellMapped() && Adds(b, Snap(), Guarded(SmallClauses(sl, xs, !isAnd, 0), currentFrameTerm))
      requires StandFor(tmap.varToTerm, [small], [sl]) && StandFor(tmap.varToTerm, big, BigClause(bl, xs, isAnd, 0))
      modifies tmap, solver`clauses, solver`ok
      ensures WellMapped() && Adds(b, Snap(), Guarded(SmallClauses(sl, xs, !isAnd, |xs|), currentFrameTerm))
      ensures StandFor(tmap.varToTerm, bigClause, BigClause(bl, xs, isAnd, |xs|))
      ensures Reports(old(solver.ok), solver.ok, res)
    {
      ReportsStart(solver.ok);
      hide *;
      bigClause, res := big, true;
      for i := 0 to |xs|
        invariant WellMapped() && Adds(b, Snap(), Guarded(SmallClauses(sl, xs, !isAnd, i), currentFrameTerm))
        invariant StandFor(tmap.varToTerm, bigClause, BigClause(bl, xs, isAnd, i))
        invariant StandFor(tmap.varToTerm, [small], [sl])
        invariant Reports(old(solver.ok), solver.ok, res)
      {
        var r;
        ghost var mid := solver.ok;
        r, bigClause := AddArgument(small, xs[i], !isAnd, bigClause, sl,
                                    BigClause(bl, xs, isAnd, i), b, SmallClauses(sl, xs, !isAnd, i));
        NaryStep(sl, bl, xs, isAnd, i);
        ReportsStep(old(solver.ok), mid, res, solver.ok, r);
        res := res && r;
      }
    }

    method CnfizeAnd(t: Term) returns (res: bool)
      requires WellMapped() && t.And?
      modifies tmap, solver`clauses, solver`ok
      ensures WellMapped() && Adds(old(Snap()), Snap(), Guarded(DefClauses(t), currentFrameTerm))
      ensures Reports(old(solver.ok), solver.ok, res)
    {
      hide *;
      res := CnfizeArgs(t, true);
    }

    method CnfizeOr(t: Term) returns (res: bool)
      requires WellMapped() && t.Or?
      modifies tmap, solver`clauses, solver`ok
      ensures WellMapped() && Adds(old(Snap()), Snap(), Guarded(DefClauses(t), currentFrameTerm))
      ensures Reports(old(solver.ok), solver.ok, res)
    {
      hide *;
      res := CnfizeArgs(t, false);
    }

    /** A clause over the literals of a defined term and its two arguments, with the given flips. */
    method AddThree(v: Lit, a: Lit, c: Lit, fv: bool, fa: bool, fc: bool,
                    ghost t: Term, ghost x: Term, ghost y: Term, ghost b: Snapshot, ghost cs: seq<Clause>)
                      returns (res: bool)
      requires WellMapped() && ThreeStand(tmap.varToTerm, v, a, c, t, x, y)
      requires Adds(b, Snap(), Guarded(cs, currentFrameTerm))
      modifies tmap, solver`clauses, solver`ok
      ensures WellMapped() && ThreeStand(tmap.varToTerm, v, a, c, t, x, y) && res == solver.ok
        && (res ==> old(solver.ok))
      ensures Adds(b, Snap(), Guarded(cs + [ThreeClause(t, x, y, fv, fa, fc)], currentFrameTerm))
    {
      ghost var d := ThreeClause(t, x, y, fv, fa, fc);
      var l, m, n := if fv then Neg(v) else v, if fa then Neg(a) else a, if fc then Neg(c) else c;
      ghost var vt := tmap.varToTerm;
      ThreeLiterals(vt, v, a, c, t, x, y, fv, fa, fc);
      hide *;
      StandForOne(vt, l, d[0]);
      StandForPush(vt, [l], [d[0]], m, d[1]);
      StandForPush(vt, [l] + [m], [d[0]] + [d[1]], n, d[2]);
      assert [d[0]] + [d[1]] + [d[2]] == d;
      assert [l] + [m] + [n] == [l, m, n];
      res := Add([l, m, n], d, b, cs);
      ThreeGrow(vt, tmap.varToTerm, v, a, c, t, x, y);
    }

    /** The literals of a term and its two arguments. */
    method ThreeLits(t: Term, x: Term, y: Term, ghost b: Snapshot) returns (v: Lit, a: Lit, c: Lit)
      requires WellMapped() && b == Snap()
      modifies tmap
      ensures WellMapped() && ThreeStand(tmap.varToTerm, v, a, c, t, x, y)
      ensures Adds(b, Snap(), Guarded([], currentFrameTerm))
    {
      hide *;
      NothingYet(b, currentFrameTerm);
      v := LiteralAfter(t, b, Guarded([], currentFrameTerm));
      ghost var vt := tmap.varToTerm;
      a := LiteralAfter(x, b, Guarded([], currentFrameTerm));
      StandsGrow(vt, tmap.varToTerm, v, Pure(t));
      vt := tmap.varToTerm;
      c := LiteralAfter(y, b, Guarded([], currentFrameTerm));
      StandsGrow(vt, tmap.varToTerm, v, Pure(t));
      StandsGrow(vt, tmap.varToTerm, a, Pure(x));
      ThreeTogether(tmap.varToTerm, v, a, c, t, x, y);
    }

    method CnfizeXor(t: Term) returns (res: bool)
      requires WellMapped() && t.Xor?
      modifies tmap, solver`clauses, solver`ok
      ensures WellMapped() && Adds(old(Snap()), Snap(), Guarded(DefClauses(t), currentFrameTerm))
      ensures Reports(old(solver.ok), solver.ok, res)
    {
      XorDef(t);
      hide *;
      ghost var b := Snap();
      ghost var x, y, ok0 := t.lhs, t.rhs, solver.ok;
      var v, arg0, arg1 := ThreeLits(t, t.lhs, t.rhs, b);
      var r1 := AddThree(v, arg0, arg1, true, false, false, t, x, y, b, []);
      var r2 := AddThree(v, arg0, arg1, true, true, true, t, x, y, b, XorClauses(t, 1));
      var r3 := AddThree(v, arg0, arg1, false, true, false, t, x, y, b, XorClauses(t, 2));
      var r4 := AddThree(v, arg0, arg1, false, false, true, t, x, y, b, XorClauses(t, 3));
      res := r1 && r2 && r3 && r4;
      ReportsAll(ok0, r1, r2, r3, r4, solver.ok);
    }

    method CnfizeIff(t: Term) returns (res: bool)
      requires WellMapped() && t.Eq? && IsBool(t.lhs)
      modifies tmap, solver`clauses, solver`ok
      ensures WellMapped() && Adds(old(Snap()), Snap(), Guarded(DefClauses(t), currentFrameTerm))
      ensures Reports(old(solver.ok), solver.ok, res)
    {
      IffDef(t);
      hide *;
      ghost var b := Snap();
      ghost var x, y, ok0 := t.lhs, t.rhs, solver.ok;
      var v, arg0, arg1 := ThreeLits(t, t.lhs, t.rhs, b);
      var r1 := AddThree(v, arg0, arg1, true, false, true, t, x, y, b, []);
      var r2 := AddThree(v, arg0, arg1, true, true, false, t, x, y, b, IffClauses(t, 1));
      var r3 := AddThree(v, arg0, arg1, false, false, false, t, x, y, b, IffClauses(t, 2));
      var r4 := AddThree(v, arg0, arg1, false, true, true, t, x, y, b, IffClauses(t, 3));
      res := r1 && r2 && r3 && r4;
      ReportsAll(ok0, r1, r2, r3, r4, solver.ok);
    }

    /** The clauses that define one term; atoms and negations have none. */
    method CnfizeOne(t: Term) returns (res: bool)
      requires WellMapped()
      modifies tmap, solver`clauses, solver`ok
      ensures WellMapped() && Adds(old(Snap()), Snap(), Guarded(DefClauses(t), currentFrameTerm))
      ensures Reports(old(solver.ok), solver.ok, res)
    {
      NothingYet(Snap(), currentFrameTerm);
      ReportsStart(solver.ok);
      NoDef(t);
      hide Adds, WellMapped, Snap, Reports, DefClauses, Guarded, IsBool;
      res := true;
      if t.And? {
        res := CnfizeAnd(t);
      } else if t.Or? {
        res := CnfizeOr(t);
      } else if t.Xor? {
        res := CnfizeXor(t);
      } else if t.Eq? && IsBool(t.lhs) {
        res := CnfizeIff(t);
      }
    }

    /**
     Defines a term and everything below its connectives, unless the cache knows it for the
     current frame. The terms in defs are exactly those the cache did not know, each once; their
     definitions were added, nothing else.
     */
    method Cnfize(term: Term) returns (res: bool, ghost defs: seq<Term>)
      requires WellMapped() && CacheClosed(alreadyCnfized, currentFrameTerm, [])
      requires WellFormed(term) && IsBool(term)
      modifies this`alreadyCnfized, tmap, solver`clauses, solver`ok
      ensures WellMapped() && Adds(old(Snap()), Snap(), Guarded(DefsOf(defs), currentFrameTerm))
      ensures Reports(old(solver.ok), solver.ok, res)
      ensures alreadyCnfized == Caching(old(alreadyCnfized), defs, currentFrameTerm) && AllBool(defs)
      ensures CacheClosed(alreadyCnfized, currentFrameTerm, []) && Cached(alreadyCnfized, term, currentFrameTerm)
      ensures DefinesNew(defs, term, old(alreadyCnfized), currentFrameTerm)
    {
      hide *;
      ghost var b, cache0 := Snap(), alreadyCnfized;
      var unprocessed := [term];
      res, defs := true, [];
      CnfizeStarts(b, cache0, currentFrameTerm, term);
      OpeningStarts(cache0, currentFrameTerm, term);
      ReportsStart(solver.ok);
      while |unprocessed| != 0
        invariant WellMapped() && Adds(b, Snap(), Guarded(DefsOf(defs), currentFrameTerm))
        invariant Reports(old(solver.ok), solver.ok, res)
        invariant Cnfizing(cache0, alreadyCnfized, defs, currentFrameTerm, unprocessed, term)
        invariant Opening(cache0, defs, currentFrameTerm, unprocessed, term)
        decreases Uncached(alreadyCnfized, currentFrameTerm, term), |unprocessed|
      {
        var ptr, rest := unprocessed[|unprocessed| - 1], unprocessed[..|unprocessed| - 1];
        CnfizingPop(cache0, alreadyCnfized, defs, currentFrameTerm, unprocessed, term);
        CnfizingCache(cache0, alreadyCnfized, defs, currentFrameTerm, unprocessed, term);
        if Cached(alreadyCnfized, ptr, currentFrameTerm) {
          OpeningPop(cache0, defs, currentFrameTerm, unprocessed, term);
          unprocessed := rest;
          continue;
        }
        CnfizingNew(cache0, alreadyCnfized, defs, currentFrameTerm, unprocessed, term);
        OpeningNew(cache0, defs, currentFrameTerm, unprocessed, term);
        ghost var m, mid := Snap(), solver.ok;
        var r := CnfizeOne(ptr);
        AddsDefs(b, m, Snap(), defs, ptr, currentFrameTerm);
        ReportsJoin(old(solver.ok), mid, res, solver.ok, r);
        res := res && r;
        defs := defs + [ptr];
        unprocessed := rest + if Connective(ptr) || Args(ptr) == [] then Args(ptr) else [];
        alreadyCnfized := alreadyCnfized + {(ptr, currentFrameTerm)};
      }
      CnfizingDone(cache0, alreadyCnfized, defs, currentFrameTerm, term);
      OpeningDone(cache0, defs, currentFrameTerm, term);
    }

    // ---------- asserting a conjunct ----------

    /** The clause of the given literals, all of them negated if neg is set. */
    method AddLiterals(ls: seq<Term>, neg: bool) returns (res: bool)
      requires WellMapped()
      modifies tmap, solver`clauses, solver`ok
      ensures WellMapped() && Adds(old(Snap()), Snap(), Guarded([ArgLits(ls, neg)], currentFrameTerm))
      ensures res == solver.ok && (res ==> old(solver.ok))
    {
      hide *;
      ghost var b, d := Snap(), ArgLits(ls, neg);
      NothingYet(b, currentFrameTerm);
      var clause: seq<Lit> := [];
      StandForNone(tmap.varToTerm);
      for i := 0 to |ls|
        invariant WellMapped() && Adds(b, Snap(), Guarded([], currentFrameTerm)) && solver.ok == old(solver.ok)
        invariant StandFor(tmap.varToTerm, clause, d[..i])
      {
        ghost var vt := tmap.varToTerm;
        var l := LiteralAfter(ls[i], b, Guarded([], currentFrameTerm));
        StandForGrow(vt, tmap.varToTerm, clause, d[..i]);
        StandForPush(tmap.varToTerm, clause, d[..i], if neg then Neg(l) else l,
                     if neg then Flip(Pure(ls[i])) else Pure(ls[i]));
        assert d[..i] + [d[i]] == d[..i + 1];
        clause := clause + [if neg then Neg(l) else l];
      }
      assert d[..|ls|] == d;
      res := Add(clause, d, b, []);
      assert [] + [d] == [d];
    }

    /** A formula that is a clause already. */
    method AssertClause(f: Term) returns (res: bool, ghost d: Clause)
      requires WellMapped() && ClauseTree(f)
      modifies tmap, solver`clauses, solver`ok
      ensures WellMapped() && Adds(old(Snap()), Snap(), Guarded([d], currentFrameTerm))
      ensures res == solver.ok && (res ==> old(solver.ok)) && MeansFormula(d, f) && d == AssertedClause(f)
    {
      AssertedParts(f);
      hide *;
      var lits;
      if IsLiteral(f) {
        lits := [f];
        LiteralClause(f);
      } else {
        lits := RetrieveClause(f, []);
        TreeClause(f, lits);
      }
      d := ArgLits(lits, false);
      res := AddLiterals(lits, false);
    }

    /** A negated conjunction of literals becomes the clause of the negated literals. */
    method DeMorganize(f: Term) returns (res: bool, ghost d: Clause)
      requires WellMapped() && f.Not? && f.arg.And? && ConjTree(f.arg)
      modifies tmap, solver`clauses, solver`ok
      ensures WellMapped() && Adds(old(Snap()), Snap(), Guarded([d], currentFrameTerm))
      ensures res == solver.ok && (res ==> old(solver.ok)) && MeansFormula(d, f) && d == AssertedClause(f)
    {
      AssertedParts(f);
      hide *;
      var conjuncts := RetrieveConjuncts(f.arg, []);
      DeMorganClause(f, conjuncts);
      d := ArgLits(conjuncts, true);
      res := AddLiterals(conjuncts, true);
    }

    /** Any other formula: its literal as a unit clause and the definitions below it. */
    method CnfizeAndAssert(f: Term) returns (res: bool, ghost d: Clause, ghost defs: seq<Term>)
      requires WellMapped() && CacheClosed(alreadyCnfized, currentFrameTerm, []) && WellFormed(f) && IsBool(f)
      modifies this`alreadyCnfized, tmap, solver`clauses, solver`ok
      ensures WellMapped() && Adds(old(Snap()), Snap(), Guarded([d] + DefsOf(defs), currentFrameTerm))
      ensures Reports(old(solver.ok), solver.ok, res) && d == ArgLits([f], false)
      ensures alreadyCnfized == Caching(old(alreadyCnfized), defs, currentFrameTerm) && AllBool(defs)
      ensures CacheClosed(alreadyCnfized, currentFrameTerm, []) && Cached(alreadyCnfized, f, currentFrameTerm)
      ensures DefinesNew(defs, f, old(alreadyCnfized), currentFrameTerm)
    {
      hide *;
      ghost var b, ok0 := Snap(), solver.ok;
      d := ArgLits([f], false);
      res := AddLiterals([f], false);
      ghost var m, mid := Snap(), solver.ok;
      var r;
      r, defs := Cnfize(f);
      AddsMore(b, m, Snap(), Guarded([d], currentFrameTerm), Guarded(DefsOf(defs), currentFrameTerm));
      GuardedConcat([d], DefsOf(defs), currentFrameTerm);
      ReportsUnit(ok0, mid, res);
      ReportsJoin(ok0, mid, res, solver.ok, r);
      res := res && r;
    }

    /**
     Asserts one conjunct: as a clause, by de Morgan's law, or through its definition. Only the
     last needs definitions, and adds those that are missing.
     */
    method AssertConjunct(f: Term) returns (res: bool, ghost d: Clause, ghost defs: seq<Term>)
      requires WellMapped() && CacheClosed(alreadyCnfized, currentFrameTerm, []) && WellFormed(f) && IsBool(f)
      modifies this`alreadyCnfized, tmap, solver`clauses, solver`ok
      ensures WellMapped() && Adds(old(Snap()), Snap(), Guarded([d] + DefsOf(defs), currentFrameTerm))
      ensures Reports(old(solver.ok), solver.ok, res)
      ensures alreadyCnfized == Caching(old(alreadyCnfized), defs, currentFrameTerm) && AllBool(defs)
      ensures CacheClosed(alreadyCnfized, currentFrameTerm, []) && Asserts(d, f, alreadyCnfized, currentFrameTerm)
      ensures d == AssertedClause(f)
      ensures if Direct(f) then defs == [] else DefinesNew(defs, f, old(alreadyCnfized), currentFrameTerm)
    {
      AssertedParts(f);
      hide *;
      ghost var ok0 := solver.ok;
      var isClause := IsClause(f);
      if isClause {
        res, d := AssertClause(f);
        defs := [];
        NoDefs(d, alreadyCnfized, currentFrameTerm);
        ReportsUnit(ok0, solver.ok, res);
        AssertsFormula(d, f, alreadyCnfized, currentFrameTerm);
        return;
      }
      var deMorgan := CheckDeMorgan(f);
      if deMorgan {
        res, d := DeMorganize(f);
        defs := [];
        NoDefs(d, alreadyCnfized, currentFrameTerm);
        ReportsUnit(ok0, solver.ok, res);
        AssertsFormula(d, f, alreadyCnfized, currentFrameTerm);
      } else {
        res, d, defs := CnfizeAndAssert(f);
        AssertsDefined(f, alreadyCnfized, currentFrameTerm);
      }
    }

    // ---------- frames ----------

    /** Caches agree with the clauses; frame terms are guards or, if unused, true. */
    ghost predicate Valid()
      reads this, solver, tmap
    {
      && WellMapped() && CacheClosed(alreadyCnfized, currentFrameTerm, []) && CacheBool(alreadyCnfized)
      && CachesKept(Snap().meaning, alreadyCnfized, alreadyAsserted, dead)
      && FrameTerms(frameTerms)
    }

    /** Makes the guard of a frame current, creating it on first use. */
    method SetFrameTerm(id: nat)
      requires FrameTerms(frameTerms)
      modifies this`frameTerms, this`currentFrameTerm
      ensures FrameTerms(frameTerms) && currentFrameTerm == GuardOf(id)
      ensures id < |frameTerms| && frameTerms[id] == GuardOf(id)
      ensures |old(frameTerms)| <= |frameTerms|
      ensures forall i :: 0 <= i < |old(frameTerms)| && i != id ==> frameTerms[i] == old(frameTerms)[i]
      ensures forall i :: |old(frameTerms)| <= i < |frameTerms| && i != id ==> frameTerms[i] == True
    {
      while |frameTerms| <= id
        invariant FrameTerms(frameTerms) && |old(frameTerms)| <= |frameTerms|
        invariant forall i :: 0 <= i < |old(frameTerms)| ==> frameTerms[i] == old(frameTerms)[i]
        invariant forall i :: |old(frameTerms)| <= i < |frameTerms| ==> frameTerms[i] == True
        decreases id - |frameTerms|
      {
        frameTerms := frameTerms + [True];
      }
      if id != 0 && frameTerms[id] == True {
        frameTerms := frameTerms[id := Var(Guard(id), Bool)];
      }
      currentFrameTerm := frameTerms[id];
    }

    /** Asserts the conjuncts that the frame has not been given, until one makes the solver not OK. */
    method AssertAll(conjuncts: seq<Term>, ghost fla: Term) returns (res: bool)
      requires Valid() && solver.ok && currentFrameTerm !in dead && True !in dead
      requires forall c :: c in conjuncts ==> FollowsFrom(c, fla) && c in TopConjuncts(fla)
      modifies this`alreadyAsserted, this`alreadyCnfized, this`dead, tmap, solver`clauses, solver`ok
      ensures Valid() && WellMapped() && res == solver.ok && Evolves(old(Snap()), Snap())
      ensures dead == if res then old(dead) else old(dead) + {currentFrameTerm}
      ensures old(alreadyAsserted) <= alreadyAsserted && old(alreadyCnfized) <= alreadyCnfized
      ensures Survives(old(Snap()), Snap(), currentFrameTerm, fla)
      ensures res ==> forall c :: c in conjuncts ==> Cached(alreadyAsserted, c, currentFrameTerm)
      ensures OnlyConjuncts(old(alreadyAsserted), alreadyAsserted, fla, currentFrameTerm)
      ensures AddsOnlyNew(old(Snap()), Snap(), fla, old(alreadyAsserted), old(alreadyCnfized), alreadyCnfized,
                          currentFrameTerm)
    {
      ValidParts();
      hide *;
      ghost var b, dead0, asserted0, cache0 := Snap(), dead, alreadyAsserted, alreadyCnfized;
      res := true;
      NothingHappened(b, currentFrameTerm, fla);
      NothingNew(b, fla, asserted0, cache0, currentFrameTerm);
      NoConjuncts(asserted0, fla, currentFrameTerm);
      var i := 0;
      while i < |conjuncts| && res
        invariant 0 <= i <= |conjuncts| && Valid() && WellMapped() && res == solver.ok && Evolves(b, Snap())
        invariant dead == if res then dead0 else dead0 + {currentFrameTerm}
        invariant old(alreadyAsserted) <= alreadyAsserted && old(alreadyCnfized) <= alreadyCnfized
        invariant Survives(b, Snap(), currentFrameTerm, fla)
        invariant res ==> forall c :: c in conjuncts[..i] ==> Cached(alreadyAsserted, c, currentFrameTerm)
        invariant OnlyConjuncts(asserted0, alreadyAsserted, fla, currentFrameTerm)
        invariant AddsOnlyNew(b, Snap(), fla, asserted0, cache0, alreadyCnfized, currentFrameTerm)
      {
        var f := conjuncts[i];
        assert conjuncts[..i + 1] == conjuncts[..i] + [f];
        ghost var m, asserted, cache := Snap(), alreadyAsserted, alreadyCnfized;
        if !Cached(alreadyAsserted, f, currentFrameTerm) {
          res := AssertNew(f, fla);
          OnlyNewOn(b, m, Snap(), fla, asserted0, asserted, cache0, cache, alreadyCnfized, currentFrameTerm);
          OnlyConjunctsOn(asserted0, asserted, fla, f, currentFrameTerm);
          EvolvesOn(b, m, Snap());
          SurvivesOn(b, m, Snap(), currentFrameTerm, fla);
        }
        CachedNew(asserted, f, currentFrameTerm);
        CachedGrows(asserted, alreadyAsserted, currentFrameTerm, conjuncts[..i]);
        i := i + 1;
      }
      assert res ==> conjuncts[..i] == conjuncts;
    }

    /** Asserts one new conjunct and remembers it. */
    method AssertNew(f: Term, ghost fla: Term) returns (res: bool)
      requires Valid() && solver.ok && currentFrameTerm !in dead && True !in dead && FollowsFrom(f, fla)
      requires f in TopConjuncts(fla) && !Cached(alreadyAsserted, f, currentFrameTerm)
      modifies this`alreadyAsserted, this`alreadyCnfized, this`dead, tmap, solver`clauses, solver`ok
      ensures Valid() && WellMapped() && res == solver.ok && Evolves(old(Snap()), Snap())
      ensures dead == if res then old(dead) else old(dead) + {currentFrameTerm}
      ensures alreadyAsserted == old(alreadyAsserted) + {(f, currentFrameTerm)} && old(alreadyCnfized) <= alreadyCnfized
      ensures Survives(old(Snap()), Snap(), currentFrameTerm, fla)
      ensures AddsOnlyNew(old(Snap()), Snap(), fla, old(alreadyAsserted), old(alreadyCnfized), alreadyCnfized,
                          currentFrameTerm)
    {
      FollowsBool(f, fla);
      ValidParts();
      hide *;
      ghost var b, g, cache := Snap(), currentFrameTerm, alreadyCnfized;
      ghost var d, defs;
      res, d, defs := AssertConjunct(f);
      ReportsOk(solver.ok, res);
      SnapOk();
      CachingBool(cache, defs, g);
      ConjunctNew(b, Snap(), defs, f, fla, alreadyAsserted, cache, g);
      AssertKeeps(b, Snap(), d, defs, f, g, cache, alreadyAsserted, dead);
      AssertSurvives(b, Snap(), d, defs, f, g, alreadyCnfized, fla);
      AddsEvolves(b, Snap(), Guarded([d] + DefsOf(defs), g));
      if !res { dead := dead + {g}; }
      alreadyAsserted := alreadyAsserted + {(f, currentFrameTerm)};
      ValidAgain();
    }

    /** Defines the nested Boolean roots without asserting them. */
    method CnfizeAll(roots: seq<Term>, ghost fla: Term) returns (res: bool)
      requires Valid() && solver.ok && currentFrameTerm !in dead && AllBool(roots)
      requires forall r :: r in roots ==> NestedRoot(fla, r)
      modifies this`alreadyCnfized, this`dead, tmap, solver`clauses, solver`ok
      ensures Valid() && WellMapped() && res == solver.ok && Evolves(old(Snap()), Snap())
      ensures dead == if res then old(dead) else old(dead) + {currentFrameTerm}
      ensures old(alreadyCnfized) <= alreadyCnfized
      ensures Survives(old(Snap()), Snap(), currentFrameTerm, fla)
      ensures forall r :: r in roots ==> Cached(alreadyCnfized, r, currentFrameTerm)
      ensures AddsOnlyNew(old(Snap()), Snap(), fla, alreadyAsserted, old(alreadyCnfized), alreadyCnfized,
                          currentFrameTerm)
    {
      ValidParts();
      hide *;
      ghost var b, cache, defs := Snap(), alreadyCnfized, [];
      res, defs := DefineRoots(roots, fla);
      ReportsOk(solver.ok, res);
      SnapOk();
      CachingBool(cache, defs, currentFrameTerm);
      RootsKeep(b, Snap(), defs, currentFrameTerm, cache, alreadyAsserted, dead);
      RootsSurvive(b, Snap(), defs, currentFrameTerm, fla);
      AddsEvolves(b, Snap(), Guarded(DefsOf(defs), currentFrameTerm));
      if !res { dead := dead + {currentFrameTerm}; }
      ValidAgain();
    }

    /** The loop over the nested roots: the definitions of the terms below them that were missing. */
    method DefineRoots(roots: seq<Term>, ghost fla: Term) returns (res: bool, ghost defs: seq<Term>)
      requires WellMapped() && CacheClosed(alreadyCnfized, currentFrameTerm, []) && AllBool(roots)
      requires forall r :: r in roots ==> NestedRoot(fla, r)
      modifies this`alreadyCnfized, tmap, solver`clauses, solver`ok
      ensures WellMapped() && CacheClosed(alreadyCnfized, currentFrameTerm, [])
      ensures Adds(old(Snap()), Snap(), Guarded(DefsOf(defs), currentFrameTerm))
      ensures Reports(old(solver.ok), solver.ok, res)
      ensures alreadyCnfized == Caching(old(alreadyCnfized), defs, currentFrameTerm) && AllBool(defs)
      ensures forall r :: r in roots ==> Cached(alreadyCnfized, r, currentFrameTerm)
      ensures AddsOnlyNew(old(Snap()), Snap(), fla, alreadyAsserted, old(alreadyCnfized), alreadyCnfized,
                          currentFrameTerm)
    {
      hide *;
      ghost var b, ok0, cache := Snap(), solver.ok, alreadyCnfized;
      res, defs := true, [];
      NothingNew(b, fla, alreadyAsserted, cache, currentFrameTerm);
      NoDefsYet(b, cache, currentFrameTerm);
      ReportsStart(solver.ok);
      for i := 0 to |roots|
        invariant WellMapped() && CacheClosed(alreadyCnfized, currentFrameTerm, [])
        invariant Adds(b, Snap(), Guarded(DefsOf(defs), currentFrameTerm)) && Reports(ok0, solver.ok, res)
        invariant alreadyCnfized == Caching(cache, defs, currentFrameTerm) && AllBool(defs)
        invariant forall r :: r in roots[..i] ==> Cached(alreadyCnfized, r, currentFrameTerm)
        invariant AddsOnlyNew(b, Snap(), fla, alreadyAsserted, cache, alreadyCnfized, currentFrameTerm)
      {
        assert roots[..i + 1] == roots[..i] + [roots[i]];
        AllBoolAt(roots, i);
        ghost var m, mid, before := Snap(), solver.ok, alreadyCnfized;
        var r;
        ghost var more;
        r, more := Cnfize(roots[i]);
        AddsDefsOf(b, m, Snap(), defs, more, currentFrameTerm);
        RootNew(m, Snap(), more, roots[i], fla, alreadyAsserted, before, currentFrameTerm);
        OnlyNewOn(b, m, Snap(), fla, alreadyAsserted, alreadyAsserted, cache, before, alreadyCnfized,
                  currentFrameTerm);
        CachingMore(cache, defs, more, currentFrameTerm);
        ReportsJoin(old(solver.ok), mid, res, solver.ok, r);
        CachedGrows(before, alreadyCnfized, currentFrameTerm, roots[..i]);
        defs := defs + more;
        res := res && r;
      }
      assert roots[..|roots|] == roots;
    }

    /**
     Gives a formula to the solver under the guard of a frame. On success every top-level
     conjunct is asserted for the frame and every nested Boolean root is defined for it. The
     clauses added assert conjuncts the frame did not have or are definitions that these and the
     nested roots need and that were missing.
     */
    method CnfizeAndGiveToSolver(formula: Term, frameId: nat) returns (res: bool)
      requires Valid() && WellFormed(formula) && IsBool(formula)
      requires GuardOf(frameId) !in dead && True !in dead
      modifies this, tmap, solver`clauses, solver`ok
      ensures Valid() && Evolves(old(Snap()), Snap()) && Survives(old(Snap()), Snap(), GuardOf(frameId), formula)
      ensures res ==> solver.ok && GivenTo(alreadyAsserted, alreadyCnfized, formula, GuardOf(frameId))
      ensures !res ==> !solver.ok && (old(solver.ok) ==> Refuted(Snap().meaning))
      ensures dead == if res || !old(solver.ok) then old(dead) else old(dead) + {GuardOf(frameId)}
      ensures old(alreadyAsserted) <= alreadyAsserted && old(alreadyCnfized) <= alreadyCnfized
      ensures frameId < |frameTerms| && frameTerms[frameId] == GuardOf(frameId) && |old(frameTerms)| <= |frameTerms|
      ensures forall i :: 0 <= i < |old(frameTerms)| && i != frameId ==> frameTerms[i] == old(frameTerms)[i]
      ensures OnlyConjuncts(old(alreadyAsserted), alreadyAsserted, formula, GuardOf(frameId))
      ensures AddsOnlyNew(old(Snap()), Snap(), formula, old(alreadyAsserted), old(alreadyCnfized), alreadyCnfized,
                          GuardOf(frameId))
    {
      ValidParts();
      hide *;
      SetFrameTerm(frameId);
      ghost var b, g := Snap(), currentFrameTerm;
      ghost var asserted, cache := alreadyAsserted, alreadyCnfized;
      NothingHappened(b, g, formula);
      NothingNew(b, formula, asserted, cache, g);
      NoConjuncts(asserted, formula, g);
      ClosedAnyway(alreadyCnfized, old(currentFrameTerm), g);
      ValidAgain();
      if !solver.ok { return false; }
      var conjuncts := TopLevelConjuncts(formula);
      ConjunctsFollow(formula, conjuncts);
      res := AssertAll(conjuncts, formula);
      EvolvesRefuted(b, Snap());
      SnapOk();
      if res {
        var roots := GetNestedBoolRoots(formula);
        RootsBool(formula, roots);
        ghost var m, mid := Snap(), alreadyCnfized;
        res := CnfizeAll(roots, formula);
        ConjunctsGrow(asserted, alreadyAsserted, formula, g);
        OnlyNewOn(b, m, Snap(), formula, asserted, alreadyAsserted, cache, mid, alreadyCnfized, g);
        EvolvesOn(b, m, Snap());
        EvolvesRefuted(b, Snap());
        SurvivesOn(b, m, Snap(), g, formula);
        SnapOk();
        GivenAll(alreadyAsserted, alreadyCnfized, formula, g, conjuncts, roots);
      }
    }

    /** The constants true and false: their unit clauses, under whatever frame is current. */
    method Initialize()
      requires Valid()
      modifies tmap, solver`clauses, solver`ok
      ensures Valid() && Evolves(old(Snap()), Snap())
      ensures forall m: Model :: Sat(old(Snap()).meaning, OfModel(m)) ==> Sat(Snap().meaning, OfModel(m))
      ensures old(solver.ok) && solver.ok ==> forall tau: Valuation ::
                Sat(Snap().meaning, tau) ==> GuardOn(currentFrameTerm, tau) || (tau(True) && !tau(False))
    {
      ValidParts();
      hide *;
      ghost var b := Snap();
      var r1 := AddLiterals([True], false);
      ghost var m := Snap();
      var r2 := AddLiterals([False], true);
      ConstantClauses(b, m, Snap(), currentFrameTerm);
      KeptGrowsBoth(b, Snap(), Constants(currentFrameTerm), alreadyCnfized, alreadyAsserted, dead);
      AddsEvolves(b, Snap(), Constants(currentFrameTerm));
      SnapOk();
      ValidAgain();
    }

    /** The literals of all frame terms, in order. */
    method FrameLiterals() returns (lits: seq<Lit>)
      requires Valid()
      modifies tmap
      ensures Valid() && WellMapped() && Snap() == old(Snap()).(vt := tmap.varToTerm)
      ensures |lits| == |frameTerms| && forall i :: 0 <= i < |lits| ==>
        Stands(tmap.varToTerm, lits[i], Pure(frameTerms[i]))
    {
      ValidParts();
      hide *;
      lits := [];
      for i := 0 to |frameTerms|
        invariant WellMapped() && Snap() == old(Snap()).(vt := tmap.varToTerm)
        invariant |lits| == i && forall j :: 0 <= j < i ==> Stands(tmap.varToTerm, lits[j], Pure(frameTerms[j]))
      {
        ghost var vt := tmap.varToTerm;
        var l := FrameLiteral(frameTerms[i]);
        forall j | 0 <= j < i ensures Stands(tmap.varToTerm, lits[j], Pure(frameTerms[j])) {
          StandsGrow(vt, tmap.varToTerm, lits[j], Pure(frameTerms[j]));
        }
        lits := lits + [l];
      }
      SameMeaning(old(Snap()), Snap(), alreadyCnfized, alreadyAsserted, dead);
      ValidAgain();
    }

    /** The literal of a term; the clauses keep their meaning. */
    method FrameLiteral(t: Term) returns (l: Lit)
      requires WellMapped()
      modifies tmap
      ensures WellMapped() && Snap() == old(Snap()).(vt := tmap.varToTerm) && old(tmap.varToTerm) <= tmap.varToTerm
      ensures Stands(tmap.varToTerm, l, Pure(t))
    {
      l := GetOrCreateLiteralFor(t);
    }

    /**
     The assumptions of a check: every guard positive, those of the enabled frames negated,
     and the constant of frames without a guard left out.
     */
    method Assumptions(enFrames: seq<nat>) returns (assumps: seq<Lit>)
      requires Valid() && Ascending(enFrames) && forall i :: 0 <= i < |enFrames| ==> enFrames[i] < |frameTerms|
      modifies tmap
      ensures Valid() && WellMapped() && Snap() == old(Snap()).(vt := tmap.varToTerm)
      ensures StandFor(tmap.varToTerm, assumps, AssumptionsOf(frameTerms, enFrames, |frameTerms|))
    {
      var lits := FrameLiterals();
      var all := FlipEnabled(lits, enFrames);
      ValidParts();
      ghost var vt := tmap.varToTerm;
      hide *;
      var litTrue := FrameLiteral(True);
      SameMeaning(old(Snap()), Snap(), alreadyCnfized, alreadyAsserted, dead);
      ValidAgain();
      forall i | 0 <= i < |lits| ensures Stands(tmap.varToTerm, lits[i], Pure(frameTerms[i])) {
        StandsGrow(vt, tmap.varToTerm, lits[i], Pure(frameTerms[i]));
      }
      assumps := FilterConstants(all, lits, litTrue, enFrames);
    }

    /** Leaves out the constant's literals; what stays are the assumptions of the frames with a guard. */
    method FilterConstants(all: seq<Lit>, ghost lits: seq<Lit>, litTrue: Lit, ghost en: seq<nat>)
      returns (assumps: seq<Lit>)
      requires WellMapped() && FrameTerms(frameTerms) && |all| == |lits| == |frameTerms|
      requires Stands(tmap.varToTerm, litTrue, Pure(True))
      requires forall i :: 0 <= i < |lits| ==> Stands(tmap.varToTerm, lits[i], Pure(frameTerms[i]))
      requires forall i :: 0 <= i < |all| ==> all[i] == if i in en then Neg(lits[i]) else lits[i]
      ensures StandFor(tmap.varToTerm, assumps, AssumptionsOf(frameTerms, en, |frameTerms|))
    {
      hide *;
      ghost var vt, tv := tmap.varToTerm, tmap.termToVar;
      MappedParts();
      assumps := [];
      StandForNone(vt);
      NoAssumptions(frameTerms, en);
      for i := 0 to |all|
        invariant StandFor(vt, assumps, AssumptionsOf(frameTerms, en, i))
      {
        NextAssumption(vt, tv, frameTerms, en, i, lits[i], litTrue, assumps);
        if all[i] != litTrue && all[i] != Neg(litTrue) {
          assumps := assumps + [all[i]];
        }
      }
    }

    /** Asks the solver for a model under the assumptions that enable the given frames. */
    method Solve(enFrames: seq<nat>) returns (r: Answer)
      requires Valid() && WellMapped() && solver.ok && FramesReady(frameTerms, enFrames)
      modifies tmap, solver`ok, solver`conflictFrame
      ensures Valid() && WellMapped() && Snap() == old(Snap()).(vt := tmap.varToTerm, ok := solver.ok)
      ensures match r
              case Satisfiable => solver.ok && solver.conflictFrame == old(solver.conflictFrame) && exists tau, m ::
                FrameModel(Snap().meaning, frameTerms, enFrames, tau, m)
              case Unsatisfiable(k) =>
                !solver.ok && solver.conflictFrame == k && k < |enFrames|
                && forall m: Model :: !(Sat(Snap().meaning, OfModel(m))
                                        && FramesUpTo(frameTerms, enFrames, k, OfModel(m)))
              case Unknown => solver.ok && solver.conflictFrame == old(solver.conflictFrame)
      ensures Decides(solver.search) ==> r != Unknown
    {
      var assumps := Assumptions(enFrames);
      ghost var cs := AssumptionsOf(frameTerms, enFrames, |frameTerms|);
      ValidParts();
      hide *;
      r := solver.Solve(tmap.varToTerm, assumps);
      SolvedSnap();
      ValidAgain();
      AnswerMeaning(assumps, cs, enFrames, r);
    }

    lemma SolvedSnap()
      requires WellMapped()
      ensures Snap().ok == solver.ok && Snap().vt == tmap.varToTerm
    {
    }

    lemma AnswerMeaning(assumps: seq<Lit>, cs: seq<PtAsgn>, enFrames: seq<nat>, r: Answer)
      requires WellMapped() && FrameTerms(frameTerms) && FramesReady(frameTerms, enFrames)
      requires cs == AssumptionsOf(frameTerms, enFrames, |frameTerms|) && StandFor(tmap.varToTerm, assumps, cs)
      requires match r
               case Satisfiable => exists sigma, m ::
                 Solution(tmap.varToTerm, solver.clauses, assumps, |assumps|, sigma, m)
               case Unsatisfiable(k) =>
                 k <= Enabled(assumps, |assumps|)
                 && forall sigma, m :: !Solution(tmap.varToTerm, solver.clauses, assumps, k, sigma, m)
               case Unknown => true
      ensures match r
              case Satisfiable => exists tau, m :: FrameModel(Snap().meaning, frameTerms, enFrames, tau, m)
              case Unsatisfiable(k) =>
                k < |enFrames|
                && forall m: Model :: !(Sat(Snap().meaning, OfModel(m))
                                        && FramesUpTo(frameTerms, enFrames, k, OfModel(m)))
              case Unknown => true
    {
      hide *;
      match r
      case Satisfiable =>
        var sigma, m :| Solution(tmap.varToTerm, solver.clauses, assumps, |assumps|, sigma, m);
        MappedParts();
        SolutionFrames(tmap.varToTerm, tmap.termToVar, solver.clauses, assumps, cs, frameTerms, enFrames, sigma, m);
      case Unsatisfiable(k) =>
        MappedParts();
        NoModel(tmap.varToTerm, solver.clauses, assumps, cs, frameTerms, enFrames, k);
      case Unknown =>
    }

    lemma MappedParts()
      requires WellMapped()
      ensures Inverse(tmap.varToTerm, tmap.termToVar) && AllInRange(tmap.varToTerm, solver.clauses)
      ensures Snap().meaning == AsClauses(tmap.varToTerm, solver.clauses)
    {
    }

    lemma ValidParts()
      requires Valid()
      ensures WellMapped() && CacheClosed(alreadyCnfized, currentFrameTerm, []) && CacheBool(alreadyCnfized)
      ensures CachesKept(Snap().meaning, alreadyCnfized, alreadyAsserted, dead)
      ensures FrameTerms(frameTerms)
    {
    }

    lemma ValidAgain()
      requires WellMapped() && CacheClosed(alreadyCnfized, currentFrameTerm, []) && CacheBool(alreadyCnfized)
      requires CachesKept(Snap().meaning, alreadyCnfized, alreadyAsserted, dead)
      requires FrameTerms(frameTerms)
      ensures Valid()
    {
    }

    /** The flags of the solver do not matter to the converter. */
    twostate lemma ValidAfter(b: Snapshot)
      requires old(Valid()) && old(WellMapped()) && b == old(Snap())
      requires unchanged(this) && unchanged(tmap) && unchanged(solver`clauses)
      ensures Valid() && WellMapped() && Snap() == b.(ok := solver.ok)
    {
    }

    lemma SnapOk()
      requires WellMapped()
      ensures Snap().ok == solver.ok
    {
    }
  }
}
