/**
 What a frame has been given: the caches of defined and asserted terms, and the worklist over a formula.
 */
module CnfCaches {
  import opened Sequences
  import opened Terms
  import opened Facts
  import opened Clauses
  import opened TreeOps
  import opened GuardedClauses
  import opened ClauseShapes
  import opened NestedBooleans
  import opened Definitions

  // ---------- caches ----------

  type Cache = set<(Term, Term)>

  /** A cache knows a term for a frame if it has it for that frame or for the bottom frame. */
  predicate Cached(cache: Cache, t: Term, g: Term) {
    (t, g) in cache || (g != True && (t, True) in cache)
  }

  /** The arguments of a cached connective are cached for its frame, or still on the worklist. */
  ghost predicate CacheClosed(cache: Cache, g: Term, queue: seq<Term>) {
    forall t, h :: (t, h) in cache && Connective(t) ==> ArgsKnown(cache, t, h, g, queue)
  }

  ghost predicate ArgsKnown(cache: Cache, t: Term, h: Term, g: Term, queue: seq<Term>) {
    forall i :: 0 <= i < |Args(t)| ==> Cached(cache, Args(t)[i], h) || (h == g && Args(t)[i] in queue)
  }

  ghost predicate CacheBool(cache: Cache) {
    forall t, h :: (t, h) in cache ==> WellFormed(t) && IsBool(t)
  }

  /** Every cached term of a live frame is defined by the clauses, unless its guard is on. */
  ghost predicate DefsKept(meaning: seq<Clause>, cache: Cache, dead: set<Term>) {
    forall t, h, tau: Valuation :: (t, h) in cache && h !in dead && Sat(meaning, tau) ==>
      GuardOn(h, tau) || Defined(t, tau)
  }

  /** Every asserted term of a live frame holds, unless its guard is on. */
  ghost predicate AssertsKept(meaning: seq<Clause>, asserted: Cache, dead: set<Term>) {
    forall t, h, tau: Valuation :: (t, h) in asserted && h !in dead && Sat(meaning, tau) ==>
      GuardOn(h, tau) || PropHolds(t, tau)
  }

  /** What is known for a frame is closed below: its definitions reach down to the atoms. */
  lemma KnownClosed(cache: Cache, g: Term, ts: set<Term>)
    requires CacheClosed(cache, g, []) && ts == KnownFor(cache, g)
    ensures ClosedBelow(ts)
  {
    forall t, i | t in ts && Connective(t) && 0 <= i < |Args(t)| ensures Args(t)[i] in ts {
      if (t, g) in cache {
        assert ArgsKnown(cache, t, g, g, []);
        assert Cached(cache, Args(t)[i], g);
      } else {
        assert ArgsKnown(cache, t, True, g, []);
        assert Cached(cache, Args(t)[i], True);
      }
      CachedKnown(cache, g, Args(t)[i]);
    }
  }

  ghost function KnownFor(cache: Cache, g: Term): set<Term> {
    set e | e in cache && (e.1 == g || e.1 == True) :: e.0
  }

  lemma CachedKnown(cache: Cache, g: Term, t: Term)
    ensures t in KnownFor(cache, g) <==> Cached(cache, t, g)
  {
    if (t, g) in cache { assert (t, g).0 in KnownFor(cache, g); }
    if (t, True) in cache { assert (t, True).0 in KnownFor(cache, g); }
    if t in KnownFor(cache, g) {
      var e :| e in cache && (e.1 == g || e.1 == True) && e.0 == t;
      assert e == (t, e.1);
    }
  }

  /** A literal of a cached term has the term's propositional value where the frame is enabled. */
  lemma CachedValue(meaning: seq<Clause>, cache: Cache, dead: set<Term>, g: Term, t: Term, tau: Valuation)
    requires CacheClosed(cache, g, []) && CacheBool(cache) && DefsKept(meaning, cache, dead)
    requires g !in dead && True !in dead && Cached(cache, t, g)
    requires Sat(meaning, tau) && !GuardOn(g, tau)
    ensures TermValue(t, tau) <==> PropHolds(t, tau)
  {
    var ts := KnownFor(cache, g);
    KnownClosed(cache, g, ts);
    CachedKnown(cache, g, t);
    forall u | u in ts ensures Defined(u, tau) {
      CachedKnown(cache, g, u);
      assert !GuardOn(True, tau);
    }
    assert WellFormed(t) && IsBool(t);
    DefinedValue(t, ts, tau);
  }

  // ---------- definitions of many terms ----------

  function DefsOf(ts: seq<Term>): seq<Clause> {
    if ts == [] then [] else DefsOf(ts[..|ts| - 1]) + DefClauses(ts[|ts| - 1])
  }

  lemma DefsPush(ts: seq<Term>, t: Term)
    ensures DefsOf(ts + [t]) == DefsOf(ts) + DefClauses(t)
  {
    assert (ts + [t])[..|ts|] == ts;
  }

  lemma {:induction false} DefsMeaning(ts: seq<Term>, tau: Valuation)
    ensures Sat(DefsOf(ts), tau) <==> forall i :: 0 <= i < |ts| ==> Defined(ts[i], tau)
  {
    hide Defined, DefClauses, ClauseHolds;
    if ts != [] {
      var n := |ts| - 1;
      DefsMeaning(ts[..n], tau);
      DefClausesMeaning(ts[n], tau);
      SatConcat(DefsOf(ts[..n]), DefClauses(ts[n]), tau);
      assert ts == ts[..n] + [ts[n]];
    }
  }

  /** The cache after the terms ts were defined for guard g. */
  ghost function Caching(cache: Cache, ts: seq<Term>, g: Term): Cache {
    cache + (set t | t in ts :: (t, g))
  }

  /** After an addition of definitions the cache may contain their terms. */
  lemma DefsAdded(b: Snapshot, a: Snapshot, cache: Cache, ts: seq<Term>, g: Term, dead: set<Term>)
    requires Adds(b, a, Guarded(DefsOf(ts), g)) && DefsKept(b.meaning, cache, dead)
    ensures DefsKept(a.meaning, Caching(cache, ts, g), if a.ok then dead else dead + {g})
  {
    forall t, h, tau: Valuation |
      (t, h) in Caching(cache, ts, g) && h !in (if a.ok then dead else dead + {g}) && Sat(a.meaning, tau)
      ensures GuardOn(h, tau) || Defined(t, tau)
    {
      AddsMeaning(b, a, Guarded(DefsOf(ts), g), tau);
      if (t, h) !in cache {
        GuardedMeaning(DefsOf(ts), g, tau);
        DefsMeaning(ts, tau);
      }
    }
  }

  /** Definitions hold in every model, so models survive their addition. */
  lemma DefsHold(ts: seq<Term>, g: Term, m: Model)
    requires AllBool(ts)
    ensures Sat(Guarded(DefsOf(ts), g), OfModel(m))
  {
    GuardedMeaning(DefsOf(ts), g, OfModel(m));
    DefsMeaning(ts, OfModel(m));
    forall i | 0 <= i < |ts| ensures Defined(ts[i], OfModel(m)) {
      DefinedByModel(ts[i], m);
    }
  }

  lemma KeptGrows(b: Snapshot, a: Snapshot, cs: seq<Clause>, cache: Cache, asserted: Cache, dead: set<Term>,
                  dead': set<Term>)
    requires Adds(b, a, cs) && dead <= dead'
    ensures DefsKept(b.meaning, cache, dead) ==> DefsKept(a.meaning, cache, dead')
    ensures AssertsKept(b.meaning, asserted, dead) ==> AssertsKept(a.meaning, asserted, dead')
  {
    forall tau: Valuation | Sat(a.meaning, tau) ensures Sat(b.meaning, tau) {
      AddsMeaning(b, a, cs, tau);
    }
  }

  lemma AddsGuarded(b: Snapshot, m: Snapshot, a: Snapshot, cs: seq<Clause>, c: Clause, g: Term)
    requires Adds(b, m, Guarded(cs, g)) && Adds(m, a, [c + GuardLits(g)])
    ensures Adds(b, a, Guarded(cs + [c], g))
  {
    hide Adds;
    AddsMore(b, m, a, Guarded(cs, g), [c + GuardLits(g)]);
    assert Guarded(cs + [c], g) == Guarded(cs, g) + [c + GuardLits(g)];
  }

  lemma AddsAfter(b: Snapshot, m: Snapshot, a: Snapshot, cs: seq<Clause>)
    requires Adds(b, m, cs) && Adds(m, a, [])
    ensures Adds(b, a, cs)
  {
    hide Adds;
    AddsMore(b, m, a, cs, []);
    assert cs + [] == cs;
  }

  ghost predicate FrameTerms(ts: seq<Term>) {
    |ts| > 0 && ts[0] == True && forall i :: 0 <= i < |ts| ==> ts[i] == True || ts[i] == GuardOf(i)
  }

  /** The conjunct holds in every model of the formula. */
  ghost predicate FollowsFrom(c: Term, fla: Term) {
    WellFormed(c) && IsBool(c) && forall m: Model :: Holds(fla, m) ==> Holds(c, m)
  }

  lemma FollowsBool(c: Term, fla: Term)
    requires FollowsFrom(c, fla)
    ensures WellFormed(c) && IsBool(c) && forall m: Model :: Holds(fla, m) ==> Holds(c, m)
  {
  }

  lemma ConjunctsFollow(fla: Term, conjuncts: seq<Term>)
    requires WellFormed(fla) && IsBool(fla) && forall c :: c in conjuncts <==> c in TopConjuncts(fla)
    ensures forall c :: c in conjuncts ==> FollowsFrom(c, fla)
  {
    forall c | c in conjuncts ensures FollowsFrom(c, fla) {
      TopConjunctsBool(fla, c);
      forall m: Model | Holds(fla, m) ensures Holds(c, m) {
        PropModel(fla, m);
        TopConjunctsMeaning(fla, OfModel(m));
        PropModel(c, m);
      }
    }
  }

  /** What a frame that was given a formula has: its conjuncts asserted, its nested roots defined. */
  ghost predicate GivenTo(asserted: Cache, cnfized: Cache, fla: Term, g: Term) {
    && (forall c :: c in TopConjuncts(fla) ==> Cached(asserted, c, g))
    && (forall r :: NestedRoot(fla, r) ==> Cached(cnfized, r, g))
  }

  lemma GivenAll(asserted: Cache, cnfized: Cache, fla: Term, g: Term, conjuncts: seq<Term>, roots: seq<Term>)
    requires forall c :: c in conjuncts <==> c in TopConjuncts(fla)
    requires forall r :: r in roots <==> NestedRoot(fla, r)
    requires forall c :: c in conjuncts ==> Cached(asserted, c, g)
    requires forall r :: r in roots ==> Cached(cnfized, r, g)
    ensures GivenTo(asserted, cnfized, fla, g)
  {
  }

  lemma RootsBool(fla: Term, roots: seq<Term>)
    requires WellFormed(fla) && forall r :: r in roots <==> NestedRoot(fla, r)
    ensures AllBool(roots)
  {
    forall i | 0 <= i < |roots| ensures WellFormed(roots[i]) && IsBool(roots[i]) {
      assert roots[i] in roots;
      NestedRootBool(fla, roots[i]);
    }
  }

  lemma NothingHappened(b: Snapshot, g: Term, fla: Term)
    ensures Evolves(b, b) && Survives(b, b, g, fla)
  {
  }

  lemma EvolvesRefuted(b: Snapshot, a: Snapshot)
    requires Evolves(b, a)
    ensures b.ok && !a.ok ==> Refuted(a.meaning)
  {
  }

  lemma ClosedAnyway(cache: Cache, g: Term, h: Term)
    requires CacheClosed(cache, g, [])
    ensures CacheClosed(cache, h, [])
  {
    forall t, k | (t, k) in cache && Connective(t) ensures ArgsKnown(cache, t, k, h, []) {
      assert ArgsKnown(cache, t, k, g, []);
    }
  }

  lemma CachedGrows(cache: Cache, more: Cache, g: Term, ts: seq<Term>)
    requires cache <= more
    ensures (forall t :: t in ts ==> Cached(cache, t, g)) ==> forall t :: t in ts ==> Cached(more, t, g)
  {
  }

  lemma CachedNew(cache: Cache, t: Term, g: Term)
    ensures Cached(cache + {(t, g)}, t, g)
  {
  }

  lemma CachingBool(cache: Cache, ts: seq<Term>, g: Term)
    requires CacheBool(cache) && AllBool(ts)
    ensures CacheBool(Caching(cache, ts, g)) && cache <= Caching(cache, ts, g)
  {
  }

  lemma CachingMore(cache: Cache, ts: seq<Term>, us: seq<Term>, g: Term)
    ensures Caching(Caching(cache, ts, g), us, g) == Caching(cache, ts + us, g)
    ensures Caching(cache, ts, g) <= Caching(cache, ts + us, g)
    ensures AllBool(ts) && AllBool(us) ==> AllBool(ts + us)
  {
  }

  lemma NoDefsYet(b: Snapshot, cache: Cache, g: Term)
    ensures Adds(b, b, Guarded(DefsOf([]), g)) && Caching(cache, [], g) == cache && AllBool([])
  {
    NothingYet(b, g);
  }

  lemma AllBoolAt(ts: seq<Term>, i: nat)
    requires AllBool(ts) && i < |ts|
    ensures WellFormed(ts[i]) && IsBool(ts[i])
  {
  }

  lemma AddsDefsOf(b: Snapshot, m: Snapshot, a: Snapshot, ts: seq<Term>, us: seq<Term>, g: Term)
    requires Adds(b, m, Guarded(DefsOf(ts), g)) && Adds(m, a, Guarded(DefsOf(us), g))
    ensures Adds(b, a, Guarded(DefsOf(ts + us), g))
  {
    hide Adds;
    AddsMore(b, m, a, Guarded(DefsOf(ts), g), Guarded(DefsOf(us), g));
    DefsConcat(ts, us);
    GuardedConcat(DefsOf(ts), DefsOf(us), g);
  }

  lemma {:induction false} DefsConcat(ts: seq<Term>, us: seq<Term>)
    ensures DefsOf(ts + us) == DefsOf(ts) + DefsOf(us)
  {
    hide DefClauses;
    if us == [] {
      assert ts + us == ts;
    } else {
      var n := |us| - 1;
      DefsConcat(ts, us[..n]);
      assert us == us[..n] + [us[n]];
      DefsConcatOne(ts, us[..n], us[n]);
    }
  }

  lemma DefsConcatOne(ts: seq<Term>, us: seq<Term>, t: Term)
    requires DefsOf(ts + us) == DefsOf(ts) + DefsOf(us)
    ensures DefsOf(ts + (us + [t])) == DefsOf(ts) + DefsOf(us + [t])
  {
    DefsPush(ts + us, t);
    DefsPush(us, t);
    hide DefsOf, DefClauses;
    assert ts + (us + [t]) == (ts + us) + [t];
  }

  lemma ReportsOk(now: bool, res: bool)
    requires Reports(true, now, res)
    ensures res == now
  {
  }

  lemma RootsKeep(b: Snapshot, a: Snapshot, defs: seq<Term>, g: Term, cache: Cache, asserted: Cache, dead: set<Term>)
    requires Adds(b, a, Guarded(DefsOf(defs), g)) && CachesKept(b.meaning, cache, asserted, dead)
    ensures CachesKept(a.meaning, Caching(cache, defs, g), asserted, if a.ok then dead else dead + {g})
  {
    DefsAdded(b, a, cache, defs, g, dead);
    KeptGrows(b, a, Guarded(DefsOf(defs), g), cache, asserted, dead, if a.ok then dead else dead + {g});
  }

  lemma RootsSurvive(b: Snapshot, a: Snapshot, defs: seq<Term>, g: Term, fla: Term)
    requires Adds(b, a, Guarded(DefsOf(defs), g)) && AllBool(defs)
    ensures Survives(b, a, g, fla)
  {
    forall m: Model | Sat(b.meaning, OfModel(m)) ensures Sat(a.meaning, OfModel(m)) {
      AddsMeaning(b, a, Guarded(DefsOf(defs), g), OfModel(m));
      DefsHold(defs, g, m);
    }
  }

  /** The clause says what the formula says. */
  ghost predicate MeansFormula(d: Clause, f: Term) {
    forall tau: Valuation :: ClauseHolds(d, tau) <==> PropHolds(f, tau)
  }

  /** The clause says what the formula says, or is its literal and the formula is defined. */
  ghost predicate Asserts(d: Clause, f: Term, cache: Cache, g: Term) {
    MeansFormula(d, f) || (d == ArgLits([f], false) && Cached(cache, f, g))
  }

  lemma AssertsFormula(d: Clause, f: Term, cache: Cache, g: Term)
    requires MeansFormula(d, f)
    ensures Asserts(d, f, cache, g)
  {
  }

  lemma AssertsDefined(f: Term, cache: Cache, g: Term)
    requires Cached(cache, f, g)
    ensures Asserts(ArgLits([f], false), f, cache, g)
  {
  }

  lemma NoDefs(d: Clause, cache: Cache, g: Term)
    ensures [d] + DefsOf([]) == [d] && Caching(cache, [], g) == cache && AllBool([])
  {
  }

  lemma ReportsUnit(before: bool, now: bool, res: bool)
    requires res == now && (res ==> before)
    ensures Reports(before, now, res)
  {
  }

  lemma LiteralClause(f: Term)
    requires IsLiteral(f)
    ensures MeansFormula(ArgLits([f], false), f)
  {
    forall tau: Valuation ensures ClauseHolds(ArgLits([f], false), tau) <==> PropHolds(f, tau) {
      ArgLitsMeaning([f], false, tau);
      LiteralValue(f, tau);
      if TermValue(f, tau) { assert TermValue([f][0], tau); }
    }
  }

  lemma TreeClause(f: Term, lits: seq<Term>)
    requires forall tau: Valuation :: SomeLiteral(lits, tau) <==> SomeLiteral([], tau) || PropHolds(f, tau)
    ensures MeansFormula(ArgLits(lits, false), f)
  {
    forall tau: Valuation ensures ClauseHolds(ArgLits(lits, false), tau) <==> PropHolds(f, tau) {
      ArgLitsMeaning(lits, false, tau);
    }
  }

  lemma DeMorganClause(f: Term, lits: seq<Term>)
    requires f.Not?
    requires forall tau: Valuation :: EveryLiteral(lits, tau) <==> EveryLiteral([], tau) && PropHolds(f.arg, tau)
    ensures MeansFormula(ArgLits(lits, true), f)
  {
    forall tau: Valuation ensures ClauseHolds(ArgLits(lits, true), tau) <==> PropHolds(f, tau) {
      ArgLitsMeaning(lits, true, tau);
    }
  }

  /** What every addition does to the state, whatever the clauses. */
  ghost predicate Evolves(b: Snapshot, a: Snapshot) {
    && b.vt <= a.vt && (a.ok ==> b.ok) && (b.ok && !a.ok ==> Refuted(a.meaning))
    && forall tau: Valuation :: Sat(a.meaning, tau) ==> Sat(b.meaning, tau)
  }

  lemma AddsEvolves(b: Snapshot, a: Snapshot, cs: seq<Clause>)
    requires Adds(b, a, cs)
    ensures Evolves(b, a)
  {
    forall tau: Valuation | Sat(a.meaning, tau) ensures Sat(b.meaning, tau) { AddsMeaning(b, a, cs, tau); }
  }

  lemma EvolvesOn(b: Snapshot, m: Snapshot, a: Snapshot)
    requires Evolves(b, m) && Evolves(m, a)
    ensures Evolves(b, a)
  {
  }

  /** The models of a formula, or those that turn the guard on, satisfy what was added. */
  ghost predicate Survives(b: Snapshot, a: Snapshot, g: Term, fla: Term) {
    forall m: Model :: Sat(b.meaning, OfModel(m)) && (GuardOn(g, OfModel(m)) || Holds(fla, m)) ==>
      Sat(a.meaning, OfModel(m))
  }

  lemma SurvivesOn(b: Snapshot, m: Snapshot, a: Snapshot, g: Term, fla: Term)
    requires Survives(b, m, g, fla) && Survives(m, a, g, fla)
    ensures Survives(b, a, g, fla)
  {
  }

  /** Caches and clauses agree: the part of the invariant that speaks of valuations. */
  ghost predicate CachesKept(meaning: seq<Clause>, cache: Cache, asserted: Cache, dead: set<Term>) {
    DefsKept(meaning, cache, dead) && AssertsKept(meaning, asserted, dead)
  }

  /** After a conjunct was asserted it holds wherever its frame is enabled. */
  lemma AssertKeeps(b: Snapshot, a: Snapshot, d: Clause, defs: seq<Term>, f: Term, g: Term,
                    cache: Cache, asserted: Cache, dead: set<Term>)
    requires Adds(b, a, Guarded([d] + DefsOf(defs), g)) && CachesKept(b.meaning, cache, asserted, dead)
    requires var cache' := Caching(cache, defs, g);
             CacheClosed(cache', g, []) && CacheBool(cache') && Asserts(d, f, cache', g)
    requires g !in dead && True !in dead
    ensures CachesKept(a.meaning, Caching(cache, defs, g), asserted + {(f, g)}, if a.ok then dead else dead + {g})
  {
    var dead' := if a.ok then dead else dead + {g};
    KeptDefs(b, a, d, defs, g, cache, dead);
    KeptGrows(b, a, Guarded([d] + DefsOf(defs), g), cache, asserted, dead, dead');
    forall t, h, tau: Valuation | (t, h) in asserted + {(f, g)} && h !in dead' && Sat(a.meaning, tau)
      ensures GuardOn(h, tau) || PropHolds(t, tau)
    {
      if (t, h) !in asserted {
        AssertedValue(b, a, d, defs, f, g, cache, dead, tau);
      }
    }
  }

  lemma KeptDefs(b: Snapshot, a: Snapshot, d: Clause, defs: seq<Term>, g: Term, cache: Cache, dead: set<Term>)
    requires Adds(b, a, Guarded([d] + DefsOf(defs), g)) && DefsKept(b.meaning, cache, dead)
    ensures DefsKept(a.meaning, Caching(cache, defs, g), if a.ok then dead else dead + {g})
  {
    forall t, h, tau: Valuation |
      (t, h) in Caching(cache, defs, g) && h !in (if a.ok then dead else dead + {g}) && Sat(a.meaning, tau)
      ensures GuardOn(h, tau) || Defined(t, tau)
    {
      AddsMeaning(b, a, Guarded([d] + DefsOf(defs), g), tau);
      if (t, h) !in cache {
        GuardedMeaning([d] + DefsOf(defs), g, tau);
        SatConcat([d], DefsOf(defs), tau);
        DefsMeaning(defs, tau);
      }
    }
  }

  lemma AssertedValue(b: Snapshot, a: Snapshot, d: Clause, defs: seq<Term>, f: Term, g: Term,
                      cache: Cache, dead: set<Term>, tau: Valuation)
    requires Adds(b, a, Guarded([d] + DefsOf(defs), g)) && DefsKept(b.meaning, cache, dead)
    requires var cache' := Caching(cache, defs, g);
             CacheClosed(cache', g, []) && CacheBool(cache') && Asserts(d, f, cache', g)
    requires g !in dead && True !in dead && a.ok && Sat(a.meaning, tau)
    ensures GuardOn(g, tau) || PropHolds(f, tau)
  {
    AddsMeaning(b, a, Guarded([d] + DefsOf(defs), g), tau);
    GuardedMeaning([d] + DefsOf(defs), g, tau);
    if !GuardOn(g, tau) {
      SatConcat([d], DefsOf(defs), tau);
      assert ClauseHolds([d][0], tau);
      if !MeansFormula(d, f) {
        KeptDefs(b, a, d, defs, g, cache, dead);
        CachedValue(a.meaning, Caching(cache, defs, g), dead, g, f, tau);
        ArgLitsMeaning([f], false, tau);
      }
    }
  }

  /** Asserting a conjunct keeps the models of formulas it follows from. */
  lemma AssertSurvives(b: Snapshot, a: Snapshot, d: Clause, defs: seq<Term>, f: Term, g: Term, cache: Cache, fla: Term)
    requires Adds(b, a, Guarded([d] + DefsOf(defs), g)) && AllBool(defs)
    requires WellFormed(f) && IsBool(f) && Asserts(d, f, cache, g)
    requires forall m: Model :: Holds(fla, m) ==> Holds(f, m)
    ensures Survives(b, a, g, fla)
  {
    forall m: Model | Sat(b.meaning, OfModel(m)) && (GuardOn(g, OfModel(m)) || Holds(fla, m))
      ensures Sat(a.meaning, OfModel(m))
    {
      AddsMeaning(b, a, Guarded([d] + DefsOf(defs), g), OfModel(m));
      GuardedMeaning([d] + DefsOf(defs), g, OfModel(m));
      GuardedMeaning(DefsOf(defs), g, OfModel(m));
      DefsHold(defs, g, m);
      SatConcat([d], DefsOf(defs), OfModel(m));
      if !GuardOn(g, OfModel(m)) { AssertedModel(d, f, cache, g, m); }
    }
  }

  lemma AssertedModel(d: Clause, f: Term, cache: Cache, g: Term, m: Model)
    requires WellFormed(f) && IsBool(f) && Asserts(d, f, cache, g) && Holds(f, m)
    ensures ClauseHolds(d, OfModel(m))
  {
    PropModel(f, m);
    if !MeansFormula(d, f) {
      PureValue(f, m);
      ArgLitsMeaning([f], false, OfModel(m));
      assert TermValue([f][0], OfModel(m));
    }
  }

  lemma NoDef(t: Term)
    ensures !t.And? && !t.Or? && !t.Xor? && !(t.Eq? && IsBool(t.lhs)) ==> DefClauses(t) == []
  {
  }

  lemma ReportsJoin(before: bool, mid: bool, res: bool, now: bool, r: bool)
    requires Reports(before, mid, res) && Reports(mid, now, r)
    ensures Reports(before, now, res && r)
  {
  }

  lemma AddsDefs(b: Snapshot, m: Snapshot, a: Snapshot, ts: seq<Term>, t: Term, g: Term)
    requires Adds(b, m, Guarded(DefsOf(ts), g)) && Adds(m, a, Guarded(DefClauses(t), g))
    ensures Adds(b, a, Guarded(DefsOf(ts + [t]), g))
  {
    hide Adds;
    AddsMore(b, m, a, Guarded(DefsOf(ts), g), Guarded(DefClauses(t), g));
    DefsPush(ts, t);
    GuardedConcat(DefsOf(ts), DefClauses(t), g);
  }

  /** The subterms that are not cached for the frame. */
  ghost function Uncached(cache: Cache, g: Term, term: Term): set<Term> {
    set t | t in Subterms(term) && (t, g) !in cache
  }

  /** What the worklist of the conversion keeps. */
  ghost predicate Cnfizing(cache0: Cache, cache: Cache, defs: seq<Term>, g: Term, queue: seq<Term>, term: Term) {
    && cache == Caching(cache0, defs, g) && AllBool(defs) && CacheClosed(cache, g, queue)
    && (forall q :: q in queue ==> WellFormed(q) && IsBool(q) && q in Subterms(term))
    && (Cached(cache, term, g) || term in queue)
  }

  lemma CnfizeStarts(b: Snapshot, cache: Cache, g: Term, term: Term)
    requires CacheClosed(cache, g, []) && WellFormed(term) && IsBool(term)
    ensures Adds(b, b, Guarded(DefsOf([]), g)) && Cnfizing(cache, cache, [], g, [term], term)
  {
    NothingYet(b, g);
    hide Adds, Subterms;
    assert Caching(cache, [], g) == cache;
    assert term in Subterms(term) by { SubtermSelf(term); }
    forall t, h | (t, h) in cache && Connective(t) ensures ArgsKnown(cache, t, h, g, [term]) {
      assert ArgsKnown(cache, t, h, g, []);
    }
  }

  lemma CnfizingPop(cache0: Cache, cache: Cache, defs: seq<Term>, g: Term, queue: seq<Term>, term: Term)
    requires Cnfizing(cache0, cache, defs, g, queue, term) && queue != []
    ensures var n := |queue| - 1;
            Cached(cache, queue[n], g) ==> Cnfizing(cache0, cache, defs, g, queue[..n], term)
  {
    hide Subterms, WellFormed, IsBool, AllBool, Caching, Args, Connective;
    var n := |queue| - 1;
    var rest := queue[..n];
    assert forall q :: q in queue ==> q in rest || q == queue[n];
    if Cached(cache, queue[n], g) {
      forall t, h | (t, h) in cache && Connective(t) ensures ArgsKnown(cache, t, h, g, rest) {
        assert ArgsKnown(cache, t, h, g, queue);
      }
    }
  }

  lemma CnfizingCache(cache0: Cache, cache: Cache, defs: seq<Term>, g: Term, queue: seq<Term>, term: Term)
    requires Cnfizing(cache0, cache, defs, g, queue, term)
    ensures cache == Caching(cache0, defs, g)
  {
  }

  lemma UncachedLess(cache: Cache, g: Term, term: Term, t: Term)
    requires t in Subterms(term) && !Cached(cache, t, g)
    ensures Uncached(cache + {(t, g)}, g, term) < Uncached(cache, g, term)
  {
    hide Subterms;
    assert t in Uncached(cache, g, term) && t !in Uncached(cache + {(t, g)}, g, term);
  }

  /** A new term is cached and what its value depends on is queued. */
  lemma CnfizingNew(cache0: Cache, cache: Cache, defs: seq<Term>, g: Term, queue: seq<Term>, term: Term)
    requires Cnfizing(cache0, cache, defs, g, queue, term) && queue != [] && !Cached(cache, queue[|queue| - 1], g)
    ensures var t := queue[|queue| - 1];
            var more := queue[..|queue| - 1] + if Connective(t) || Args(t) == [] then Args(t) else [];
            && Cnfizing(cache0, cache + {(t, g)}, defs + [t], g, more, term)
            && Uncached(cache + {(t, g)}, g, term) < Uncached(cache, g, term)
  {
    var t := queue[|queue| - 1];
    var more := queue[..|queue| - 1] + if Connective(t) || Args(t) == [] then Args(t) else [];
    assert t in queue;
    CachingPush(cache0, defs, t, g);
    CnfizingClosed(cache, g, queue);
    CnfizingQueue(term, t);
    UncachedLess(cache, g, term, t);
    hide Subterms, CacheClosed, WellFormed, IsBool, Connective, Args, Caching, ArgsKnown, Uncached, AllBool;
    forall q | q in more ensures WellFormed(q) && IsBool(q) && q in Subterms(term) {
    }
    assert Cached(cache + {(t, g)}, term, g) || term in more;
    AllBoolPush(defs, t);
  }

  // ---------- what is new ----------

  /** The terms that the value of a formula is computed from: all below its connectives, and itself. */
  function Opened(t: Term): set<Term> {
    {t} + if Connective(t) then set i, x | 0 <= i < |Args(t)| && x in Opened(Args(t)[i]) :: x else {}
  }

  lemma {:induction false} OpenedNested(t: Term, u: Term)
    requires u in Opened(t)
    ensures Opened(u) <= Opened(t)
  {
    if u != t {
      var i :| 0 <= i < |Args(t)| && u in Opened(Args(t)[i]);
      OpenedNested(Args(t)[i], u);
    }
  }

  /** What the cache knows is known down to the atoms. */
  lemma {:induction false} OpenedKnown(cache: Cache, t: Term, g: Term, u: Term)
    requires CacheClosed(cache, g, []) && Cached(cache, t, g) && u in Opened(t)
    ensures Cached(cache, u, g)
  {
    if u != t {
      var i :| 0 <= i < |Args(t)| && u in Opened(Args(t)[i]);
      if (t, g) in cache {
        assert ArgsKnown(cache, t, g, g, []);
      } else {
        assert ArgsKnown(cache, t, True, g, []);
      }
      OpenedKnown(cache, Args(t)[i], g, u);
    }
  }

  /** The terms are, each once, those below the formula that the cache does not know. */
  ghost predicate DefinesNew(defs: seq<Term>, term: Term, cache: Cache, g: Term) {
    Distinct(defs) && forall t :: t in defs <==> t in Opened(term) && !Cached(cache, t, g)
  }

  /** What the worklist of the conversion has defined is new, and it meets nothing but terms below the formula. */
  ghost predicate Opening(cache: Cache, defs: seq<Term>, g: Term, queue: seq<Term>, term: Term) {
    && Distinct(defs) && (forall t :: t in defs ==> t in Opened(term) && !Cached(cache, t, g))
    && (forall q :: q in queue ==> q in Opened(term))
  }

  lemma OpeningStarts(cache: Cache, g: Term, term: Term)
    ensures Opening(cache, [], g, [term], term)
  {
  }

  lemma OpeningPop(cache: Cache, defs: seq<Term>, g: Term, queue: seq<Term>, term: Term)
    requires Opening(cache, defs, g, queue, term) && queue != []
    ensures Opening(cache, defs, g, queue[..|queue| - 1], term)
  {
    hide Opened, Cached;
  }

  lemma OpeningNew(cache: Cache, defs: seq<Term>, g: Term, queue: seq<Term>, term: Term)
    requires Opening(cache, defs, g, queue, term) && queue != []
    requires !Cached(Caching(cache, defs, g), queue[|queue| - 1], g)
    ensures var t := queue[|queue| - 1];
            Opening(cache, defs + [t], g,
                    queue[..|queue| - 1] + if Connective(t) || Args(t) == [] then Args(t) else [], term)
  {
    var t := queue[|queue| - 1];
    assert t in queue;
    OpenedArgs(term, t);
    CachingHas(cache, defs, g);
    hide Opened, Args, Connective, Caching;
  }

  lemma CachingHas(cache: Cache, ts: seq<Term>, g: Term)
    ensures forall t :: t in ts ==> Cached(Caching(cache, ts, g), t, g)
  {
  }

  lemma OpenedArgs(term: Term, t: Term)
    requires t in Opened(term)
    ensures Connective(t) ==> forall q :: q in Args(t) ==> q in Opened(term)
  {
    OpenedNested(term, t);
    if Connective(t) {
      forall q | q in Args(t) ensures q in Opened(t) {
        var i :| 0 <= i < |Args(t)| && Args(t)[i] == q;
        assert q in Opened(Args(t)[i]);
      }
    }
  }

  lemma OpeningDone(cache: Cache, defs: seq<Term>, g: Term, term: Term)
    requires Opening(cache, defs, g, [], term)
    requires var cache' := Caching(cache, defs, g); CacheClosed(cache', g, []) && Cached(cache', term, g)
    ensures DefinesNew(defs, term, cache, g)
  {
    hide Opened, CacheClosed;
    forall t | t in Opened(term) && !Cached(cache, t, g) ensures t in defs {
      OpenedKnown(Caching(cache, defs, g), term, g, t);
    }
  }

  /** The clause asserts a conjunct of the formula that the frame did not have. */
  ghost predicate NewConjunct(c: Clause, fla: Term, asserted: Cache, g: Term) {
    exists f :: f in TopConjuncts(fla) && !Cached(asserted, f, g) && c == AssertedClause(f)
  }

  /** The clause belongs to the definition of a term that has come into the cache. */
  ghost predicate NewDefinition(c: Clause, cache: Cache, cache': Cache, g: Term) {
    exists t :: (t, g) in cache' && (t, g) !in cache && c in DefClauses(t)
  }

  /** The formula needs the definition: below a new conjunct that is not direct, or below a nested root. */
  ghost predicate Needed(t: Term, fla: Term, asserted: Cache, g: Term) {
    || (exists f :: f in TopConjuncts(fla) && !Cached(asserted, f, g) && !Direct(f) && t in Opened(f))
    || (exists r :: NestedRoot(fla, r) && t in Opened(r))
  }

  /** The clauses assert new conjuncts or define new terms that the formula needs; the cache grows by these alone. */
  ghost predicate OnlyNew(cs: seq<Clause>, fla: Term, asserted: Cache, cache: Cache, cache': Cache, g: Term) {
    && (forall c :: c in cs ==> NewConjunct(c, fla, asserted, g) || NewDefinition(c, cache, cache', g))
    && (forall t, h :: (t, h) in cache' && (t, h) !in cache ==>
        h == g && !Cached(cache, t, g) && Needed(t, fla, asserted, g))
  }

  ghost predicate AddsOnlyNew(b: Snapshot, a: Snapshot, fla: Term, asserted: Cache, cache: Cache, cache': Cache,
                              g: Term) {
    cache <= cache' && exists cs :: Adds(b, a, Guarded(cs, g)) && OnlyNew(cs, fla, asserted, cache, cache', g)
  }

  lemma NothingNew(b: Snapshot, fla: Term, asserted: Cache, cache: Cache, g: Term)
    ensures AddsOnlyNew(b, b, fla, asserted, cache, cache, g)
  {
    NothingYet(b, g);
    assert OnlyNew([], fla, asserted, cache, cache, g);
  }

  /** Additions compose, the later ones from the caches that the earlier ones left. */
  lemma OnlyNewOn(b: Snapshot, m: Snapshot, a: Snapshot, fla: Term, asserted: Cache, asserted': Cache,
                  cache: Cache, mid: Cache, cache': Cache, g: Term)
    requires AddsOnlyNew(b, m, fla, asserted, cache, mid, g) && AddsOnlyNew(m, a, fla, asserted', mid, cache', g)
    requires asserted <= asserted'
    ensures AddsOnlyNew(b, a, fla, asserted, cache, cache', g)
  {
    hide *;
    var cs := NewClauses(b, m, fla, asserted, cache, mid, g);
    var ds := NewClauses(m, a, fla, asserted', mid, cache', g);
    AddsMore(b, m, a, Guarded(cs, g), Guarded(ds, g));
    GuardedConcat(cs, ds, g);
    OnlyNewJoin(cs, ds, fla, asserted, asserted', cache, mid, cache', g);
    NewAgain(b, a, cs + ds, fla, asserted, cache, cache', g);
  }

  lemma NewClauses(b: Snapshot, a: Snapshot, fla: Term, asserted: Cache, cache: Cache, cache': Cache, g: Term)
    returns (cs: seq<Clause>)
    requires AddsOnlyNew(b, a, fla, asserted, cache, cache', g)
    ensures cache <= cache' && Adds(b, a, Guarded(cs, g)) && OnlyNew(cs, fla, asserted, cache, cache', g)
  {
    hide Adds, OnlyNew, Guarded;
    cs :| Adds(b, a, Guarded(cs, g)) && OnlyNew(cs, fla, asserted, cache, cache', g);
  }

  lemma NewAgain(b: Snapshot, a: Snapshot, cs: seq<Clause>, fla: Term, asserted: Cache, cache: Cache, cache': Cache,
                 g: Term)
    requires cache <= cache' && Adds(b, a, Guarded(cs, g)) && OnlyNew(cs, fla, asserted, cache, cache', g)
    ensures AddsOnlyNew(b, a, fla, asserted, cache, cache', g)
  {
    hide Adds, OnlyNew, Guarded;
  }

  lemma OnlyNewJoin(cs: seq<Clause>, ds: seq<Clause>, fla: Term, asserted: Cache, asserted': Cache,
                    cache: Cache, mid: Cache, cache': Cache, g: Term)
    requires OnlyNew(cs, fla, asserted, cache, mid, g) && OnlyNew(ds, fla, asserted', mid, cache', g)
    requires asserted <= asserted' && cache <= mid <= cache'
    ensures OnlyNew(cs + ds, fla, asserted, cache, cache', g)
  {
    hide NewConjunct, NewDefinition, Needed;
    forall c | c in cs + ds ensures NewConjunct(c, fla, asserted, g) || NewDefinition(c, cache, cache', g) {
      if c in cs {
        OnlyNewLater(c, cache, mid, cache', g);
      } else {
        OnlyNewEarlier(c, fla, asserted, asserted', cache, mid, cache', g);
      }
    }
    forall t, h | (t, h) in cache' && (t, h) !in cache
      ensures h == g && !Cached(cache, t, g) && Needed(t, fla, asserted, g)
    {
      if (t, h) !in mid { NeededEarlier(t, fla, asserted, asserted', g); }
    }
  }

  lemma OnlyNewLater(c: Clause, cache: Cache, mid: Cache, cache': Cache, g: Term)
    requires mid <= cache'
    ensures NewDefinition(c, cache, mid, g) ==> NewDefinition(c, cache, cache', g)
  {
    hide DefClauses;
  }

  lemma OnlyNewEarlier(c: Clause, fla: Term, asserted: Cache, asserted': Cache, cache: Cache, mid: Cache,
                       cache': Cache, g: Term)
    requires asserted <= asserted' && cache <= mid
    ensures NewConjunct(c, fla, asserted', g) ==> NewConjunct(c, fla, asserted, g)
    ensures NewDefinition(c, mid, cache', g) ==> NewDefinition(c, cache, cache', g)
  {
    hide DefClauses, TopConjuncts, AssertedClause;
  }

  lemma NeededEarlier(t: Term, fla: Term, asserted: Cache, asserted': Cache, g: Term)
    requires asserted <= asserted' && Needed(t, fla, asserted', g)
    ensures Needed(t, fla, asserted, g)
  {
    hide Opened, TopConjuncts, NestedRoot, Direct;
  }

  /** Asserting a new conjunct adds its clause and, unless it is direct, the missing definitions below it. */
  lemma ConjunctNew(b: Snapshot, a: Snapshot, defs: seq<Term>, f: Term, fla: Term, asserted: Cache, cache: Cache,
                    g: Term)
    requires Adds(b, a, Guarded([AssertedClause(f)] + DefsOf(defs), g))
    requires f in TopConjuncts(fla) && !Cached(asserted, f, g)
    requires if Direct(f) then defs == [] else DefinesNew(defs, f, cache, g)
    ensures AddsOnlyNew(b, a, fla, asserted, cache, Caching(cache, defs, g), g)
  {
    hide Adds, Guarded, TopConjuncts, NestedRoot, Opened, DefClauses, AssertedClause, Direct, DefsOf;
    var cs, cache' := [AssertedClause(f)] + DefsOf(defs), Caching(cache, defs, g);
    forall c | c in cs ensures NewConjunct(c, fla, asserted, g) || NewDefinition(c, cache, cache', g) {
      if c in DefsOf(defs) { DefinitionNew(c, defs, cache, g); }
    }
    assert OnlyNew(cs, fla, asserted, cache, cache', g);
  }

  lemma DefinitionNew(c: Clause, defs: seq<Term>, cache: Cache, g: Term)
    requires c in DefsOf(defs) && forall t :: t in defs ==> !Cached(cache, t, g)
    ensures NewDefinition(c, cache, Caching(cache, defs, g), g)
  {
    var t := DefinedBy(c, defs);
    assert (t, g) in Caching(cache, defs, g);
  }

  lemma {:induction false} DefinedBy(c: Clause, defs: seq<Term>) returns (t: Term)
    requires c in DefsOf(defs)
    ensures t in defs && c in DefClauses(t)
  {
    hide DefClauses;
    var n := |defs| - 1;
    if c in DefClauses(defs[n]) {
      t := defs[n];
    } else {
      t := DefinedBy(c, defs[..n]);
    }
  }

  /** Defining a nested root adds the missing definitions below it. */
  lemma RootNew(b: Snapshot, a: Snapshot, defs: seq<Term>, r: Term, fla: Term, asserted: Cache, cache: Cache, g: Term)
    requires Adds(b, a, Guarded(DefsOf(defs), g)) && NestedRoot(fla, r) && DefinesNew(defs, r, cache, g)
    ensures AddsOnlyNew(b, a, fla, asserted, cache, Caching(cache, defs, g), g)
  {
    hide Adds, Guarded, TopConjuncts, NestedRoot, Opened, DefClauses, AssertedClause, Direct, DefsOf;
    forall c | c in DefsOf(defs) ensures NewDefinition(c, cache, Caching(cache, defs, g), g) {
      DefinitionNew(c, defs, cache, g);
    }
    assert OnlyNew(DefsOf(defs), fla, asserted, cache, Caching(cache, defs, g), g);
  }

  /** The cache of asserted conjuncts has grown by conjuncts of the formula alone. */
  ghost predicate OnlyConjuncts(asserted: Cache, asserted': Cache, fla: Term, g: Term) {
    asserted <= asserted' && forall f, h :: (f, h) in asserted' && (f, h) !in asserted ==>
      h == g && f in TopConjuncts(fla) && !Cached(asserted, f, g)
  }

  lemma NoConjuncts(asserted: Cache, fla: Term, g: Term)
    ensures OnlyConjuncts(asserted, asserted, fla, g)
  {
  }

  lemma ConjunctsGrow(asserted: Cache, asserted': Cache, fla: Term, g: Term)
    requires OnlyConjuncts(asserted, asserted', fla, g)
    ensures asserted <= asserted'
  {
  }

  lemma OnlyConjunctsOn(asserted: Cache, mid: Cache, fla: Term, f: Term, g: Term)
    requires OnlyConjuncts(asserted, mid, fla, g) && f in TopConjuncts(fla) && !Cached(mid, f, g)
    ensures OnlyConjuncts(asserted, mid + {(f, g)}, fla, g) && asserted <= mid
  {
    hide TopConjuncts;
  }

  lemma AllBoolPush(ts: seq<Term>, t: Term)
    requires AllBool(ts) && WellFormed(t) && IsBool(t)
    ensures AllBool(ts + [t])
  {
  }

  lemma CachingPush(cache: Cache, ts: seq<Term>, t: Term, g: Term)
    ensures Caching(cache, ts, g) + {(t, g)} == Caching(cache, ts + [t], g)
  {
  }

  lemma CnfizingQueue(term: Term, t: Term)
    requires t in Subterms(term) && WellFormed(t) && IsBool(t)
    ensures forall q :: q in Args(t) && Connective(t) ==> WellFormed(q) && IsBool(q) && q in Subterms(term)
  {
    SubtermsNested(term, t);
    forall q | q in Args(t) && Connective(t) ensures WellFormed(q) && IsBool(q) && q in Subterms(term) {
      var i :| 0 <= i < |Args(t)| && Args(t)[i] == q;
      ArgBool(t, i);
      assert q in Subterms(Args(t)[i]);
    }
  }

  lemma CnfizingClosed(cache: Cache, g: Term, queue: seq<Term>)
    requires CacheClosed(cache, g, queue) && queue != []
    ensures var t := queue[|queue| - 1];
            CacheClosed(cache + {(t, g)}, g,
                        queue[..|queue| - 1] + if Connective(t) || Args(t) == [] then Args(t) else [])
  {
    hide Connective, Args;
    var t := queue[|queue| - 1];
    var cache', more := cache + {(t, g)}, queue[..|queue| - 1] + if Connective(t) || Args(t) == [] then Args(t) else [];
    forall u, h | (u, h) in cache' && Connective(u) ensures ArgsKnown(cache', u, h, g, more) {
      if (u, h) in cache {
        assert ArgsKnown(cache, u, h, g, queue);
        assert forall q :: q in queue ==> q in more || q == t;
      }
    }
  }

  lemma CnfizingDone(cache0: Cache, cache: Cache, defs: seq<Term>, g: Term, term: Term)
    requires Cnfizing(cache0, cache, defs, g, [], term)
    ensures cache == Caching(cache0, defs, g) && AllBool(defs) && CacheClosed(cache, g, []) && Cached(cache, term, g)
  {
  }

  lemma KeptGrowsBoth(b: Snapshot, a: Snapshot, cs: seq<Clause>, cache: Cache, asserted: Cache, dead: set<Term>)
    requires Adds(b, a, cs) && CachesKept(b.meaning, cache, asserted, dead)
    ensures CachesKept(a.meaning, cache, asserted, dead)
  {
    KeptGrows(b, a, cs, cache, asserted, dead, dead);
  }
}
