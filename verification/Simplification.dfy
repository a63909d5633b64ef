/**
 Substitution-based simplification of a formula: facts are turned into substitutions and
 applied until the formula no longer changes.
 */
module Simplification {
  import opened Terms
  import opened Substitution
  import opened Facts

  datatype SubstitutionResult = SubstitutionResult(usedSubstitution: SubstMap, result: Term)

  /** The facts as a list of signed terms, in the order of the keys. */
  function Units(facts: FactMap): (r: seq<PtAsgn>)
    requires forall k :: k in facts.keys <==> k in facts.m
    ensures |r| == |facts.keys|
    ensures forall f :: f in r ==> IsFact(facts, f)
  {
    seq(|facts.keys|, i requires 0 <= i < |facts.keys| => PtAsgn(facts.keys[i], facts.m[facts.keys[i]]))
  }

  /** Substitutions offered by the facts of a formula: its variables only, and entailed by it. */
  ghost predicate Entailed(root: Term, m: map<Term, Term>) {
    && GoodSubst(m) && m.Keys <= Vars(root) && (forall k :: k in m ==> Vars(m[k]) <= Vars(root))
    && (forall mod: Model :: Holds(root, mod) ==> Equations(m, mod))
  }

  lemma OffersEntailed(root: Term, facts: FactMap, all: map<Term, Term>, m: map<Term, Term>, rank: Order)
    requires WellFormed(root) && IsBool(root) && FactsOf(facts, Pure(root), rank)
    requires FirstOffers(all, Units(facts)) && forall k :: k in m ==> k in all && m[k] == all[k]
    ensures Entailed(root, m)
  {
    hide Eval, Vars, SortOf, WellFormed, FactsOf, FirstOffers, Pure, IsBool;
    forall k | k in m
      ensures k.Var? && WellFormed(m[k]) && SortOf(m[k]) == SortOf(k) && k in Vars(root) && Vars(m[k]) <= Vars(root)
      ensures forall mod: Model :: Holds(root, mod) ==> Eval(k, mod) == Eval(m[k], mod)
    {
      KeyEntailed(root, facts, all, k, rank);
    }
  }

  lemma KeyEntailed(root: Term, facts: FactMap, all: map<Term, Term>, k: Term, rank: Order)
    requires WellFormed(root) && IsBool(root) && FactsOf(facts, Pure(root), rank)
    requires FirstOffers(all, Units(facts)) && k in all
    ensures k.Var? && WellFormed(all[k]) && SortOf(all[k]) == SortOf(k) && k in Vars(root)
      && Vars(all[k]) <= Vars(root)
    ensures forall mod: Model :: Holds(root, mod) ==> Eval(k, mod) == Eval(all[k], mod)
  {
    var fs := Units(facts);
    hide Eval, Vars, SortOf, WellFormed, Pure, IsBool;
    var i :| FirstOffer(fs, i, k, all[k]);
    OfferHolds(root, facts, fs[i], rank);
  }

  lemma OfferHolds(root: Term, facts: FactMap, f: PtAsgn, rank: Order)
    requires WellFormed(root) && IsBool(root) && FactsOf(facts, Pure(root), rank)
    requires IsFact(facts, f) && Offer(f).Some?
    ensures var (x, t) := Offer(f).value;
            && x.Var? && WellFormed(t) && SortOf(t) == SortOf(x) && x in Vars(root) && Vars(t) <= Vars(root)
            && forall mod: Model :: Holds(root, mod) ==> Eval(x, mod) == Eval(t, mod)
  {
    var (x, t) := Offer(f).value;
    FactsHold(root, facts, f, rank, AnyModel);
    OfferMeaning(f, AnyModel);
    forall mod: Model | Holds(root, mod) ensures Eval(x, mod) == Eval(t, mod) {
      FactsHold(root, facts, f, rank, mod);
      OfferMeaning(f, mod);
    }
  }

  lemma UnitsLiteral(root: Term, facts: FactMap, rank: Order)
    requires WellFormed(root) && IsBool(root) && FactsOf(facts, Pure(root), rank)
    ensures forall f :: f in Units(facts) ==> Literal(f)
  {
    forall f | f in Units(facts) ensures Literal(f) {
      FactsHold(root, facts, f, rank, AnyModel);
    }
  }

  /** The facts of a map never clash. */
  lemma UnitsAgree(facts: FactMap)
    requires forall k :: k in facts.keys <==> k in facts.m
    ensures !Clash(Units(facts), |Units(facts)|)
  {
    forall i, j | 0 <= i < j < |Units(facts)| && Units(facts)[i].tr == Units(facts)[j].tr
      ensures Units(facts)[i].sgn == Units(facts)[j].sgn
    {
    }
  }

  lemma UnitsAll(facts: FactMap, f: PtAsgn)
    requires (forall k :: k in facts.keys <==> k in facts.m) && IsFact(facts, f)
    ensures f in Units(facts)
  {
    var i :| 0 <= i < |facts.keys| && facts.keys[i] == f.tr;
    assert Units(facts)[i] == f;
  }

  // ---------- nothing left to substitute ----------

  /** An equality of these sides cannot be solved for one of them. */
  predicate Tied(a: Term, b: Term) {
    (a.Var? ==> a in Vars(b)) && (b.Var? ==> b in Vars(a))
  }

  /**
   No conjunct is a Boolean variable of either sign, an equality with a variable on one side
   that does not occur on the other, or an exclusive or that amounts to such an equality.
   */
  ghost predicate Irreducible(root: Term) {
    forall c :: c in Conjuncts(Pure(root)) ==> Unsolvable(c)
  }

  predicate Unsolvable(c: PtAsgn) {
    && !c.tr.Var?
    && (c.tr.Eq? && c.sgn ==> Tied(c.tr.lhs, c.tr.rhs))
    && (c.tr.Xor? && c.sgn ==> Tied(c.tr.lhs, MkNot(c.tr.rhs)))
  }

  /** No fact of the formula offers a substitution. */
  ghost predicate Exhausted(root: Term, rank: Order) {
    forall c :: c in Conjuncts(Pure(root)) && FactOf(c, rank).Some? ==> Offer(FactOf(c, rank).value).None?
  }

  lemma NoOfferTied(a: Term, b: Term)
    requires Offer(PtAsgn(Eq(a, b), true)).None?
    ensures Tied(a, b)
  {
    if a.Var? { VarIsSubterm(b, a); }
    if b.Var? { VarIsSubterm(a, b); }
  }

  /** The equality that a true exclusive or amounts to keeps both sides. */
  lemma XorFact(a: Term, b: Term, rank: Order)
    requires WellFormed(Xor(a, b))
    ensures MkEq(a, MkNot(b), rank) == Eq(a, MkNot(b))
  {
    assert Args(Xor(a, b)) == [a, b];
    assert WellFormed(Args(Xor(a, b))[1]);
  }

  lemma NoOfferUnsolvable(c: PtAsgn, rank: Order)
    requires Literal(c) && (FactOf(c, rank).Some? ==> Offer(FactOf(c, rank).value).None?)
    ensures Unsolvable(c)
  {
    if c.tr.Eq? && c.sgn { NoOfferTied(c.tr.lhs, c.tr.rhs); }
    if c.tr.Xor? && c.sgn {
      XorFact(c.tr.lhs, c.tr.rhs, rank);
      NoOfferTied(c.tr.lhs, MkNot(c.tr.rhs));
    }
  }

  /** A formula whose facts offer nothing has no conjunct that can be solved, by its shape. */
  lemma ExhaustedIrreducible(root: Term, rank: Order)
    requires WellFormed(root) && IsBool(root) && Exhausted(root, rank)
    ensures Irreducible(root)
  {
    PureMeaning(root, AnyModel);
    forall c | c in Conjuncts(Pure(root)) ensures Unsolvable(c) {
      ConjunctsLiteral(Pure(root), c);
      NoOfferUnsolvable(c, rank);
    }
  }

  lemma NoneShares(all: map<Term, Term>, m: map<Term, Term>)
    requires m == map[] && forall k :: k in all && k !in m ==> LoopBreaker.SharesLoop(all, m, k)
    ensures forall k :: k !in all
  {
  }

  /** If all offers are gone and none was on a loop with a key that stayed, there was none. */
  lemma NothingOffered(root: Term, facts: FactMap, all: map<Term, Term>, m: map<Term, Term>, rank: Order)
    requires WellFormed(root) && IsBool(root) && FactsOf(facts, Pure(root), rank)
    requires FirstOffers(all, Units(facts)) && m == map[]
    requires forall k :: k in all && k !in m ==> LoopBreaker.SharesLoop(all, m, k)
    ensures Exhausted(root, rank)
  {
    PureMeaning(root, AnyModel);
    NoneShares(all, m);
    forall c | c in Conjuncts(Pure(root)) && FactOf(c, rank).Some? ensures Offer(FactOf(c, rank).value).None? {
      var f := FactOf(c, rank).value;
      ConjunctsLiteral(Pure(root), c);
      assert Given(f, Conjuncts(Pure(root)), rank) && IsFact(facts, f);
      UnitsAll(facts, f);
      if Offer(f).Some? {
        var (x, t) := Offer(f).value;
        var i :| 0 <= i < |Units(facts)| && Units(facts)[i] == f;
        assert Offers(Units(facts)[i], x, t) && OfferedBefore(Units(facts), |Units(facts)|, x);
      }
    }
  }

  /** New substitutions for a formula, closed and entailed by it. */
  ghost predicate NewSubsts(root: Term, s: SubstMap, depth: map<Term, nat>) {
    && ValidMap(s) && Closed(s.m) && Ranked(s.m, depth) && Entailed(root, s.m)
  }

  lemma ClosureEntailed(root: Term, s: SubstMap, s0: SubstMap, depth: map<Term, nat>)
    requires Entailed(root, s0.m) && Closing(s, s0, depth, Vars(root)) && Closed(s.m)
    ensures NewSubsts(root, s, depth)
  {
    forall mod: Model | Holds(root, mod) ensures Equations(s.m, mod) {
      assert Equations(s0.m, mod);
    }
  }

  /** One round up to the rewriting: the closed substitutions of the current formula. */
  method FindSubstitutions(root: Term, rank: Order)
    returns (sat: bool, s: SubstMap, ghost depth: map<Term, nat>)
    requires WellFormed(root) && IsBool(root)
    ensures sat ==> NewSubsts(root, s, depth)
    ensures sat && s.m == map[] ==> Exhausted(root, rank)
    ensures !sat ==> forall mod: Model :: !Holds(root, mod)
  {
    hide Closing, Closed, NewSubsts, Entailed, Equations, Ranked, Literal, FirstOffers, Clash, Exhausted;
    hide LoopBreaker.SharesLoop, LoopBreaker.InLoop;
    var facts;
    ghost var seen;
    sat, facts, seen := GetNewFacts(root, rank);
    if !sat {
      s, depth := EmptySubst, map[];
      return;
    }
    UnitsLiteral(root, facts, rank);
    UnitsAgree(facts);
    var ok, open;
    ghost var all;
    ok, open, all, depth := RetrieveSubstitutions(Units(facts));
    OffersEntailed(root, facts, all, open.m, rank);
    ClosingStarts(root, open, depth);
    s := TransitiveClosure(open, rank, depth, Vars(root));
    ClosureEntailed(root, s, open, depth);
    if s.m == map[] {
      ClosingKeys(s, open, depth, Vars(root));
      NothingOffered(root, facts, all, open.m, rank);
    }
  }

  lemma ClosingKeys(s: SubstMap, s0: SubstMap, depth: map<Term, nat>, xs: set<Term>)
    requires Closing(s, s0, depth, xs) && s.m == map[]
    ensures s0.m == map[]
  {
    assert s0.m.Keys == {};
  }

  lemma ClosingStarts(root: Term, s: SubstMap, depth: map<Term, nat>)
    requires ValidMap(s) && Ranked(s.m, depth) && Entailed(root, s.m)
    ensures Closing(s, s, depth, Vars(root))
  {
  }

  // ---------- the loop ----------

  /** What has been eliminated so far, and the formula left, together say what the input says. */
  ghost predicate Simplified(fla: Term, all: SubstMap, root: Term, depth: map<Term, nat>) {
    && WellFormed(root) && IsBool(root) && Vars(root) <= Vars(fla) && Vars(root) !! all.m.Keys
    && ValidMap(all) && GoodSubst(all.m) && Ranked(all.m, depth)
    && (forall k :: k in all.m ==> k in Vars(fla) && Vars(all.m[k]) <= Vars(fla))
    && (forall mod: Model :: Holds(fla, mod) <==> Holds(root, mod) && Equations(all.m, mod))
  }

  function Merge(all: SubstMap, s: SubstMap): SubstMap {
    SubstMap(all.keys + s.keys, all.m + s.m)
  }

  /** The new keys rank below all earlier ones. */
  ghost function MergedDepth(all: SubstMap, s: SubstMap, depth: map<Term, nat>): map<Term, nat>
    requires forall k :: k in all.m ==> k in depth
  {
    map k | k in all.m.Keys + s.m.Keys :: if k in s.m then 0 else depth[k] + 1
  }

  lemma MergeValid(all: SubstMap, s: SubstMap)
    requires ValidMap(all) && ValidMap(s) && all.m.Keys !! s.m.Keys
    ensures ValidMap(Merge(all, s))
  {
    var r := Merge(all, s);
    forall i, j | 0 <= i < j < |r.keys| ensures r.keys[i] != r.keys[j] {
      if i < |all.keys| && j >= |all.keys| {
        assert r.keys[i] in all.keys && r.keys[j] in s.keys;
      }
    }
  }

  /** The targets of new keys contain neither new nor old keys. */
  lemma MergeRanked(all: SubstMap, s: SubstMap, depth: map<Term, nat>, vars: set<Term>)
    requires Ranked(all.m, depth) && Closed(s.m) && all.m.Keys !! s.m.Keys
    requires vars !! all.m.Keys && forall k :: k in s.m ==> Vars(s.m[k]) <= vars
    ensures Ranked(Merge(all, s).m, MergedDepth(all, s, depth))
  {
    hide Vars;
  }

  lemma MergeEquations(all: SubstMap, s: SubstMap, mod: Model)
    requires all.m.Keys !! s.m.Keys
    ensures Equations(Merge(all, s).m, mod) <==> Equations(all.m, mod) && Equations(s.m, mod)
  {
    hide Eval;
    var r := Merge(all, s).m;
    if Equations(r, mod) {
      forall k | k in s.m ensures Eval(k, mod) == Eval(s.m[k], mod) { assert k in r; }
      forall k | k in all.m ensures Eval(k, mod) == Eval(all.m[k], mod) { assert k in r; }
    }
  }

  /** Rewriting by entailed, closed substitutions removes their keys and keeps the meaning. */
  lemma RewriteRoot(root: Term, s: SubstMap, depth: map<Term, nat>, rank: Order)
    requires WellFormed(root) && IsBool(root) && NewSubsts(root, s, depth)
    ensures var r := Rewrite(root, s.m, rank);
            && WellFormed(r) && IsBool(r) && Vars(r) <= Vars(root) && Vars(r) !! s.m.Keys
            && (r != root ==> Vars(r) < Vars(root))
            && forall mod: Model :: Holds(root, mod) <==> Holds(r, mod) && Equations(s.m, mod)
  {
    RewriteRemoves(root, s, depth, rank);
    forall mod: Model ensures Holds(root, mod) <==> Holds(Rewrite(root, s.m, rank), mod) && Equations(s.m, mod) {
      if Equations(s.m, mod) { RewriteUnder(root, s.m, rank, mod); }
    }
  }

  /** A closed map has a flat ranking. */
  lemma ClosedFlat(t: Term, m: map<Term, Term>) returns (flat: map<Term, nat>)
    requires Closed(m)
    ensures Ranked(m, flat) && Below(t, m, flat, 1) && forall k :: k in flat ==> flat[k] == 0
  {
    flat := map k | k in m :: 0;
  }

  lemma RewriteUnder(t: Term, m: map<Term, Term>, rank: Order, mod: Model)
    requires WellFormed(t) && GoodSubst(m) && Closed(m) && Equations(m, mod)
    ensures Eval(Rewrite(t, m, rank), mod) == Eval(t, mod)
  {
    var flat := ClosedFlat(t, m);
    RewriteMeaning(t, m, rank, flat, 1, mod);
  }

  lemma RewriteRemoves(root: Term, s: SubstMap, depth: map<Term, nat>, rank: Order)
    requires WellFormed(root) && IsBool(root) && NewSubsts(root, s, depth)
    ensures var r := Rewrite(root, s.m, rank);
            && WellFormed(r) && IsBool(r) && Vars(r) <= Vars(root) && Vars(r) !! s.m.Keys
            && (r != root ==> Vars(r) < Vars(root))
  {
    var r := Rewrite(root, s.m, rank);
    var flat := ClosedFlat(root, s.m);
    RewriteShape(root, s.m, rank, flat, 1, Vars(root));
    RewriteChanges(root, s.m, rank, flat);
    forall v | v in Vars(r) ensures v !in s.m { assert Below(r, s.m, flat, 0); }
    if r != root {
      var x :| x in Vars(root) && x in s.m;
    }
  }

  /** A round of the loop keeps the invariant. */
  lemma RoundKeeps(fla: Term, all: SubstMap, root: Term, depth: map<Term, nat>, s: SubstMap, sdepth: map<Term, nat>,
                   rank: Order)
    requires Simplified(fla, all, root, depth) && NewSubsts(root, s, sdepth)
    ensures all.m.Keys !! s.m.Keys
    ensures Simplified(fla, Merge(all, s), Rewrite(root, s.m, rank), MergedDepth(all, s, depth))
  {
    hide GoodSubst, Ranked, Closed, ValidMap, Equations, Merge, MergedDepth, Rewrite;
    RewriteRoot(root, s, sdepth, rank);
    MergeValid(all, s);
    MergeRanked(all, s, depth, Vars(root));
    MergedShape(fla, all, root, depth, s, sdepth);
    MergeKeys(all, s);
    RoundMeaning(fla, all, root, depth, s, sdepth, rank);
  }

  lemma MergeKeys(all: SubstMap, s: SubstMap)
    ensures Merge(all, s).m.Keys == all.m.Keys + s.m.Keys
  {
  }

  lemma RoundMeaning(fla: Term, all: SubstMap, root: Term, depth: map<Term, nat>, s: SubstMap, sdepth: map<Term, nat>,
                     rank: Order)
    requires Simplified(fla, all, root, depth) && NewSubsts(root, s, sdepth) && all.m.Keys !! s.m.Keys
    ensures forall mod: Model ::
              Holds(fla, mod) <==> Holds(Rewrite(root, s.m, rank), mod) && Equations(Merge(all, s).m, mod)
  {
    hide GoodSubst, Ranked, Closed, ValidMap, Equations, Merge, Rewrite, Vars;
    forall mod: Model
      ensures Holds(fla, mod) <==> Holds(Rewrite(root, s.m, rank), mod) && Equations(Merge(all, s).m, mod)
    {
      RewriteRoot(root, s, sdepth, rank);
      MergeEquations(all, s, mod);
    }
  }

  lemma MergedShape(fla: Term, all: SubstMap, root: Term, depth: map<Term, nat>, s: SubstMap, sdepth: map<Term, nat>)
    requires Simplified(fla, all, root, depth) && NewSubsts(root, s, sdepth)
    ensures GoodSubst(Merge(all, s).m)
    ensures forall k :: k in Merge(all, s).m ==> k in Vars(fla) && Vars(Merge(all, s).m[k]) <= Vars(fla)
  {
    hide Ranked, Equations, Vars;
  }

  /** Remembers the substitutions whose key has none yet: under the invariant, all of them. */
  method Remember(all0: SubstMap, s: SubstMap) returns (all: SubstMap)
    requires ValidMap(all0) && ValidMap(s) && all0.m.Keys !! s.m.Keys
    ensures all == Merge(all0, s)
  {
    all := all0;
    for i := 0 to |s.keys|
      invariant all.keys == all0.keys + s.keys[..i]
      invariant forall k :: k in all.m <==> k in all0.m || k in s.keys[..i]
      invariant forall k :: k in all.m ==> all.m[k] == if k in s.m then s.m[k] else all0.m[k]
    {
      var key := s.keys[i];
      assert s.keys[..i + 1] == s.keys[..i] + [key] && key !in s.keys[..i] && key in s.m;
      if key !in all.m {
        all := Insert(all, key, s.m[key]);
      }
    }
    assert s.keys[..|s.keys|] == s.keys;
    assert all.m == all0.m + s.m;
  }

  /**
   Simplifies a formula to a fixpoint: no conjunct of the result can be solved for a variable.
   The eliminated variables do not occur in the result,
   the remembered map has no loop, and map and result together have exactly the models of
   the formula.
   */
  method ComputeSubstitutions(fla: Term, rank: Order)
    returns (sr: SubstitutionResult, ghost depth: map<Term, nat>)
    requires WellFormed(fla) && IsBool(fla)
    ensures Simplified(fla, sr.usedSubstitution, sr.result, depth)
    ensures Irreducible(sr.result)
    ensures Vars(sr.result) !! sr.usedSubstitution.m.Keys
    ensures forall k :: k in sr.usedSubstitution.m ==> !LoopBreaker.InLoop(sr.usedSubstitution.m, k)
    ensures forall mod: Model :: Holds(fla, mod) <==> Holds(sr.result, mod) && Equations(sr.usedSubstitution.m, mod)
  {
    hide *;
    sr, depth := Fixpoint(fla, rank);
    SimplifiedParts(fla, sr.usedSubstitution, sr.result, depth);
  }

  lemma SimplifiedParts(fla: Term, all: SubstMap, root: Term, depth: map<Term, nat>)
    requires Simplified(fla, all, root, depth)
    ensures Vars(root) !! all.m.Keys && forall k :: k in all.m ==> !LoopBreaker.InLoop(all.m, k)
    ensures forall mod: Model :: Holds(fla, mod) <==> Holds(root, mod) && Equations(all.m, mod)
  {
    hide LoopBreaker.InLoop, Eval, Equations;
    forall k | k in all.m ensures !LoopBreaker.InLoop(all.m, k) {
      LoopBreaker.RankedHasNoLoop(all.m, depth, k);
    }
  }

  /** The loop over the rounds. */
  method Fixpoint(fla: Term, rank: Order)
    returns (sr: SubstitutionResult, ghost depth: map<Term, nat>)
    requires WellFormed(fla) && IsBool(fla)
    ensures Simplified(fla, sr.usedSubstitution, sr.result, depth) && Irreducible(sr.result)
  {
    hide *;
    var root := fla;
    var all := EmptySubst;
    depth := map[];
    SimplifiedStarts(fla);
    var cont := true;
    while cont
      invariant Simplified(fla, all, root, depth) && (!cont ==> Irreducible(root))
      decreases Vars(root), cont
    {
      SimplifiedRoot(fla, all, root, depth);
      var sat, newsubsts;
      ghost var sdepth;
      sat, newsubsts, sdepth := FindSubstitutions(root, rank);
      if !sat {
        SimplifiedUnsat(fla, all, root, depth);
        FalseIrreducible();
        sr, depth := SubstitutionResult(EmptySubst, False), map[];
        return;
      }
      RoundKeeps(fla, all, root, depth, newsubsts, sdepth, rank);
      RewriteRemoves(root, newsubsts, sdepth, rank);
      NewSubstsValid(root, newsubsts, sdepth);
      ghost var before := all;
      all := Remember(all, newsubsts);
      depth := MergedDepth(before, newsubsts, depth);
      var newRoot := Rewrite(root, newsubsts.m, rank);
      cont := newRoot != root;
      if !cont { UnchangedIrreducible(root, newsubsts, sdepth, rank); }
      root := newRoot;
    }
    sr := SubstitutionResult(all, root);
  }

  lemma FalseIrreducible()
    ensures Irreducible(False)
  {
  }

  /** Rewriting that changes nothing had nothing to substitute. */
  lemma UnchangedIrreducible(root: Term, s: SubstMap, depth: map<Term, nat>, rank: Order)
    requires WellFormed(root) && IsBool(root) && NewSubsts(root, s, depth) && Rewrite(root, s.m, rank) == root
    requires s.m == map[] ==> Exhausted(root, rank)
    ensures Irreducible(root)
  {
    RewriteChanges(root, s.m, rank, depth);
    assert s.m.Keys == {};
    ExhaustedIrreducible(root, rank);
  }

  lemma SimplifiedStarts(fla: Term)
    requires WellFormed(fla) && IsBool(fla)
    ensures Simplified(fla, EmptySubst, fla, map[])
  {
  }

  lemma SimplifiedRoot(fla: Term, all: SubstMap, root: Term, depth: map<Term, nat>)
    requires Simplified(fla, all, root, depth)
    ensures WellFormed(root) && IsBool(root) && ValidMap(all) && forall k :: k in all.m ==> k in depth
  {
  }

  lemma NewSubstsValid(root: Term, s: SubstMap, depth: map<Term, nat>)
    requires NewSubsts(root, s, depth)
    ensures ValidMap(s)
  {
  }

  lemma SimplifiedUnsat(fla: Term, all: SubstMap, root: Term, depth: map<Term, nat>)
    requires Simplified(fla, all, root, depth) && forall mod: Model :: !Holds(root, mod)
    ensures Simplified(fla, EmptySubst, False, map[])
  {
    forall mod: Model ensures !Holds(fla, mod) && !Holds(False, mod) {
    }
  }

  // ---------- back to a formula ----------

  /** The equations of the first n keys, as the terms the source builds. */
  function EquationTerms(s: SubstMap, n: nat, rank: Order): (r: seq<Term>)
    requires n <= |s.keys| && forall k :: k in s.keys ==> k in s.m
    ensures |r| == n && forall i :: 0 <= i < n ==> r[i] == MkEq(s.keys[i], s.m[s.keys[i]], rank)
  {
    if n == 0 then [] else EquationTerms(s, n - 1, rank) + [MkEq(s.keys[n - 1], s.m[s.keys[n - 1]], rank)]
  }

  lemma EquationTermsMeaning(s: SubstMap, rank: Order, mod: Model)
    requires ValidMap(s) && GoodSubst(s.m)
    ensures AllBool(EquationTerms(s, |s.keys|, rank))
    ensures EachHolds(EquationTerms(s, |s.keys|, rank), mod) <==> Equations(s.m, mod)
  {
    var ts := EquationTerms(s, |s.keys|, rank);
    forall i | 0 <= i < |ts|
      ensures WellFormed(ts[i]) && IsBool(ts[i])
      ensures Holds(ts[i], mod) <==> Eval(s.keys[i], mod) == Eval(s.m[s.keys[i]], mod)
    {
      assert s.keys[i] in s.m;
      MkEqMeaning(s.keys[i], s.m[s.keys[i]], rank, mod);
    }
    if EachHolds(ts, mod) {
      forall k | k in s.m ensures Eval(k, mod) == Eval(s.m[k], mod) {
        var i :| 0 <= i < |s.keys| && s.keys[i] == k;
        assert Holds(ts[i], mod);
      }
    }
  }

  lemma EachHoldsAppend(ts: seq<Term>, t: Term, mod: Model)
    ensures EachHolds(ts + [t], mod) <==> EachHolds(ts, mod) && Holds(t, mod)
    ensures AllBool(ts + [t]) <==> AllBool(ts) && WellFormed(t) && IsBool(t)
  {
    var us := ts + [t];
    assert us[|ts|] == t && forall i :: 0 <= i < |ts| ==> us[i] == ts[i];
    if AllBool(us) {
      forall i | 0 <= i < |ts| ensures WellFormed(ts[i]) && IsBool(ts[i]) { assert us[i] == ts[i]; }
    }
    if EachHolds(us, mod) {
      forall i | 0 <= i < |ts| ensures Holds(ts[i], mod) { assert us[i] == ts[i]; }
    }
  }

  /** The conjunction of the equations of the map, in the order of the keys, and of the result. */
  function FormulaOf(sr: SubstitutionResult, rank: Order): Term
    requires forall k :: k in sr.usedSubstitution.keys ==> k in sr.usedSubstitution.m
  {
    MkAnd(EquationTerms(sr.usedSubstitution, |sr.usedSubstitution.keys|, rank) + [sr.result], rank)
  }

  /** The formula comes from a fixpoint of the simplification of the root. */
  ghost predicate Substituted(root: Term, fla: Term, rank: Order) {
    exists sr, depth :: SubstitutedBy(root, fla, sr, depth, rank)
  }

  ghost predicate SubstitutedBy(root: Term, fla: Term, sr: SubstitutionResult, depth: map<Term, nat>, rank: Order) {
    && Simplified(root, sr.usedSubstitution, sr.result, depth) && Irreducible(sr.result)
    && fla == FormulaOf(sr, rank)
  }

  /** The conjunction of the equations of the map and the result. */
  method FlaFromSubstitutionResult(sr: SubstitutionResult, rank: Order) returns (fla: Term)
    requires ValidMap(sr.usedSubstitution) && GoodSubst(sr.usedSubstitution.m) && WellFormed(sr.result)
      && IsBool(sr.result)
    ensures WellFormed(fla) && IsBool(fla) && fla == FormulaOf(sr, rank)
    ensures forall mod: Model :: Holds(fla, mod) <==> Holds(sr.result, mod) && Equations(sr.usedSubstitution.m, mod)
  {
    hide GoodSubst, Equations, WellFormed, AllBool;
    var s := sr.usedSubstitution;
    var args := [];
    for i := 0 to |s.keys|
      invariant args == EquationTerms(s, i, rank)
    {
      assert s.keys[i] in s.m;
      args := args + [MkEq(s.keys[i], s.m[s.keys[i]], rank)];
    }
    ghost var eqs := args;
    args := args + [sr.result];
    fla := MkAnd(args, rank);
    forall mod: Model
      ensures WellFormed(fla) && IsBool(fla)
      ensures Holds(fla, mod) <==> Holds(sr.result, mod) && Equations(s.m, mod)
    {
      EquationTermsMeaning(s, rank, mod);
      EachHoldsAppend(eqs, sr.result, mod);
      MkAndMeaning(args, rank, mod);
    }
    assert Simplifies(fla, VarsOfAll(args), Bool) by {
      EquationTermsMeaning(s, rank, AnyModel);
      EachHoldsAppend(eqs, sr.result, AnyModel);
      MkAndMeaning(args, rank, AnyModel);
    }
  }

  /**
   Simplification gives a formula with exactly the models of the input: the conjunction of the
   equations that were found and a result in which no conjunct can be solved for a variable.
   */
  method ApplySubstitutionBasedSimplification(root: Term, rank: Order) returns (fla: Term)
    requires WellFormed(root) && IsBool(root)
    ensures WellFormed(fla) && IsBool(fla) && Substituted(root, fla, rank)
    ensures forall mod: Model :: Holds(fla, mod) <==> Holds(root, mod)
  {
    hide GoodSubst, Equations, Ranked, Irreducible, Simplified, FormulaOf;
    ghost var depth;
    var sr;
    sr, depth := ComputeSubstitutions(root, rank);
    SimplifiedMap(root, sr.usedSubstitution, sr.result, depth);
    fla := FlaFromSubstitutionResult(sr, rank);
    assert SubstitutedBy(root, fla, sr, depth, rank);
  }

  lemma SimplifiedMap(fla: Term, all: SubstMap, root: Term, depth: map<Term, nat>)
    requires Simplified(fla, all, root, depth)
    ensures ValidMap(all) && GoodSubst(all.m) && WellFormed(root) && IsBool(root)
  {
  }
}
