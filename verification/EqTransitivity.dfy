/**
 Diamonds of equalities: if one of two paths of two equalities holds and both have the same
 ends, the ends are equal. A formula is strengthened by the implications that say so.
 */
module EqTransitivity {
  import opened Sequences
  import opened Terms
  import opened Facts

  /** An equality of the two terms, either way round. */
  ghost predicate Equates(t: Term, a: Term, b: Term) {
    t == Eq(a, b) || t == Eq(b, a)
  }

  /** A conjunction that begins with an equality of x and w and one of w and z. */
  ghost predicate Path(t: Term, x: Term, w: Term, z: Term) {
    t.And? && |t.args| >= 2 && Equates(t.args[0], x, w) && Equates(t.args[1], w, z)
  }

  ghost predicate Leads(t: Term, x: Term, z: Term) {
    exists w :: Path(t, x, w, z)
  }

  /** A disjunction of a path from x to z and one between the same terms in either direction. */
  ghost predicate Diamond(t: Term, x: Term, z: Term) {
    t.Or? && |t.args| == 2 && Leads(t.args[0], x, z) && (Leads(t.args[1], x, z) || Leads(t.args[1], z, x))
  }

  function Learnt(t: Term, x: Term, z: Term, rank: Order): Term {
    MkImpl(t, MkEq(x, z, rank), rank)
  }

  /** The implications are those of diamonds in the set, of all that have different ends. */
  ghost predicate Learned(ts: set<Term>, rank: Order, impls: seq<Term>) {
    && (forall l :: l in impls ==> exists t, x, z :: t in ts && Diamond(t, x, z) && l == Learnt(t, x, z, rank))
    && (forall t, x, z :: t in ts && Diamond(t, x, z) && x != z ==> Learnt(t, x, z, rank) in impls)
  }

  // ---------- what is learnt holds ----------

  /** Two terms of one sort with variables of the term, equal wherever the term holds. */
  ghost predicate EqualUnder(t: Term, x: Term, z: Term, m: Model) {
    && WellFormed(x) && WellFormed(z) && SortOf(x) == SortOf(z) && Vars(x) + Vars(z) <= Vars(t)
    && (Holds(t, m) ==> Eval(x, m) == Eval(z, m))
  }

  lemma EquatesMeaning(t: Term, a: Term, b: Term, m: Model)
    requires WellFormed(t) && Equates(t, a, b)
    ensures EqualUnder(t, a, b, m)
  {
    hide WellFormed, Vars;
    ArgOf(t, 0);
    ArgOf(t, 1);
    assert Args(t) == [t.lhs, t.rhs];
  }

  lemma ArgOf(t: Term, i: nat)
    requires WellFormed(t) && i < |Args(t)|
    ensures WellFormed(Args(t)[i]) && Vars(Args(t)[i]) <= Vars(t)
    ensures t.Eq? ==> SortOf(t.lhs) == SortOf(t.rhs)
  {
    VarsArgSubset(t, i);
    hide Vars;
  }

  lemma PathMeaning(t: Term, x: Term, w: Term, z: Term, m: Model)
    requires WellFormed(t) && Path(t, x, w, z)
    ensures EqualUnder(t, x, z, m)
  {
    var p, q := Args(t)[0], Args(t)[1];
    ArgOf(t, 0);
    ArgOf(t, 1);
    EquatesMeaning(p, x, w, m);
    EquatesMeaning(q, w, z, m);
    assert Holds(t, m) ==> Holds(p, m) && Holds(q, m);
    hide WellFormed, Vars, Eval, Path;
  }

  lemma DiamondMeaning(t: Term, x: Term, z: Term, m: Model)
    requires WellFormed(t) && Diamond(t, x, z)
    ensures EqualUnder(t, x, z, m)
  {
    hide Diamond, Leads, WellFormed, Vars, Eval;
    DiamondParts(t, x, z, m);
    var a, b := t.args[0], t.args[1];
    LeadsMeaning(a, x, z, m);
    if Leads(b, x, z) { LeadsMeaning(b, x, z, m); } else { LeadsMeaning(b, z, x, m); }
  }

  lemma DiamondParts(t: Term, x: Term, z: Term, m: Model)
    requires WellFormed(t) && Diamond(t, x, z)
    ensures t.Or? && |t.args| == 2 && WellFormed(t.args[0]) && WellFormed(t.args[1]) && Vars(t.args[0]) <= Vars(t)
    ensures Leads(t.args[0], x, z) && (Leads(t.args[1], x, z) || Leads(t.args[1], z, x))
    ensures Holds(t, m) ==> Holds(t.args[0], m) || Holds(t.args[1], m)
  {
    hide Leads, WellFormed, Vars;
    assert Args(t) == t.args;
    ArgOf(t, 0);
    ArgOf(t, 1);
  }

  lemma LeadsMeaning(t: Term, x: Term, z: Term, m: Model)
    requires WellFormed(t) && Leads(t, x, z)
    ensures EqualUnder(t, x, z, m)
  {
    var w :| Path(t, x, w, z);
    hide *;
    PathMeaning(t, x, w, z, m);
  }

  lemma LearntMeaning(t: Term, x: Term, z: Term, rank: Order, m: Model)
    requires WellFormed(t) && Diamond(t, x, z)
    ensures Simplifies(Learnt(t, x, z, rank), Vars(t), Bool) && Holds(Learnt(t, x, z, rank), m)
  {
    assert t.Or?;
    hide WellFormed, Diamond, Vars, MkEq, MkImpl;
    DiamondMeaning(t, x, z, m);
    MkEqMeaning(x, z, rank, m);
    MkImplMeaning(t, MkEq(x, z, rank), rank, m);
  }

  /** The conjunction of what is learnt from a formula holds in every model. */
  lemma LearnedMeaning(formula: Term, rank: Order, impls: seq<Term>, m: Model)
    requires WellFormed(formula) && Learned(Subterms(formula), rank, impls)
    ensures AllBool(impls)
    ensures Simplifies(MkAnd(impls, rank), Vars(formula), Bool) && Holds(MkAnd(impls, rank), m)
  {
    forall i | 0 <= i < |impls| ensures Simplifies(impls[i], Vars(formula), Bool) && Holds(impls[i], m) {
      assert impls[i] in impls;
      var t, x, z :| t in Subterms(formula) && Diamond(t, x, z) && impls[i] == Learnt(t, x, z, rank);
      hide Learned, WellFormed, MkAnd, Eval, Vars, Subterms, Diamond, Learnt;
      SubtermsNested(formula, t);
      LearntMeaning(t, x, z, rank, m);
    }
    hide Learned, WellFormed, MkAnd, Eval, Vars;
    MkAndMeaning(impls, rank, m);
  }

  /**
   What the conjunction is for: truth values that only follow the connectives, and know
   nothing of equality, make the ends of a diamond equal as soon as the diamond is true.
   */
  lemma DiamondForced(formula: Term, rank: Order, impls: seq<Term>, e: Truth, t: Term, x: Term, z: Term)
    requires WellFormed(formula) && Learned(Subterms(formula), rank, impls) && Respects(e)
    requires forall us :: AllBool(us) && |us| >= 2 ==> e(And(us)) == EachTrue(us, e) && e(Or(us)) == OneTrue(us, e)
    requires t in Subterms(formula) && Diamond(t, x, z) && x != z && e(t) && e(MkAnd(impls, rank))
    ensures e(MkEq(x, z, rank))
  {
    LearnedMeaning(formula, rank, impls, AnyModel);
    MkAndTruth(impls, rank, e);
    var l := Learnt(t, x, z, rank);
    var i :| 0 <= i < |impls| && impls[i] == l;
    assert e(l);
    SubtermsNested(formula, t);
    ForcedBy(t, x, z, rank, e);
  }

  lemma ImpliedBy(t: Term, u: Term, rank: Order, e: Truth)
    requires WellFormed(t) && t.Or? && WellFormed(u) && IsBool(u) && Respects(e) && e(t) && e(MkImpl(t, u, rank))
    requires forall us :: AllBool(us) && |us| >= 2 ==> e(Or(us)) == OneTrue(us, e)
    ensures e(u)
  {
    hide MkOr;
    if u != True {
      var ts := [Not(t), u];
      assert AllBool(ts) && MkImpl(t, u, rank) == MkOr(ts, rank);
      MkOrTruth(ts, rank, e);
      hide AllBool, WellFormed, MkImpl;
      assert ts[0] == Not(t) && ts[1] == u;
    }
  }

  lemma ForcedBy(t: Term, x: Term, z: Term, rank: Order, e: Truth)
    requires WellFormed(t) && Diamond(t, x, z) && Respects(e) && e(t) && e(Learnt(t, x, z, rank))
    requires forall us :: AllBool(us) && |us| >= 2 ==> e(Or(us)) == OneTrue(us, e)
    ensures e(MkEq(x, z, rank))
  {
    hide Diamond, Leads, WellFormed, Vars, Eval, MkEq, MkImpl, Respects;
    DiamondParts(t, x, z, AnyModel);
    DiamondMeaning(t, x, z, AnyModel);
    MkEqMeaning(x, z, rank, AnyModel);
    ImpliedBy(t, MkEq(x, z, rank), rank, e);
  }

  // ---------- the search ----------

  /** The ends of a conjunction of two equalities with a common side. */
  method Ends(t: Term) returns (found: bool, x: Term, z: Term)
    requires BeginsEqual(t)
    ensures found ==> Leads(t, x, z)
    ensures forall a, b :: Leads(t, a, b) ==> found && (a != b ==> x == a && z == b)
  {
    var v1, v2 := t.args[0].lhs, t.args[0].rhs;
    var v3, v4 := t.args[1].lhs, t.args[1].rhs;
    found := v1 == v3 || v1 == v4 || v2 == v3 || v2 == v4;
    var w := if v1 == v3 || v1 == v4 then v1 else v2;
    x := if v1 == w then v2 else v1;
    z := if v3 == w then v4 else v3;
    assert found ==> Path(t, x, w, z);
  }

  lemma TwoConjuncts(t: Term)
    requires WellFormed(t) && t.Or? && |t.args| == 2 && t.args[0].And? && t.args[1].And?
    ensures |t.args[0].args| >= 2 && |t.args[1].args| >= 2
  {
    ArgOf(t, 0);
    ArgOf(t, 1);
  }

  lemma DiamondIs(t: Term)
    ensures forall x, z :: Diamond(t, x, z) <==>
              t.Or? && |t.args| == 2 && Leads(t.args[0], x, z) && (Leads(t.args[1], x, z) || Leads(t.args[1], z, x))
    ensures forall i, x, z :: t.Or? && 0 <= i < |t.args| && Leads(t.args[i], x, z) ==> BeginsEqual(t.args[i])
  {
  }

  /** The shape the search looks for on either side of a disjunction. */
  predicate BeginsEqual(t: Term) {
    t.And? && |t.args| >= 2 && t.args[0].Eq? && t.args[1].Eq?
  }

  /** The implication of a diamond. */
  method LearnFrom(tr: Term, rank: Order, impls0: seq<Term>) returns (impls: seq<Term>)
    requires WellFormed(tr)
    ensures impls == impls0 || exists x, z :: Diamond(tr, x, z) && impls == impls0 + [Learnt(tr, x, z, rank)]
    ensures forall x, z :: Diamond(tr, x, z) && x != z ==> impls == impls0 + [Learnt(tr, x, z, rank)]
  {
    hide Diamond, Leads, WellFormed, MkEq, MkImpl;
    impls := impls0;
    DiamondIs(tr);
    if tr.Or? && |tr.args| == 2 && tr.args[0].And? && tr.args[1].And? {
      var a, b := tr.args[0], tr.args[1];
      TwoConjuncts(tr);
      if a.args[0].Eq? && a.args[1].Eq? && b.args[0].Eq? && b.args[1].Eq? {
        var cond2a, x1, z1 := Ends(a);
        var cond2b, x2, z2 := Ends(b);
        if cond2a && cond2b && ((x1 == x2 && z1 == z2) || (x1 == z2 && x2 == z1)) {
          var eq := MkEq(x1, z1, rank);
          impls := impls + [MkImpl(tr, eq, rank)];
          assert impls == impls0 + [Learnt(tr, x1, z1, rank)];
        }
      }
    }
  }

  lemma LearnedMore(ts: set<Term>, rank: Order, impls0: seq<Term>, tr: Term, impls: seq<Term>)
    requires Learned(ts, rank, impls0)
    requires impls == impls0 || exists x, z :: Diamond(tr, x, z) && impls == impls0 + [Learnt(tr, x, z, rank)]
    requires forall x, z :: Diamond(tr, x, z) && x != z ==> impls == impls0 + [Learnt(tr, x, z, rank)]
    ensures Learned(ts + {tr}, rank, impls)
  {
    hide Diamond, Learnt;
    forall l | l in impls ensures exists t, x, z :: t in ts + {tr} && Diamond(t, x, z) && l == Learnt(t, x, z, rank) {
      if l in impls0 {
        var t, x, z :| t in ts && Diamond(t, x, z) && l == Learnt(t, x, z, rank);
        assert t in ts + {tr};
      } else {
        var x, z :| Diamond(tr, x, z) && impls == impls0 + [Learnt(tr, x, z, rank)];
        assert tr in ts + {tr} && l == Learnt(tr, x, z, rank);
      }
    }
  }

  /** The conjunction of the implications of all diamonds below a formula. */
  method LearnEqTransitivity(formula: Term, rank: Order) returns (trans: Term)
    requires WellFormed(formula) && IsBool(formula)
    ensures exists impls :: Learned(Subterms(formula), rank, impls) && trans == MkAnd(impls, rank)
    ensures Simplifies(trans, Vars(formula), Bool) && forall m: Model :: Holds(trans, m)
  {
    hide Learned, Searching, Searched, SearchRank, Subterms, Args, Size, WellFormed, Vars, Eval, MkAnd, Simplifies;
    var implications: seq<Term> := [];
    var processed: set<Term> := {};
    var queue := [formula];
    SearchStarts(formula);
    NothingLearnt(rank);
    while |queue| != 0
      invariant Searching(formula, queue, processed) && Learned(processed, rank, implications)
      decreases Subterms(formula) - processed, if TopOpen(queue, processed) then 0 else 1, SearchRank(queue, processed)
    {
      var tr := queue[|queue| - 1];
      FinishKeeps(formula, queue, processed);
      if tr in processed {
        PopRank(queue, processed);
        queue := queue[..|queue| - 1];
        continue;
      }
      var more := PushArgs(tr, processed, queue);
      if more != queue {
        PushKeeps(formula, queue, more, processed);
        PushRank(queue, more, processed);
        queue := more;
        continue;
      }
      queue := queue[..|queue| - 1];
      SubtermsNested(formula, tr);
      var impls := LearnFrom(tr, rank, implications);
      LearnedMore(processed, rank, implications, tr, impls);
      implications := impls;
      processed := processed + {tr};
    }
    SearchEnds(formula, processed);
    LearnedMeaning(formula, rank, implications, AnyModel);
    forall m: Model ensures Holds(MkAnd(implications, rank), m) {
      LearnedMeaning(formula, rank, implications, m);
    }
    if |implications| > 0 {
      trans := MkAnd(implications, rank);
    } else {
      trans := True;
    }
  }

  lemma NothingLearnt(rank: Order)
    ensures Learned({}, rank, []) && MkAnd([], rank) == True
  {
    assert SortSigned([], rank) == [];
    assert Compact([], None, False, True) == Kept([]);
  }
}
