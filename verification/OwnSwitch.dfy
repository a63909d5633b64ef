/**
 A formula that is the switch of its own ite. Conjoining the switches gives the formula back,
 so the elimination returns it unchanged, with the ite still in it.
 */
module OwnSwitch {
  import opened Sequences
  import opened Terms
  import opened Facts
  import opened IteDag
  import opened IteElimination
  import opened Pairs

  const COND := Var(User("c"), Bool)
  const FIRST := Var(User("a"), Uninterpreted(0))
  const SECOND := Var(User("b"), Uninterpreted(0))
  const CHOICE := Ite(COND, FIRST, SECOND)

  /** If c then the ite equals a. */
  function FirstCase(rank: Order): Term {
    MkImpl(COND, MkEq(CHOICE, FIRST, rank), rank)
  }

  /** If not c then the ite equals b. */
  function SecondCase(rank: Order): Term {
    MkImpl(Not(COND), MkEq(CHOICE, SECOND, rank), rank)
  }

  /** The formula: both cases hold. */
  function Formula(rank: Order): Term {
    MkAnd([FirstCase(rank), SecondCase(rank)], rank)
  }

  lemma OneKept(t: Term, rank: Order)
    requires t == COND || t == Not(COND)
    ensures MkOr([True], rank) == True
    ensures MkAnd([True, t], rank) == t && MkOr([t], rank) == t
  {
    var x := Signed(t);
    TwoSorted(True, t, rank);
    assert [True][1..] == [] && [t][1..] == [];
    assert SortSigned([t], rank) == [x] && SortSigned([True], rank) == [Signed(True)];
    assert [x][1..] == [] && [x, Signed(True)][1..] == [Signed(True)] && [Signed(True), x][1..] == [x];
    assert [Signed(True)][1..] == [];
    assert Compact([], Some(x), False, True) == Kept([]) && Compact([], Some(x), True, False) == Kept([]);
    assert [x] + [] == [x];
    assert Compact([x], None, False, True) == Kept([x]) && Compact([x], None, True, False) == Kept([x]);
    assert Compact([Signed(True)], Some(x), False, True) == Kept([]);
  }

  // ---------- the formula ----------

  /** What the equality of the ite with a branch becomes. */
  lemma Equation(v: Term, rank: Order)
    requires v == FIRST || v == SECOND
    ensures var q := MkEq(CHOICE, v, rank); q == Eq(CHOICE, v) || q == Eq(v, CHOICE)
    ensures var q := MkEq(CHOICE, v, rank); WellFormed(q) && IsBool(q)
  {
    ChoiceShape();
    MkEqMeaning(CHOICE, v, rank, AnyModel);
  }

  lemma ChoiceShape()
    ensures WellFormed(CHOICE) && WellFormed(COND) && WellFormed(Not(COND)) && WellFormed(FIRST) && WellFormed(SECOND)
  {
    assert Args(CHOICE) == [COND, FIRST, SECOND] && Args(Not(COND)) == [COND];
    assert WellFormed(COND) && WellFormed(FIRST) && WellFormed(SECOND);
  }

  /** The disjuncts of a case. */
  lemma CaseShape(c: Term, v: Term, rank: Order)
    requires c == COND || c == Not(COND)
    requires v == FIRST || v == SECOND
    ensures var (t, q) := (MkImpl(c, MkEq(CHOICE, v, rank), rank), MkEq(CHOICE, v, rank));
            WellFormed(t) && t.Or? && (t.args == [MkNot(c), q] || t.args == [q, MkNot(c)])
  {
    Equation(v, rank);
    ChoiceShape();
    hide MkEq, WellFormed, SortOf;
    CasePair(MkNot(c), MkEq(CHOICE, v, rank), rank);
  }

  lemma CasePair(c: Term, q: Term, rank: Order)
    requires c == COND || c == Not(COND)
    requires WellFormed(c) && WellFormed(q) && q.Eq?
    ensures var t := MkOr([c, q], rank); WellFormed(t) && t.Or? && (t.args == [c, q] || t.args == [q, c])
  {
    var ts := [c, q];
    assert AllBool(ts);
    hide WellFormed;
    TwoKept(c, q, rank);
    MkOrMeaning(ts, rank, AnyModel);
  }

  lemma FormulaShape(rank: Order)
    requires rank(FirstCase(rank)) != rank(SecondCase(rank))
    ensures var (x, y, f) := (FirstCase(rank), SecondCase(rank), Formula(rank));
            && f.And? && (f.args == [x, y] || f.args == [y, x])
            && WellFormed(f) && MkAnd([y, x], rank) == f
  {
    var x, y := FirstCase(rank), SecondCase(rank);
    CaseShape(COND, FIRST, rank);
    CaseShape(Not(COND), SECOND, rank);
    assert AllBool([x, y]) && AllBool([y, x]);
    TwoKept(x, y, rank);
    TwoKept(y, x, rank);
    MkAndMeaning([x, y], rank, AnyModel);
  }

  // ---------- its switch ----------

  lemma ChoiceBranches()
    ensures Branches(CHOICE) == {CHOICE, FIRST, SECOND}
  {
    assert Branches(FIRST) == {FIRST} && Branches(SECOND) == {SECOND};
  }

  /** In any dag of the ite, a branch has one way in. */
  lemma BranchParent(nodes: seq<DagNode>, nodeOf: map<Term, nat>, v: Term)
    requires SubDag(nodes, nodeOf, CHOICE) && (v == FIRST || v == SECOND)
    ensures v in nodeOf && CHOICE in nodeOf && nodes[nodeOf[CHOICE]].Inner? && nodes[nodeOf[CHOICE]].cond == COND
    ensures ParentsOf(nodes, nodeOf[v]) == [Parent(nodeOf[CHOICE], v == FIRST)]
    ensures ParentsOf(nodes, nodeOf[CHOICE]) == []
  {
    ChoiceBranches();
    var r, c := nodeOf[CHOICE], nodeOf[v];
    assert NodeOk(nodes, r) && NodeOk(nodes, c);
    var ps := [Parent(r, v == FIRST)];
    forall p: Parent ensures p in ps <==> IsParent(nodes, p, c) {
      if IsParent(nodes, p, c) {
        assert NodeOk(nodes, p.nr) && nodes[p.nr].term == CHOICE;
      }
    }
    ParentsListed(nodes, nodeOf, ps, c);
    RootParents(nodes, nodeOf, CHOICE, r);
  }

  /** The condition of a branch is the ite's condition or its negation. */
  lemma BranchCond(nodes: seq<DagNode>, nodeOf: map<Term, nat>, v: Term, rank: Order)
    requires SubDag(nodes, nodeOf, CHOICE) && (v == FIRST || v == SECOND)
    ensures v in nodeOf && PathCond(nodes, nodeOf[v], rank) == if v == FIRST then COND else Not(COND)
  {
    BranchParent(nodes, nodeOf, v);
    var r, c, t := nodeOf[CHOICE], nodeOf[v], if v == FIRST then COND else Not(COND);
    OneKept(t, rank);
    PathCondIs(nodes, r, rank);
    PathCondIs(nodes, c, rank);
    EdgeCondIs(nodes, Parent(r, v == FIRST), True, rank);
    assert EdgeConds(nodes, c, rank) == [t];
    hide *;
  }

  /** The cases of a switch of the ite, in either order. */
  lemma ChoiceSwitch(sw: Term, rank: Order)
    requires SwitchFor(sw, CHOICE, rank) && rank(FirstCase(rank)) != rank(SecondCase(rank))
    ensures sw == Formula(rank)
  {
    var nodes, nodeOf, leaves :| IsSwitch(sw, CHOICE, nodes, nodeOf, leaves, rank);
    BranchCond(nodes, nodeOf, FIRST, rank);
    BranchCond(nodes, nodeOf, SECOND, rank);
    ChoiceLeaves(nodes, nodeOf, leaves);
    FormulaShape(rank);
    ChoiceCases(nodes, nodeOf, leaves, rank);
  }

  lemma ChoiceCases(nodes: seq<DagNode>, nodeOf: map<Term, nat>, leaves: seq<nat>, rank: Order)
    requires (forall l :: l in leaves ==> l < |nodes|) && FIRST in nodeOf && SECOND in nodeOf
    requires nodeOf[FIRST] < |nodes| && nodes[nodeOf[FIRST]].term == FIRST
      && PathCond(nodes, nodeOf[FIRST], rank) == COND
    requires nodeOf[SECOND] < |nodes| && nodes[nodeOf[SECOND]].term == SECOND
      && PathCond(nodes, nodeOf[SECOND], rank) == Not(COND)
    requires leaves == [nodeOf[FIRST], nodeOf[SECOND]] || leaves == [nodeOf[SECOND], nodeOf[FIRST]]
    ensures var (ts, x, y) := (SwitchCases(CHOICE, CondValsFrom(nodes, leaves, 0, rank), rank), FirstCase(rank),
                               SecondCase(rank));
            ts == [x, y] || ts == [y, x]
  {
    hide PathCond, MkImpl, MkEq;
    CondValAt(nodes, leaves, 0, rank, 0);
    CondValAt(nodes, leaves, 0, rank, 1);
    hide CondValsFrom;
    var cvs := CondValsFrom(nodes, leaves, 0, rank);
    assert cvs == [cvs[0], cvs[1]];
  }

  lemma ChoiceLeaves(nodes: seq<DagNode>, nodeOf: map<Term, nat>, leaves: seq<nat>)
    requires SubDag(nodes, nodeOf, CHOICE)
    requires Ascending(leaves) && forall l: nat :: l in leaves <==> l < |nodes| && nodes[l].Leaf?
    ensures FIRST in nodeOf && SECOND in nodeOf
    ensures leaves == [nodeOf[FIRST], nodeOf[SECOND]] || leaves == [nodeOf[SECOND], nodeOf[FIRST]]
  {
    ChoiceBranches();
    var a, b := nodeOf[FIRST], nodeOf[SECOND];
    forall l: nat ensures l in leaves <==> l == a || l == b {
      assert NodeOk(nodes, a) && NodeOk(nodes, b);
      if l in leaves { assert NodeOk(nodes, l) && nodes[l].term in Branches(CHOICE); }
    }
    PairOf(leaves, a, b);
  }

  lemma PairOf(xs: seq<nat>, a: nat, b: nat)
    requires Ascending(xs) && a != b && forall x: nat :: x in xs <==> x == a || x == b
    ensures xs == [a, b] || xs == [b, a]
  {
    assert a in xs && b in xs;
    assert |xs| >= 2;
    assert xs[0] in xs && xs[1] in xs && xs[|xs| - 1] in xs;
  }

  // ---------- the elimination leaves it alone ----------

  lemma TwoSubterms(t: Term, a: Term, b: Term, u: Term)
    requires Args(t) == [a, b] || Args(t) == [b, a]
    ensures u in Subterms(t) <==> u == t || u in Subterms(a) || u in Subterms(b)
  {
    var ts := Args(t);
    SubtermsOf(t, u);
    hide *;
    assert (ts[0] == a && ts[1] == b) || (ts[0] == b && ts[1] == a);
  }

  lemma SubtermsOf(t: Term, u: Term)
    ensures u in Subterms(t) <==> u == t || exists i :: 0 <= i < |Args(t)| && u in Subterms(Args(t)[i])
  {
    hide Args;
  }

  lemma ChoiceSubterms(u: Term)
    ensures u in Subterms(CHOICE) <==> u in {CHOICE, COND, FIRST, SECOND}
    ensures u in Subterms(COND) <==> u == COND
    ensures u in Subterms(Not(COND)) <==> u in {COND, Not(COND)}
    ensures u in Subterms(FIRST) <==> u == FIRST
    ensures u in Subterms(SECOND) <==> u == SECOND
  {
    var ts := [COND, FIRST, SECOND];
    assert Args(CHOICE) == ts && ts[0] == COND && ts[1] == FIRST && ts[2] == SECOND && Args(Not(COND)) == [COND];
    SubtermsOf(CHOICE, u);
    SubtermsOf(Not(COND), u);
    SubtermsOf(COND, u);
    SubtermsOf(FIRST, u);
    SubtermsOf(SECOND, u);
    assert Args(COND) == [] && Args(FIRST) == [] && Args(SECOND) == [] && Args(Not(COND))[0] == COND;
    hide Subterms, Args;
    if u in {COND, FIRST, SECOND} { assert u in Subterms(ts[0]) || u in Subterms(ts[1]) || u in Subterms(ts[2]); }
  }

  lemma CaseSubterms(c: Term, v: Term, rank: Order, u: Term)
    requires c == COND || c == Not(COND)
    requires v == FIRST || v == SECOND
    ensures var (t, q) := (MkImpl(c, MkEq(CHOICE, v, rank), rank), MkEq(CHOICE, v, rank));
            u in Subterms(t) <==> u in {t, q, CHOICE, COND, FIRST, SECOND, MkNot(c)}
    ensures Asks(MkEq(CHOICE, v, rank), CHOICE)
  {
    var q := MkEq(CHOICE, v, rank);
    CaseShape(c, v, rank);
    Equation(v, rank);
    EquationSubterms(v, q, u);
    NegatedSubterms(c, u);
    hide *;
    CaseArgs(MkImpl(c, q, rank));
    TwoSubterms(MkImpl(c, q, rank), MkNot(c), q, u);
  }

  lemma CaseArgs(t: Term)
    requires t.Or?
    ensures Args(t) == t.args
  {
  }

  lemma NegatedSubterms(c: Term, u: Term)
    requires c == COND || c == Not(COND)
    ensures u in Subterms(MkNot(c)) <==> u in {COND, MkNot(c)}
  {
    ChoiceSubterms(u);
  }

  lemma EquationSubterms(v: Term, q: Term, u: Term)
    requires v == FIRST || v == SECOND
    requires q == Eq(CHOICE, v) || q == Eq(v, CHOICE)
    ensures u in Subterms(q) <==> u in {q, CHOICE, COND, FIRST, SECOND}
    ensures Asks(q, CHOICE)
  {
    assert Args(Eq(CHOICE, v))[0] == CHOICE && Args(Eq(v, CHOICE))[1] == CHOICE;
    hide Subterms;
    ChoiceSubterms(u);
    TwoSubterms(q, CHOICE, v, u);
  }

  /** The only ite that gets a switch is the choice. */
  lemma OnlyTop(rank: Order, t: Term)
    requires rank(FirstCase(rank)) != rank(SecondCase(rank))
    ensures TopIte(Formula(rank), t) <==> t == CHOICE
  {
    var f, x, y, q := Formula(rank), FirstCase(rank), SecondCase(rank), MkEq(CHOICE, FIRST, rank);
    FormulaShape(rank);
    forall u ensures u in Subterms(f) && u.Ite? ==> u == CHOICE {
      TwoSubterms(f, x, y, u);
      CaseSubterms(COND, FIRST, rank, u);
      CaseSubterms(Not(COND), SECOND, rank, u);
      CaseShape(COND, FIRST, rank);
      CaseShape(Not(COND), SECOND, rank);
      Equation(FIRST, rank);
      Equation(SECOND, rank);
    }
    TwoSubterms(f, x, y, q);
    CaseSubterms(COND, FIRST, rank, q);
    assert q in Subterms(f) && Asks(q, CHOICE);
    TopsAreSubterms(f);
  }

  /**
   Conjoining the switches of the formula gives the formula, so the elimination returns it
   unchanged although it contains an ite. Distinct terms have distinct references.
   */
  lemma ConjoinedIsItself(rank: Order, switches: seq<Term>, tops: seq<Term>)
    requires rank(FirstCase(rank)) != rank(SecondCase(rank)) && AllSwitches(Formula(rank), switches, tops, rank)
    ensures Conjoined(Formula(rank), switches, rank) == MkAnd(switches, rank) == Formula(rank)
  {
    var f := Formula(rank);
    FormulaShape(rank);
    forall i | 0 <= i < |tops| ensures switches[i] == f {
      assert tops[i] in tops;
      OnlyTop(rank, tops[i]);
      ChoiceSwitch(switches[i], rank);
    }
    OnlyTop(rank, CHOICE);
    TopsAreSubterms(f);
    assert CHOICE in tops;
    hide *;
    SameConjoined(f, switches, rank);
  }

  lemma FormulaReady(rank: Order)
    requires rank(FirstCase(rank)) != rank(SecondCase(rank))
    ensures var f := Formula(rank); WellFormed(f) && IsBool(f) && NoAux(f) && !NoIte(f)
  {
    FormulaShape(rank);
    NoAuxHere(rank);
    OnlyTop(rank, CHOICE);
    TopsAreSubterms(Formula(rank));
    HasIte(Formula(rank), CHOICE);
  }

  lemma SameConjoined(f: Term, switches: seq<Term>, rank: Order)
    requires f.And? && switches != [] && forall i :: 0 <= i < |switches| ==> switches[i] == f
    ensures Conjoined(f, switches, rank) == MkAnd(switches, rank) == f
  {
    hide MkAnd;
    assert switches == seq(|switches|, _ => f);
    SameKept(|switches|, f, rank);
    assert [f, f] == seq(2, _ => f);
    SameKept(2, f, rank);
  }

  lemma NoAuxHere(rank: Order)
    ensures NoAux(Formula(rank))
  {
    hide *;
    CaseVarsHere(COND, FIRST, rank);
    CaseVarsHere(Not(COND), SECOND, rank);
    CasesAre(rank);
    PairVarsWithin(FirstCase(rank), SecondCase(rank), rank, {COND, FIRST, SECOND});
    NoAuxWithin(Formula(rank));
  }

  lemma CasesAre(rank: Order)
    ensures FirstCase(rank) == MkImpl(COND, MkEq(CHOICE, FIRST, rank), rank)
    ensures SecondCase(rank) == MkImpl(Not(COND), MkEq(CHOICE, SECOND, rank), rank)
    ensures Formula(rank) == MkAnd([FirstCase(rank), SecondCase(rank)], rank)
  {
  }

  lemma NoAuxWithin(t: Term)
    requires Vars(t) <= {COND, FIRST, SECOND}
    ensures NoAux(t)
  {
  }

  lemma CaseVarsHere(c: Term, v: Term, rank: Order)
    requires c == COND || c == Not(COND)
    requires v == FIRST || v == SECOND
    ensures var t := MkImpl(c, MkEq(CHOICE, v, rank), rank);
            WellFormed(t) && IsBool(t) && Vars(t) <= {COND, FIRST, SECOND}
  {
    ChoiceShape();
    ChoiceVars();
    Equation(v, rank);
    MkEqMeaning(CHOICE, v, rank, AnyModel);
    hide MkImpl, MkEq, Vars;
    MkImplMeaning(c, MkEq(CHOICE, v, rank), rank, AnyModel);
  }

  lemma ChoiceVars()
    ensures Vars(CHOICE) <= {COND, FIRST, SECOND} && Vars(COND) == Vars(Not(COND)) == {COND}
    ensures Vars(FIRST) == {FIRST} && Vars(SECOND) == {SECOND}
  {
    assert Args(CHOICE) == [COND, FIRST, SECOND] && Args(Not(COND)) == [COND];
    assert Args(Not(COND))[0] == COND;
  }

  /** The elimination returns the formula as it is, with its ite. */
  method ItesRemain(rank: Order) returns (r: Term)
    requires rank(FirstCase(rank)) != rank(SecondCase(rank))
    ensures r == Formula(rank) && !NoIte(r)
  {
    FormulaReady(rank);
    ghost var switches, tops;
    r, switches, tops := Rewrite(Formula(rank), rank);
    ConjoinedIsItself(rank, switches, tops);
    ConjoinedSame(Formula(rank), switches, tops, rank);
  }
}
