/**
 Formulas that are clauses or negated conjunctions already: the shortcuts of the Cnfizer.
 */
module ClauseShapes {
  import opened Terms
  import opened Facts
  import opened Clauses
  import opened TreeOps

  // ---------- literals, clauses and conjunctions of literals ----------

  predicate IsAtom(t: Term) {
    IsBool(t) && (t.True? || t.False? || t.Var? || (t.Eq? && !IsBool(t.lhs)) || t.App?)
  }

  predicate IsLiteral(t: Term) {
    (t.Not? && IsAtom(t.arg)) || IsAtom(t)
  }

  /** A literal, or a disjunction of such trees. */
  predicate ClauseTree(t: Term) {
    IsLiteral(t) || (t.Or? && forall i :: 0 <= i < |t.args| ==> ClauseTree(t.args[i]))
  }

  /** A literal, or a conjunction of such trees. */
  predicate ConjTree(t: Term) {
    IsLiteral(t) || (t.And? && forall i :: 0 <= i < |t.args| ==> ConjTree(t.args[i]))
  }

  lemma LiteralValue(t: Term, tau: Valuation)
    requires IsLiteral(t)
    ensures TermValue(t, tau) <==> PropHolds(t, tau)
    ensures !Connective(Pure(t).tr)
  {
    if t.Not? { assert Pure(t) == PtAsgn(t.arg, false); }
  }

  ghost predicate SomeLiteral(ls: seq<Term>, tau: Valuation) {
    exists i :: 0 <= i < |ls| && TermValue(ls[i], tau)
  }

  ghost predicate EveryLiteral(ls: seq<Term>, tau: Valuation) {
    forall i :: 0 <= i < |ls| ==> TermValue(ls[i], tau)
  }

  lemma LiteralsConcat(a: seq<Term>, b: seq<Term>, tau: Valuation)
    ensures SomeLiteral(a + b, tau) <==> SomeLiteral(a, tau) || SomeLiteral(b, tau)
    ensures EveryLiteral(a + b, tau) <==> EveryLiteral(a, tau) && EveryLiteral(b, tau)
  {
    var c := a + b;
    assert forall i :: 0 <= i < |a| ==> c[i] == a[i];
    assert forall i :: 0 <= i < |b| ==> c[|a| + i] == b[i];
    if SomeLiteral(a, tau) { var i :| 0 <= i < |a| && TermValue(a[i], tau); assert TermValue(c[i], tau); }
    if SomeLiteral(b, tau) { var i :| 0 <= i < |b| && TermValue(b[i], tau); assert TermValue(c[|a| + i], tau); }
    if EveryLiteral(c, tau) {
      forall i | 0 <= i < |a| ensures TermValue(a[i], tau) { assert TermValue(c[i], tau); }
      forall i | 0 <= i < |b| ensures TermValue(b[i], tau) { assert TermValue(c[|a| + i], tau); }
    }
  }

  lemma OneLiteral(t: Term, tau: Valuation)
    ensures SomeLiteral([t], tau) <==> TermValue(t, tau)
    ensures EveryLiteral([t], tau) <==> TermValue(t, tau)
  {
    if TermValue(t, tau) { assert TermValue([t][0], tau); }
    if EveryLiteral([t], tau) { assert TermValue([t][0], tau); }
  }

  /** The total size of the terms on a worklist. */
  function Weight(ts: seq<Term>): nat {
    if ts == [] then 0 else Weight(ts[..|ts| - 1]) + Size(ts[|ts| - 1])
  }

  lemma WeightPush(ts: seq<Term>, t: Term)
    ensures Weight(ts + [t]) == Weight(ts) + Size(t)
  {
    assert (ts + [t])[..|ts|] == ts;
  }

  /** All terms of the list from position n on are clause trees. */
  ghost predicate Trees(ts: seq<Term>, n: int) {
    forall i :: n <= i < |ts| && 0 <= i ==> ClauseTree(ts[i])
  }

  ghost predicate OrTerms(ts: seq<Term>) {
    forall i :: 0 <= i < |ts| ==> ts[i].Or?
  }

  lemma TreesSplit(ts: seq<Term>, more: seq<Term>)
    requires ts <= more
    ensures Trees(more, 0) <==> Trees(ts, 0) && Trees(more, |ts|)
  {
    if Trees(more, 0) {
      forall i | 0 <= i < |ts| ensures ClauseTree(ts[i]) { assert more[i] == ts[i]; }
    }
  }

  /** Queues the nested disjunctions of a disjunction; fails on an argument that is no literal. */
  method PushDisjunctions(t: Term, queue: seq<Term>) returns (ok: bool, more: seq<Term>)
    requires t.Or? && OrTerms(queue)
    ensures queue <= more && OrTerms(more)
    ensures if ok then ClauseTree(t) <==> Trees(more, |queue|) else !ClauseTree(t)
    ensures Weight(more) < Weight(queue) + Size(t)
  {
    more, ok := queue, true;
    PushingStarts(t, queue);
    hide *;
    for i := 0 to |t.args|
      invariant Pushing(t, queue, i, more)
    {
      PushingStep(t, queue, i, more);
      if t.args[i].Or? {
        more := more + [t.args[i]];
      } else if !IsLiteral(t.args[i]) {
        ok := false;
        return;
      }
    }
    PushingEnds(t, queue, more);
  }

  /** The first i arguments of a disjunction have been looked at: the nested disjunctions are queued. */
  ghost predicate Pushing(t: Term, queue: seq<Term>, i: nat, more: seq<Term>)
    requires t.Or? && i <= |t.args|
  {
    && queue <= more && OrTerms(more) && Args(t) == t.args
    && (Trees(more, |queue|) <==> TreesBelow(t.args, i))
    && Weight(more) + SizeOfArgsFrom(t, i) < Weight(queue) + Size(t)
  }

  lemma PushingStarts(t: Term, queue: seq<Term>)
    requires t.Or? && OrTerms(queue)
    ensures Pushing(t, queue, 0, queue)
  {
    DisjunctionTree(t);
    NoTreesFrom(queue);
  }

  lemma PushingStep(t: Term, queue: seq<Term>, i: nat, more: seq<Term>)
    requires t.Or? && i < |t.args| && Pushing(t, queue, i, more)
    ensures t.args[i].Or? ==> Pushing(t, queue, i + 1, more + [t.args[i]])
    ensures !t.args[i].Or? && IsLiteral(t.args[i]) ==> Pushing(t, queue, i + 1, more)
    ensures !t.args[i].Or? && !IsLiteral(t.args[i]) ==>
      !ClauseTree(t) && Weight(more) < Weight(queue) + Size(t) && queue <= more && OrTerms(more)
  {
    hide *;
    if t.args[i].Or? {
      PushingOr(t, queue, i, more);
    } else if IsLiteral(t.args[i]) {
      PushingLiteral(t, queue, i, more);
    } else {
      PushingFails(t, queue, i, more);
    }
  }

  /** The trees of the first n arguments. */
  ghost predicate TreesBelow(ts: seq<Term>, n: nat)
    requires n <= |ts|
  {
    forall j :: 0 <= j < n ==> ClauseTree(ts[j])
  }

  lemma TreesBelowNext(ts: seq<Term>, n: nat)
    requires n < |ts|
    ensures TreesBelow(ts, n + 1) <==> TreesBelow(ts, n) && ClauseTree(ts[n])
  {
    hide ClauseTree;
  }

  lemma PushingOr(t: Term, queue: seq<Term>, i: nat, more: seq<Term>)
    requires t.Or? && i < |t.args| && Pushing(t, queue, i, more) && t.args[i].Or?
    ensures Pushing(t, queue, i + 1, more + [t.args[i]])
  {
    ArgSize(t, i);
    WeightPush(more, t.args[i]);
    TreesPush(more, |queue|, t.args[i]);
    OrTermsPush(more, t.args[i]);
    TreesBelowNext(t.args, i);
    hide ClauseTree, Trees, Weight, Size, SizeOfArgsFrom, Args, TreesBelow, OrTerms;
  }

  lemma PushingLiteral(t: Term, queue: seq<Term>, i: nat, more: seq<Term>)
    requires t.Or? && i < |t.args| && Pushing(t, queue, i, more) && IsLiteral(t.args[i])
    ensures Pushing(t, queue, i + 1, more)
  {
    ArgSize(t, i);
    LiteralTree(t.args[i]);
    TreesBelowNext(t.args, i);
    hide ClauseTree, Trees, Weight, Size, SizeOfArgsFrom, Args, IsLiteral, TreesBelow;
  }

  lemma PushingFails(t: Term, queue: seq<Term>, i: nat, more: seq<Term>)
    requires t.Or? && i < |t.args| && Pushing(t, queue, i, more) && !t.args[i].Or? && !IsLiteral(t.args[i])
    ensures !ClauseTree(t) && Weight(more) < Weight(queue) + Size(t) && queue <= more && OrTerms(more)
  {
    DisjunctionTree(t);
    hide ClauseTree, Trees, Weight, Size, SizeOfArgsFrom, IsLiteral;
  }

  lemma LiteralTree(t: Term)
    ensures IsLiteral(t) ==> ClauseTree(t)
  {
  }

  lemma PushingEnds(t: Term, queue: seq<Term>, more: seq<Term>)
    requires t.Or? && Pushing(t, queue, |t.args|, more)
    ensures queue <= more && OrTerms(more) && (ClauseTree(t) <==> Trees(more, |queue|))
      && Weight(more) < Weight(queue) + Size(t)
  {
    DisjunctionTree(t);
  }

  /** The size of the arguments from position i on. */
  function SizeOfArgsFrom(t: Term, i: nat): nat
    requires i <= |Args(t)|
    decreases |Args(t)| - i
  {
    if i == |Args(t)| then 0 else Size(Args(t)[i]) + SizeOfArgsFrom(t, i + 1)
  }

  lemma {:induction false} SizeSplit(t: Term, i: nat)
    requires i <= |Args(t)|
    ensures SizeOfArgs(t, i) + SizeOfArgsFrom(t, i) == SizeOfArgs(t, |Args(t)|)
    decreases |Args(t)| - i
  {
    if i < |Args(t)| { SizeSplit(t, i + 1); }
  }

  lemma ArgSize(t: Term, i: nat)
    requires t.Or? && i < |t.args|
    ensures Args(t) == t.args && SizeOfArgsFrom(t, i) == Size(t.args[i]) + SizeOfArgsFrom(t, i + 1)
  {
  }

  lemma OrTermsPush(ts: seq<Term>, t: Term)
    requires OrTerms(ts) && t.Or?
    ensures OrTerms(ts + [t])
  {
  }

  lemma DisjunctionTree(t: Term)
    requires t.Or?
    ensures Args(t) == t.args && SizeOfArgsFrom(t, 0) < Size(t)
    ensures ClauseTree(t) <==> forall i :: 0 <= i < |t.args| ==> ClauseTree(t.args[i])
    ensures forall i :: 0 <= i < |t.args| && !t.args[i].Or? && !IsLiteral(t.args[i]) ==> !ClauseTree(t.args[i])
  {
    SizeSplit(t, 0);
  }

  lemma NoTreesFrom(ts: seq<Term>)
    ensures Trees(ts, |ts|)
  {
  }

  lemma TreesPush(ts: seq<Term>, n: nat, t: Term)
    requires n <= |ts|
    ensures Trees(ts + [t], n) <==> Trees(ts, n) && ClauseTree(t)
  {
    var us := ts + [t];
    assert us[|ts|] == t && forall i :: 0 <= i < |ts| ==> us[i] == ts[i];
    if Trees(us, n) {
      forall i | n <= i < |ts| ensures ClauseTree(ts[i]) { assert ClauseTree(us[i]); }
    }
  }

  /** Whether a formula is a literal or a tree of disjunctions over literals. */
  method IsClause(e: Term) returns (r: bool)
    ensures r <==> ClauseTree(e)
  {
    if IsLiteral(e) { return true; }
    if !e.Or? { return false; }
    var toProcess := [e];
    assert Trees(toProcess, 0) <==> ClauseTree(e) by { TreesPush([], 0, e); assert [] + [e] == [e]; }
    hide ClauseTree, IsLiteral, Trees, Weight;
    while |toProcess| != 0
      invariant OrTerms(toProcess) && (ClauseTree(e) <==> Trees(toProcess, 0))
      decreases Weight(toProcess)
    {
      var n := |toProcess| - 1;
      var t, rest := toProcess[n], toProcess[..n];
      assert toProcess == rest + [t];
      WeightPush(rest, t);
      TreesPush(rest, 0, t);
      var ok;
      ok, toProcess := PushDisjunctions(t, rest);
      TreesSplit(rest, toProcess);
      if !ok { return false; }
    }
    NoTrees();
    r := true;
  }

  lemma NoTrees()
    ensures Trees([], 0)
  {
  }

  // ---------- de Morgan's laws ----------

  ghost predicate ConjTrees(ts: seq<Term>, n: int) {
    forall i :: n <= i < |ts| && 0 <= i ==> ConjTree(ts[i])
  }

  lemma ConjPush(ts: seq<Term>, n: nat, t: Term)
    requires n <= |ts|
    ensures ConjTrees(ts + [t], n) <==> ConjTrees(ts, n) && ConjTree(t)
  {
    var us := ts + [t];
    assert us[|ts|] == t && forall i :: 0 <= i < |ts| ==> us[i] == ts[i];
    if ConjTrees(us, n) {
      forall i | n <= i < |ts| ensures ConjTree(ts[i]) { assert ConjTree(us[i]); }
    }
  }

  lemma ConjSplit(ts: seq<Term>, more: seq<Term>)
    requires ts <= more
    ensures ConjTrees(more, 0) <==> ConjTrees(ts, 0) && ConjTrees(more, |ts|)
  {
    if ConjTrees(more, 0) {
      forall i | 0 <= i < |ts| ensures ConjTree(ts[i]) { assert more[i] == ts[i]; }
    }
  }

  method PushConjuncts(t: Term, queue: seq<Term>) returns (more: seq<Term>)
    requires t.And?
    ensures queue <= more && (ConjTree(t) <==> ConjTrees(more, |queue|))
    ensures Weight(more) < Weight(queue) + Size(t)
  {
    more := queue;
    assert !IsLiteral(t);
    for i := 0 to |t.args|
      invariant queue <= more
      invariant ConjTrees(more, |queue|) <==> forall j :: 0 <= j < i ==> ConjTree(t.args[j])
      invariant Weight(more) <= Weight(queue) + SizeOfArgs(t, i)
    {
      WeightPush(more, t.args[i]);
      ConjPush(more, |queue|, t.args[i]);
      more := more + [t.args[i]];
    }
  }

  /** Whether a conjunction is a tree of conjunctions over literals. */
  method CheckPureConj(e: Term) returns (r: bool)
    ensures r <==> e.And? && ConjTree(e)
  {
    if !e.And? { return false; }
    var toProcess := [e];
    assert ConjTrees(toProcess, 0) <==> ConjTree(e) by { ConjPush([], 0, e); assert [] + [e] == [e]; }
    hide ConjTrees, Weight;
    while |toProcess| != 0
      invariant ConjTree(e) <==> ConjTrees(toProcess, 0)
      decreases Weight(toProcess)
    {
      var n := |toProcess| - 1;
      var t, rest := toProcess[n], toProcess[..n];
      assert toProcess == rest + [t];
      WeightPush(rest, t);
      ConjPush(rest, 0, t);
      if t.And? {
        toProcess := PushConjuncts(t, rest);
        ConjSplit(rest, toProcess);
      } else if !IsLiteral(t) {
        return false;
      } else {
        toProcess := rest;
      }
    }
    NoConjTrees();
    r := true;
  }

  lemma NoConjTrees()
    ensures ConjTrees([], 0)
  {
  }

  method CheckDeMorgan(e: Term) returns (r: bool)
    ensures r <==> e.Not? && e.arg.And? && ConjTree(e.arg)
  {
    if e.Not? {
      r := CheckPureConj(e.arg);
    } else {
      r := false;
    }
  }

  /** The leaves of a tree of conjunctions or of disjunctions, from left to right. */
  function Leaves(t: Term, conj: bool): seq<Term>
    decreases t, 1, 0
  {
    if (if conj then t.And? else t.Or?) then LeavesOfArgs(t, conj, |Args(t)|) else [t]
  }

  function LeavesOfArgs(t: Term, conj: bool, n: nat): seq<Term>
    requires n <= |Args(t)|
    decreases t, 0, n
  {
    if n == 0 then [] else LeavesOfArgs(t, conj, n - 1) + Leaves(Args(t)[n - 1], conj)
  }

  /** The literals of a clause tree, appended to the output vector. */
  method RetrieveClause(f: Term, clause0: seq<Term>) returns (clause: seq<Term>)
    requires ClauseTree(f)
    ensures clause == clause0 + Leaves(f, false)
    ensures clause0 <= clause && forall i :: |clause0| <= i < |clause| ==> IsLiteral(clause[i])
    ensures forall tau :: SomeLiteral(clause, tau) <==> SomeLiteral(clause0, tau) || PropHolds(f, tau)
    decreases f
  {
    if IsLiteral(f) {
      clause := clause0 + [f];
      forall tau ensures SomeLiteral(clause, tau) <==> SomeLiteral(clause0, tau) || PropHolds(f, tau) {
        LiteralsConcat(clause0, [f], tau);
        OneLiteral(f, tau);
        LiteralValue(f, tau);
      }
    } else {
      clause := clause0;
      for i := 0 to |f.args|
        invariant clause == clause0 + LeavesOfArgs(f, false, i)
        invariant clause0 <= clause && forall j :: |clause0| <= j < |clause| ==> IsLiteral(clause[j])
        invariant forall tau :: SomeLiteral(clause, tau)
                    <==> SomeLiteral(clause0, tau) || exists j :: 0 <= j < i && PropHolds(f.args[j], tau)
      {
        clause := RetrieveClause(f.args[i], clause);
      }
    }
  }

  /** The literals of a conjunction tree, appended to the output vector. */
  method RetrieveConjuncts(f: Term, conjuncts0: seq<Term>) returns (conjuncts: seq<Term>)
    requires ConjTree(f)
    ensures conjuncts == conjuncts0 + Leaves(f, true)
    ensures conjuncts0 <= conjuncts && forall i :: |conjuncts0| <= i < |conjuncts| ==> IsLiteral(conjuncts[i])
    ensures forall tau :: EveryLiteral(conjuncts, tau) <==> EveryLiteral(conjuncts0, tau) && PropHolds(f, tau)
    decreases f
  {
    if IsLiteral(f) {
      conjuncts := conjuncts0 + [f];
      forall tau ensures EveryLiteral(conjuncts, tau) <==> EveryLiteral(conjuncts0, tau) && PropHolds(f, tau) {
        LiteralsConcat(conjuncts0, [f], tau);
        OneLiteral(f, tau);
        LiteralValue(f, tau);
      }
    } else {
      conjuncts := conjuncts0;
      for i := 0 to |f.args|
        invariant conjuncts == conjuncts0 + LeavesOfArgs(f, true, i)
        invariant conjuncts0 <= conjuncts && forall j :: |conjuncts0| <= j < |conjuncts| ==> IsLiteral(conjuncts[j])
        invariant forall tau :: EveryLiteral(conjuncts, tau)
                    <==> EveryLiteral(conjuncts0, tau) && forall j :: 0 <= j < i ==> PropHolds(f.args[j], tau)
      {
        conjuncts := RetrieveConjuncts(f.args[i], conjuncts);
      }
    }
  }

  /** A formula that is asserted as one clause: a clause already, or the negation of a conjunction of literals. */
  predicate Direct(f: Term) {
    ClauseTree(f) || (f.Not? && f.arg.And? && ConjTree(f.arg))
  }

  /** The clause that asserts a formula; one that is not direct needs its definitions besides. */
  function AssertedClause(f: Term): Clause {
    if ClauseTree(f) then ArgLits(Leaves(f, false), false)
    else if Direct(f) then ArgLits(Leaves(f.arg, true), true)
    else ArgLits([f], false)
  }

  lemma AssertedParts(f: Term)
    ensures IsLiteral(f) ==> [] + Leaves(f, false) == [f]
    ensures ClauseTree(f) ==> Direct(f) && AssertedClause(f) == ArgLits([] + Leaves(f, false), false)
    ensures f.Not? && f.arg.And? && ConjTree(f.arg) ==>
      Direct(f) && AssertedClause(f) == ArgLits([] + Leaves(f.arg, true), true)
    ensures !ClauseTree(f) && !(f.Not? && f.arg.And? && ConjTree(f.arg)) ==>
      !Direct(f) && AssertedClause(f) == ArgLits([f], false)
  {
    LiteralLeaf(f);
    NegationNoTree(f);
    hide ClauseTree, ConjTree, Leaves, ArgLits, IsLiteral;
    EmptyFirst(Leaves(f, false));
    if f.Not? { EmptyFirst(Leaves(f.arg, true)); }
  }

  lemma EmptyFirst<T>(s: seq<T>)
    ensures [] + s == s
  {
  }

  lemma LiteralLeaf(f: Term)
    ensures IsLiteral(f) ==> Leaves(f, false) == [f]
  {
  }

  /** The negation of a conjunction is no clause. */
  lemma NegationNoTree(f: Term)
    ensures f.Not? && f.arg.And? ==> !ClauseTree(f)
  {
  }

  // ---------- top-level conjuncts ----------

  lemma {:induction false} TopConjunctsMeaning(t: Term, tau: Valuation)
    ensures PropHolds(t, tau) <==> forall c :: c in TopConjuncts(t) ==> PropHolds(c, tau)
  {
    if t.And? {
      forall i | 0 <= i < |t.args|
        ensures PropHolds(t.args[i], tau) <==> forall c :: c in TopConjuncts(t.args[i]) ==> PropHolds(c, tau)
      {
        TopConjunctsMeaning(t.args[i], tau);
      }
      forall i, c | 0 <= i < |t.args| && c in TopConjuncts(t.args[i]) ensures c in TopConjuncts(t) {
      }
      if forall c :: c in TopConjuncts(t) ==> PropHolds(c, tau) {
        forall i | 0 <= i < |t.args| ensures PropHolds(t.args[i], tau) {
          assert forall c :: c in TopConjuncts(t.args[i]) ==> c in TopConjuncts(t);
        }
      }
    }
  }
}
