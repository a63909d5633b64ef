/**
 Elimination of ites: every topmost ite is replaced by an auxiliary variable, and switches say
 that the variables have the values of their ites.
 */
module IteElimination {
  import opened Sequences
  import opened Terms
  import opened Facts
  import opened TreeOps
  import opened IteDag
  import opened Pairs

  /** The auxiliary variable of an ite. */
  function AuxVar(t: Term): Term {
    Var(Aux(t), SortOf(t))
  }

  predicate NoIte(t: Term) {
    !t.Ite? && forall i :: 0 <= i < |Args(t)| ==> NoIte(Args(t)[i])
  }

  /** The ites that are not below other ites. */
  function TopMost(t: Term): set<Term> {
    if t.Ite? then {t} else set i, x | 0 <= i < |Args(t)| && x in TopMost(Args(t)[i]) :: x
  }

  /** The term with its topmost ites replaced by their variables. */
  function Strip(t: Term, rank: Order): Term {
    if t.Ite? then AuxVar(t)
    else
      var args := seq(|Args(t)|, i requires 0 <= i < |Args(t)| => Strip(Args(t)[i], rank));
      if args == Args(t) then t else Rebuild(t, args, rank)
  }

  function StripArgs(t: Term, rank: Order): (args: seq<Term>)
    ensures |args| == |Args(t)| && forall i :: 0 <= i < |args| ==> args[i] == Strip(Args(t)[i], rank)
  {
    seq(|Args(t)|, i requires 0 <= i < |Args(t)| => Strip(Args(t)[i], rank))
  }

  lemma StripUnfold(t: Term, rank: Order)
    requires !t.Ite?
    ensures var args := StripArgs(t, rank);
            Strip(t, rank) == if args == Args(t) then t else Rebuild(t, args, rank)
  {
    assert StripArgs(t, rank) == seq(|Args(t)|, i requires 0 <= i < |Args(t)| => Strip(Args(t)[i], rank));
  }

  // ---------- the constructors build no ites ----------

  lemma NotNoIte(t: Term)
    requires NoIte(t)
    ensures NoIte(MkNot(t))
  {
    if t.Not? { assert Args(t)[0] == t.arg; }
    assert Args(Not(t)) == [t];
  }

  lemma NaryNoIte(ts: seq<Term>, rank: Order)
    requires AllBool(ts) && forall t :: t in ts ==> NoIte(t)
    ensures NoIte(MkAnd(ts, rank)) && NoIte(MkOr(ts, rank))
  {
    NaryShape(ts, rank, False, True);
    NaryShape(ts, rank, True, False);
    match Compact(SortSigned(ts, rank), None, False, True) {
      case Absorbed =>
      case Kept(ys) => KeptNoIte(ts, ys); OneNoIte(ts, ys);
    }
    match Compact(SortSigned(ts, rank), None, True, False) {
      case Absorbed =>
      case Kept(ys) => KeptNoIte(ts, ys); OneNoIte(ts, ys);
    }
  }

  lemma KeptNoIte(ts: seq<Term>, ys: seq<PtAsgn>)
    requires (forall t :: t in ts ==> NoIte(t)) && forall u :: u in UnsignedAll(ys) ==> u in ts
    ensures NoIte(And(UnsignedAll(ys))) && NoIte(Or(UnsignedAll(ys)))
  {
    var us := UnsignedAll(ys);
    assert Args(And(us)) == us && Args(Or(us)) == us;
    forall i | 0 <= i < |us| ensures NoIte(us[i]) { assert us[i] in us; }
  }

  lemma OneNoIte(ts: seq<Term>, ys: seq<PtAsgn>)
    requires (forall t :: t in ts ==> NoIte(t)) && forall u :: u in UnsignedAll(ys) ==> u in ts
    ensures |ys| == 1 ==> NoIte(Unsigned(ys[0]))
  {
    if |ys| == 1 { assert UnsignedAll(ys)[0] in UnsignedAll(ys); }
  }

  lemma PairNoIte(a: Term, b: Term)
    requires NoIte(a) && NoIte(b)
    ensures NoIte(Xor(a, b)) && NoIte(Eq(a, b))
  {
    assert Args(Xor(a, b)) == [a, b] && Args(Eq(a, b)) == [a, b];
  }

  lemma BinaryNoIte(a: Term, b: Term, rank: Order)
    requires NoIte(a) && NoIte(b)
    ensures NoIte(MkXor(a, b, rank)) && NoIte(MkEq(a, b, rank))
  {
    NotNoIte(a);
    NotNoIte(b);
    PairNoIte(a, b);
    PairNoIte(b, a);
    assert NoIte(True) && NoIte(False);
    hide NoIte, MkNot;
  }

  lemma RebuildNoIte(t: Term, args: seq<Term>, rank: Order)
    requires WellFormed(t) && !t.Ite? && |args| == |Args(t)| && forall i :: 0 <= i < |args| ==> NoIte(args[i])
    requires forall i :: 0 <= i < |args| ==> WellFormed(args[i]) && SortOf(args[i]) == SortOf(Args(t)[i])
    ensures NoIte(Rebuild(t, args, rank))
  {
    assert WellFormedHere(t);
    assert NoIte(True) && NoIte(False) && (t.Var? ==> NoIte(t));
    assert t.App? ==> NoIte(App(t.fun, args, t.sort)) by {
      if t.App? { assert Args(App(t.fun, args, t.sort)) == args; }
    }
    hide NoIte, WellFormed, MkAnd, MkOr, MkXor, MkEq;
    match t {
      case Not(a) => NotNoIte(args[0]);
      case And(xs) => NaryNoIte(args, rank);
      case Or(xs) => NaryNoIte(args, rank);
      case Xor(a, b) => BinaryNoIte(args[0], args[1], rank);
      case Eq(a, b) => BinaryNoIte(args[0], args[1], rank);
      case _ =>
    }
  }

  // ---------- the stripped term ----------

  function AuxVars(ites: set<Term>): set<Term> {
    set x | x in ites :: AuxVar(x)
  }

  /** The stripped term has no ite and keeps its sort; its new variables are those of topmost ites. */
  lemma {:induction false} StripShape(t: Term, rank: Order)
    requires WellFormed(t)
    ensures WellFormed(Strip(t, rank)) && SortOf(Strip(t, rank)) == SortOf(t) && NoIte(Strip(t, rank))
    ensures Vars(Strip(t, rank)) <= Vars(t) + AuxVars(TopMost(t))
  {
    if t.Ite? {
      assert AuxVar(t) in AuxVars(TopMost(t));
    } else {
      StripUnfold(t, rank);
      var args := StripArgs(t, rank);
      forall i | 0 <= i < |args|
        ensures WellFormed(args[i]) && SortOf(args[i]) == SortOf(Args(t)[i]) && NoIte(args[i])
        ensures Vars(args[i]) <= Vars(t) + AuxVars(TopMost(t))
      {
        StripShape(Args(t)[i], rank);
        VarsArgSubset(t, i);
        assert TopMost(Args(t)[i]) <= TopMost(t);
      }
      StripBuilt(t, args, rank, Vars(t) + AuxVars(TopMost(t)));
    }
  }

  lemma StripBuilt(t: Term, args: seq<Term>, rank: Order, xs: set<Term>)
    requires WellFormed(t) && !t.Ite? && |args| == |Args(t)| && Vars(t) <= xs
    requires forall i :: 0 <= i < |args| ==>
      WellFormed(args[i]) && SortOf(args[i]) == SortOf(Args(t)[i]) && NoIte(args[i])
    requires forall i :: 0 <= i < |args| ==> Vars(args[i]) <= xs
    ensures var r := if args == Args(t) then t else Rebuild(t, args, rank);
            WellFormed(r) && SortOf(r) == SortOf(t) && NoIte(r) && Vars(r) <= xs
  {
    assert t.Var? ==> args == Args(t);
    if args != Args(t) {
      RebuildMeaning(t, args, rank, AnyModel);
      RebuildNoIte(t, args, rank);
    }
  }

  /** A term without ites is left alone, and no other is. */
  lemma {:induction false} StripNoIte(t: Term, rank: Order)
    requires WellFormed(t)
    ensures NoIte(t) <==> Strip(t, rank) == t
  {
    StripShape(t, rank);
    if NoIte(t) {
      StripUnfold(t, rank);
      forall i | 0 <= i < |Args(t)| ensures Strip(Args(t)[i], rank) == Args(t)[i] {
        StripNoIte(Args(t)[i], rank);
      }
      assert StripArgs(t, rank) == Args(t);
    }
  }

  /** If the variables of its topmost ites have their values, the stripped term has the term's value. */
  lemma {:induction false} StripEval(t: Term, rank: Order, m: Model)
    requires WellFormed(t)
    requires forall x :: x in TopMost(t) ==> Eval(AuxVar(x), m) == Eval(x, m)
    ensures Eval(Strip(t, rank), m) == Eval(t, m)
  {
    if !t.Ite? {
      StripUnfold(t, rank);
      var args := StripArgs(t, rank);
      forall i | 0 <= i < |args|
        ensures WellFormed(args[i]) && SortOf(args[i]) == SortOf(Args(t)[i]) && Eval(args[i], m) == Eval(Args(t)[i], m)
      {
        assert TopMost(Args(t)[i]) <= TopMost(t);
        StripShape(Args(t)[i], rank);
        StripEval(Args(t)[i], rank, m);
      }
      assert t.Var? ==> args == Args(t);
      if args != Args(t) {
        RebuildMeaning(t, args, rank, m);
      }
    }
  }

  /** The truth of stripped terms in a model. */
  ghost function Stripped(m: Model, rank: Order): Truth {
    t => Holds(Strip(t, rank), m)
  }

  lemma StrippedNot(t: Term, rank: Order, m: Model)
    requires WellFormed(t) && IsBool(t) && !t.Not? && !IsConstant(t)
    ensures Holds(Strip(Not(t), rank), m) <==> !Holds(Strip(t, rank), m)
  {
    StripUnfold(Not(t), rank);
    StripShape(t, rank);
    MkNotMeaning(Strip(t, rank), m);
    assert Args(Not(t)) == [t];
    assert StripArgs(Not(t), rank)[0] == Strip(t, rank);
    if StripArgs(Not(t), rank) == Args(Not(t)) { assert Strip(t, rank) == t; }
  }

  lemma StrippedNary(us: seq<Term>, rank: Order, m: Model)
    requires AllBool(us) && |us| >= 2
    ensures Holds(Strip(And(us), rank), m) == EachTrue(us, Stripped(m, rank))
    ensures Holds(Strip(Or(us), rank), m) == OneTrue(us, Stripped(m, rank))
  {
    var a := StripArgs(And(us), rank);
    assert Args(And(us)) == us && Args(Or(us)) == us && a == StripArgs(Or(us), rank);
    StripUnfold(And(us), rank);
    StripUnfold(Or(us), rank);
    StripAllBool(us, a, rank);
    StrippedArgs(us, a, rank, m);
    hide *;
    NaryMeaning(us, m);
    MkAndMeaning(a, rank, m);
    MkOrMeaning(a, rank, m);
    RebuildNary(us, a, rank);
  }

  lemma StripAllBool(us: seq<Term>, a: seq<Term>, rank: Order)
    requires AllBool(us) && |a| == |us| && forall i :: 0 <= i < |us| ==> a[i] == Strip(us[i], rank)
    ensures AllBool(a)
  {
    forall i | 0 <= i < |a| ensures WellFormed(a[i]) && IsBool(a[i]) {
      StripShape(us[i], rank);
    }
  }

  lemma RebuildNary(us: seq<Term>, a: seq<Term>, rank: Order)
    requires |a| == |us|
    ensures |Args(And(us))| == |us| == |Args(Or(us))|
    ensures Rebuild(And(us), a, rank) == MkAnd(a, rank) && Rebuild(Or(us), a, rank) == MkOr(a, rank)
  {
  }

  lemma StrippedArgs(us: seq<Term>, a: seq<Term>, rank: Order, m: Model)
    requires |a| == |us| && forall i :: 0 <= i < |us| ==> a[i] == Strip(us[i], rank)
    ensures EachHolds(a, m) == EachTrue(us, Stripped(m, rank))
    ensures OneHolds(a, m) == OneTrue(us, Stripped(m, rank))
  {
    var e := Stripped(m, rank);
    forall i | 0 <= i < |us| ensures Holds(a[i], m) == e(us[i]) {
    }
    if OneHolds(a, m) { var i :| 0 <= i < |a| && Holds(a[i], m); assert e(us[i]); }
    if OneTrue(us, e) { var i :| 0 <= i < |us| && e(us[i]); assert Holds(a[i], m); }
    if EachHolds(a, m) { forall i | 0 <= i < |us| ensures e(us[i]) { assert Holds(a[i], m); } }
    if EachTrue(us, e) { forall i | 0 <= i < |a| ensures Holds(a[i], m) { assert e(us[i]); } }
  }

  lemma StrippedBoolean(m: Model, rank: Order)
    ensures Boolean(Stripped(m, rank))
  {
    StripUnfold(True, rank);
    StripUnfold(False, rank);
    assert StripArgs(True, rank) == [] && StripArgs(False, rank) == [];
    forall t | WellFormed(t) && IsBool(t) && !t.Not? && !IsConstant(t)
      ensures Stripped(m, rank)(Not(t)) == !Stripped(m, rank)(t)
    {
      StrippedNot(t, rank, m);
    }
    forall us | AllBool(us) && |us| >= 2
      ensures Stripped(m, rank)(And(us)) == EachTrue(us, Stripped(m, rank))
      ensures Stripped(m, rank)(Or(us)) == OneTrue(us, Stripped(m, rank))
    {
      StrippedNary(us, rank, m);
    }
  }

  /** A stripped equality says that the stripped sides are equal. */
  lemma StrippedEq(a: Term, b: Term, rank: Order, m: Model)
    requires WellFormed(a) && WellFormed(b) && SortOf(a) == SortOf(b)
    ensures Holds(Strip(MkEq(a, b, rank), rank), m) <==> Eval(Strip(a, rank), m) == Eval(Strip(b, rank), m)
  {
    StrippedTrue(rank, m);
    hide Strip, WellFormed, Eval;
    if a == b {
    } else if IsBool(a) {
      StrippedBoolEq(a, b, rank, m);
    } else {
      StrippedPlainEq(a, b, rank, m);
      StrippedPlainEq(b, a, rank, m);
    }
  }

  lemma StrippedTrue(rank: Order, m: Model)
    ensures Holds(Strip(True, rank), m) && !Holds(Strip(False, rank), m)
  {
    StripUnfold(True, rank);
    StripUnfold(False, rank);
    assert StripArgs(True, rank) == [] && StripArgs(False, rank) == [];
  }

  lemma StrippedPlainEq(a: Term, b: Term, rank: Order, m: Model)
    requires WellFormed(a) && WellFormed(b) && SortOf(a) == SortOf(b) && !IsConstant(a) && !IsConstant(b)
    ensures Holds(Strip(Eq(a, b), rank), m) <==> Eval(Strip(a, rank), m) == Eval(Strip(b, rank), m)
  {
    StripShape(a, rank);
    StripShape(b, rank);
    StripEq(a, b, rank);
    EqMeaning(a, b, m);
    hide *;
    MkEqMeaning(Strip(a, rank), Strip(b, rank), rank, m);
  }

  lemma StripEq(a: Term, b: Term, rank: Order)
    ensures var (x, y) := (Strip(a, rank), Strip(b, rank));
            Strip(Eq(a, b), rank) == if x == a && y == b then Eq(a, b) else MkEq(x, y, rank)
  {
    var args := StripArgs(Eq(a, b), rank);
    assert Args(Eq(a, b)) == [a, b] && args == [Strip(a, rank), Strip(b, rank)];
    StripUnfold(Eq(a, b), rank);
    hide Strip, StripArgs, MkEq;
    if args == Args(Eq(a, b)) { assert args[0] == a && args[1] == b; }
  }

  lemma StrippedBoolEq(a: Term, b: Term, rank: Order, m: Model)
    requires WellFormed(a) && WellFormed(b) && IsBool(a) && IsBool(b) && a != b
    ensures Holds(Strip(MkEq(a, b, rank), rank), m) <==> Eval(Strip(a, rank), m) == Eval(Strip(b, rank), m)
  {
    StripShape(a, rank);
    StripShape(b, rank);
    StrippedTrue(rank, m);
    StrippedMkNot(a, rank, m);
    StrippedMkNot(b, rank, m);
    BoolEquality(Strip(a, rank), Strip(b, rank), m);
    BoolEqCases(a, b, rank);
    if !IsConstant(a) && !IsConstant(b) { StrippedPlainEq(a, b, rank, m); }
    hide *;
  }

  lemma BoolEqCases(a: Term, b: Term, rank: Order)
    requires WellFormed(a) && WellFormed(b) && IsBool(a) && IsBool(b) && a != b
    ensures var r := MkEq(a, b, rank);
            || (IsConstant(a) && IsConstant(b) && r == False && (a == True || a == False) && (b == True || b == False))
            || (a == MkNot(b) && r == False)
            || (a == True && r == b) || (b == True && r == a) || (a == False && r == MkNot(b))
            || (b == False && r == MkNot(a))
            || (r == Eq(a, b) && !IsConstant(a) && !IsConstant(b))
  {
  }

  lemma StrippedMkNot(t: Term, rank: Order, m: Model)
    requires WellFormed(t) && IsBool(t)
    ensures Holds(Strip(MkNot(t), rank), m) <==> !Holds(Strip(t, rank), m)
  {
    StrippedBoolean(m, rank);
    NotTruth(t, Stripped(m, rank));
  }

  // ---------- the auxiliary variables ----------

  predicate NoAux(t: Term) {
    forall x :: x in Vars(t) ==> x.Var? && !x.name.Aux?
  }

  /** The model in which every auxiliary variable has the value of its ite. */
  ghost function WithAux(m: Model): Model {
    m.(bools := (n: Name) => if n.Aux? then Holds(n.ite, m) else m.bools(n),
       elems := (n: Name, s: Sort) => if n.Aux? && Eval(n.ite, m).E? then Eval(n.ite, m).e else m.elems(n, s))
  }

  lemma AuxApart(t: Term, m: Model)
    requires NoAux(t)
    ensures Eval(t, WithAux(m)) == Eval(t, m)
  {
    EvalAgree(t, m, WithAux(m));
  }

  lemma AuxValue(t: Term, m: Model)
    requires WellFormed(t) && NoAux(t)
    ensures Eval(AuxVar(t), WithAux(m)) == Eval(t, WithAux(m))
  {
    AuxApart(t, m);
    EvalSort(t, m);
  }

  lemma {:induction false} TopMostSubterm(t: Term, x: Term)
    requires x in TopMost(t)
    ensures x.Ite? && x in Subterms(t)
    ensures x == t || exists u :: u in Subterms(t) && Asks(u, x)
  {
    if !t.Ite? {
      var i :| 0 <= i < |Args(t)| && x in TopMost(Args(t)[i]);
      TopMostSubterm(Args(t)[i], x);
      if x == Args(t)[i] {
        assert Asks(t, x) && t in Subterms(t);
      } else {
        var u :| u in Subterms(Args(t)[i]) && Asks(u, x);
        assert u in Subterms(t);
      }
    }
  }

  lemma {:induction false} SubtermSize(t: Term, u: Term)
    requires u in Subterms(t)
    ensures u == t || Size(u) < Size(t)
  {
    if u != t {
      var i :| 0 <= i < |Args(t)| && u in Subterms(Args(t)[i]);
      ArgSmaller(t, |Args(t)|, i);
      SubtermSize(Args(t)[i], u);
    }
  }

  /** The model of the input with the auxiliary variables added agrees with every stripped term. */
  lemma StripExtends(t: Term, rank: Order, m: Model)
    requires WellFormed(t) && NoAux(t)
    ensures Eval(Strip(t, rank), WithAux(m)) == Eval(t, m)
  {
    forall x | x in TopMost(t) ensures Eval(AuxVar(x), WithAux(m)) == Eval(x, WithAux(m)) {
      TopMostSubterm(t, x);
      SubtermsNested(t, x);
      AuxValue(x, m);
    }
    StripEval(t, rank, WithAux(m));
    AuxApart(t, m);
  }

  /** The variable of an ite has the value of the stripped leaf that evaluation of stripped conditions reaches. */
  ghost predicate Switched(t: Term, rank: Order, m: Model) {
    Eval(AuxVar(t), m) == Eval(Strip(LeafOf(t, Stripped(m, rank)), rank), m)
  }

  /** Asked-for ites of a subterm are asked for by the formula. */
  lemma TopMostIsTop(root: Term, t: Term, x: Term)
    requires t in Subterms(root) && x in TopMost(t) && (t.Ite? ==> TopIte(root, t))
    ensures TopIte(root, x)
  {
    TopMostSubterm(t, x);
    SubtermsNested(root, t);
  }

  /** If all switches hold, every auxiliary variable has the value of its ite. */
  lemma {:induction false} SwitchedValue(root: Term, x: Term, rank: Order, m: Model)
    requires WellFormed(root) && x in Subterms(root) && TopIte(root, x)
    requires forall y :: TopIte(root, y) && y in Subterms(root) ==> Switched(y, rank, m)
    ensures Eval(AuxVar(x), m) == Eval(x, m)
    decreases Size(x)
  {
    var e := Stripped(m, rank);
    forall u | u in Branches(x) && u.Ite? ensures e(u.cond) == Holds(u.cond, m) {
      ConditionValue(root, x, u, rank, m);
    }
    LeavesSame(x, e, InModel(m));
    LeafValue(x, m);
    var v := LeafOf(x, e);
    LeafPath(x, v, e);
    LeafStripped(root, x, v, rank, m);
  }

  lemma LeavesSame(t: Term, e: Truth, f: Truth)
    requires forall u :: u in Branches(t) && u.Ite? ==> e(u.cond) == f(u.cond)
    ensures LeafOf(t, e) == LeafOf(t, f)
  {
    if t.Ite? { LeavesSame(Next(t, e), e, f); }
  }

  /** A smaller term of the formula is stripped to its value. */
  lemma {:induction false} SmallerValue(root: Term, x: Term, t: Term, rank: Order, m: Model)
    requires WellFormed(root) && t in Subterms(root) && Size(t) < Size(x) && (t.Ite? ==> TopIte(root, t))
    requires forall y :: TopIte(root, y) && y in Subterms(root) ==> Switched(y, rank, m)
    ensures Eval(Strip(t, rank), m) == Eval(t, m)
    decreases Size(x), 0
  {
    SubtermsNested(root, t);
    forall y | y in TopMost(t) ensures Eval(AuxVar(y), m) == Eval(y, m) {
      TopMostIsTop(root, t, y);
      TopMostSubterm(t, y);
      SubtermSize(t, y);
      SwitchedValue(root, y, rank, m);
    }
    StripEval(t, rank, m);
  }

  lemma {:induction false} ConditionValue(root: Term, x: Term, u: Term, rank: Order, m: Model)
    requires WellFormed(root) && x in Subterms(root) && u in Branches(x) && u.Ite?
    requires forall y :: TopIte(root, y) && y in Subterms(root) ==> Switched(y, rank, m)
    ensures Holds(Strip(u.cond, rank), m) == Holds(u.cond, m)
    decreases Size(x), 1
  {
    BranchCondition(root, x, u);
    hide Subterms, Branches, TopIte, WellFormed, Strip;
    SmallerValue(root, x, u.cond, rank, m);
  }

  lemma CondArg(u: Term)
    requires u.Ite?
    ensures |Args(u)| == 3 && Args(u)[0] == u.cond
  {
  }

  lemma CondOf(root: Term, u: Term)
    requires u.Ite? && u in Subterms(root) && Subterms(u) <= Subterms(root)
    ensures u.cond in Subterms(root) && (u.cond.Ite? ==> TopIte(root, u.cond))
  {
    assert Args(u)[0] == u.cond && u.cond in Subterms(Args(u)[0]);
    assert u.cond.Ite? ==> Asks(u, u.cond);
  }

  lemma BranchCondition(root: Term, x: Term, u: Term)
    requires x in Subterms(root) && u in Branches(x) && u.Ite?
    ensures u.cond in Subterms(root) && Size(u.cond) < Size(x) && (u.cond.Ite? ==> TopIte(root, u.cond))
  {
    CondArg(u);
    hide *;
    BranchesNested(x, u);
    SubtermsNested(root, x);
    SubtermsNested(root, u);
    ArgSmaller(u, 3, 0);
    SubtermSize(x, u);
    CondOf(root, u);
  }

  lemma {:induction false} LeafStripped(root: Term, x: Term, v: Term, rank: Order, m: Model)
    requires WellFormed(root) && x in Subterms(root) && v in Branches(x) && !v.Ite? && x.Ite?
    requires forall y :: TopIte(root, y) && y in Subterms(root) ==> Switched(y, rank, m)
    ensures Eval(Strip(v, rank), m) == Eval(v, m)
    decreases Size(x), 1
  {
    BranchesNested(x, v);
    SubtermsNested(root, x);
    BranchSize(x, v);
    SmallerValue(root, x, v, rank, m);
  }

  // ---------- the ites a switch mentions ----------

  lemma NotTopMost(t: Term)
    ensures TopMost(MkNot(t)) == TopMost(t) || IsConstant(t)
    ensures TopMost(MkNot(t)) <= TopMost(t)
  {
    OneTopMost(Not(t), t);
    if t.Not? { OneTopMost(t, t.arg); }
    assert TopMost(True) == {} && TopMost(False) == {};
  }

  lemma OneTopMost(t: Term, a: Term)
    requires !t.Ite? && Args(t) == [a]
    ensures TopMost(t) == TopMost(a)
  {
    assert Args(t)[0] == a;
    forall x | x in TopMost(a) ensures x in TopMost(t) { assert x in TopMost(Args(t)[0]); }
  }

  lemma NaryTopMost(ts: seq<Term>, rank: Order, xs: set<Term>)
    requires AllBool(ts) && forall t :: t in ts ==> TopMost(t) <= xs
    ensures TopMost(MkAnd(ts, rank)) <= xs && TopMost(MkOr(ts, rank)) <= xs
  {
    NaryShape(ts, rank, False, True);
    NaryShape(ts, rank, True, False);
    assert TopMost(True) == {} && TopMost(False) == {};
    match Compact(SortSigned(ts, rank), None, False, True) {
      case Absorbed =>
      case Kept(ys) => KeptTopMost(ts, ys, xs);
    }
    match Compact(SortSigned(ts, rank), None, True, False) {
      case Absorbed =>
      case Kept(ys) => KeptTopMost(ts, ys, xs);
    }
  }

  lemma {:induction false} KeptTopMost(ts: seq<Term>, ys: seq<PtAsgn>, xs: set<Term>)
    requires (forall t :: t in ts ==> TopMost(t) <= xs) && forall u :: u in UnsignedAll(ys) ==> u in ts
    ensures TopMost(And(UnsignedAll(ys))) <= xs && TopMost(Or(UnsignedAll(ys))) <= xs
    ensures |ys| == 1 ==> TopMost(Unsigned(ys[0])) <= xs
  {
    var us := UnsignedAll(ys);
    assert Args(And(us)) == us && Args(Or(us)) == us;
    forall i | 0 <= i < |us| ensures TopMost(us[i]) <= xs { assert us[i] in us; }
    if |ys| == 1 { assert us[0] in us; }
  }

  lemma EqTopMost(a: Term, b: Term, rank: Order)
    ensures TopMost(MkEq(a, b, rank)) <= TopMost(a) + TopMost(b)
  {
    NotTopMost(a);
    NotTopMost(b);
    PairTopMost(a, b);
    PairTopMost(b, a);
    hide TopMost;
  }

  lemma PairTopMost(a: Term, b: Term)
    ensures TopMost(Eq(a, b)) == TopMost(a) + TopMost(b) && TopMost(True) == {} && TopMost(False) == {}
  {
    var ts := [a, b];
    assert Args(Eq(a, b)) == ts;
    forall x | x in TopMost(a) + TopMost(b) ensures x in TopMost(Eq(a, b)) {
      assert ts[0] == a && ts[1] == b;
      if x in TopMost(a) { assert x in TopMost(ts[0]); } else { assert x in TopMost(ts[1]); }
    }
  }

  lemma ImplTopMost(a: Term, b: Term, rank: Order, xs: set<Term>)
    requires WellFormed(a) && IsBool(a) && WellFormed(b) && IsBool(b) && TopMost(a) <= xs && TopMost(b) <= xs
    ensures TopMost(MkImpl(a, b, rank)) <= xs
  {
    NotTopMost(a);
    MkNotMeaning(a, AnyModel);
    PairTopMost(a, b);
    var ts := [MkNot(a), b];
    assert AllBool(ts);
    NaryTopMost(ts, rank, xs);
  }

  /** What is asked for by an ite of the formula and its branches is asked for by the formula. */
  lemma BranchAsks(root: Term, x: Term, u: Term, y: Term)
    requires x in Subterms(root) && u in Branches(x) && (u.Ite? ==> y in TopMost(u.cond))
      && (!u.Ite? ==> y in TopMost(u))
    ensures TopIte(root, y)
  {
    BranchesNested(x, u);
    SubtermsNested(root, x);
    if u.Ite? {
      BranchCondition(root, x, u);
      TopMostIsTop(root, u.cond, y);
    } else {
      TopMostIsTop(root, u, y);
    }
  }

  /** Every topmost ite of a path condition gets a switch. */
  lemma {:induction false} PathTopMost(
      nodes: seq<DagNode>, nodeOf: map<Term, nat>, root: Term, x: Term, c: nat, rank: Order, xs: set<Term>)
    requires SubDag(nodes, nodeOf, x) && c < |nodes| && x in Subterms(root)
    requires forall y :: y in Subterms(root) && TopIte(root, y) ==> y in xs
    ensures TopMost(PathCond(nodes, c, rank)) <= xs
    decreases |nodes| - c
  {
    if ParentsOf(nodes, c) == [] {
      PairTopMost(True, True);
      assert AllBool([True]);
      NaryTopMost([True], rank, xs);
    } else {
      var ts, ps := EdgeConds(nodes, c, rank), ParentsOf(nodes, c);
      forall k | 0 <= k < |ts| ensures WellFormed(ts[k]) && IsBool(ts[k]) && TopMost(ts[k]) <= xs {
        PathTopMost(nodes, nodeOf, root, x, ps[k].nr, rank, xs);
        EdgeTopMost(nodes, nodeOf, root, x, ps[k], PathCond(nodes, ps[k].nr, rank), rank, xs) by {
          ModelBoolean(AnyModel);
          PathExact(nodes, nodeOf, x, ps[k].nr, rank, InModel(AnyModel));
        }
      }
      JoinTopMost(nodes, c, ts, rank, xs);
    }
  }

  lemma JoinTopMost(nodes: seq<DagNode>, c: nat, ts: seq<Term>, rank: Order, xs: set<Term>)
    requires c < |nodes| && ts == EdgeConds(nodes, c, rank) && ParentsOf(nodes, c) != []
    requires forall k :: 0 <= k < |ts| ==> WellFormed(ts[k]) && IsBool(ts[k]) && TopMost(ts[k]) <= xs
    ensures TopMost(PathCond(nodes, c, rank)) <= xs
  {
    assert PathCond(nodes, c, rank) == MkOr(ts, rank);
    hide PathCond, EdgeConds, TopMost, WellFormed;
    assert AllBool(ts);
    NaryTopMost(ts, rank, xs);
  }

  lemma EdgeTopMost(nodes: seq<DagNode>, nodeOf: map<Term, nat>, root: Term, x: Term, p: Parent, cond: Term,
                    rank: Order, xs: set<Term>)
    requires SubDag(nodes, nodeOf, x) && p.nr < |nodes| && nodes[p.nr].Inner? && x in Subterms(root)
    requires WellFormed(cond) && IsBool(cond) && TopMost(cond) <= xs
    requires forall y :: y in Subterms(root) && TopIte(root, y) ==> y in xs
    ensures var t := EdgeCond(nodes, p, cond, rank); WellFormed(t) && IsBool(t) && TopMost(t) <= xs
  {
    SubDagNode(nodes, nodeOf, x, p.nr);
    var u, c := nodes[p.nr].term, nodes[p.nr].cond;
    ConditionTopMost(root, x, u, xs);
    NotTopMost(c);
    MkNotMeaning(c, AnyModel);
    hide *;
    PairTopMostWithin(cond, if p.sign then c else MkNot(c), rank, xs);
    EdgeCondIs(nodes, p, cond, rank);
  }

  lemma EdgeCondIs(nodes: seq<DagNode>, p: Parent, cond: Term, rank: Order)
    requires p.nr < |nodes| && nodes[p.nr].Inner?
    ensures EdgeCond(nodes, p, cond, rank) ==
      MkAnd([cond, if p.sign then nodes[p.nr].cond else MkNot(nodes[p.nr].cond)], rank)
  {
  }

  lemma ConditionTopMost(root: Term, x: Term, u: Term, xs: set<Term>)
    requires x in Subterms(root) && u in Branches(x) && u.Ite?
    requires forall y :: y in Subterms(root) && TopIte(root, y) ==> y in xs
    ensures TopMost(u.cond) <= xs
  {
    forall y | y in TopMost(u.cond) ensures y in xs {
      BranchAsks(root, x, u, y);
      BranchCondition(root, x, u);
      TopMostSubterm(u.cond, y);
      SubtermsNested(root, u.cond);
    }
  }

  lemma PairTopMostWithin(a: Term, b: Term, rank: Order, xs: set<Term>)
    requires WellFormed(a) && IsBool(a) && WellFormed(b) && IsBool(b) && TopMost(a) <= xs && TopMost(b) <= xs
    ensures var t := MkAnd([a, b], rank); WellFormed(t) && IsBool(t) && TopMost(t) <= xs
  {
    var ts := [a, b];
    assert AllBool(ts);
    NaryTopMost(ts, rank, xs);
    MkAndMeaning(ts, rank, AnyModel);
  }

  /** Every topmost ite of a switch gets a switch. */
  lemma SwitchTopMost(sw: Term, root: Term, x: Term, nodes: seq<DagNode>, nodeOf: map<Term, nat>, leaves: seq<nat>,
                      rank: Order, xs: set<Term>)
    requires IsSwitch(sw, x, nodes, nodeOf, leaves, rank) && x in Subterms(root) && TopIte(root, x)
    requires forall y :: y in Subterms(root) && TopIte(root, y) ==> y in xs
    ensures TopMost(sw) <= xs
  {
    var cvs := CondValsFrom(nodes, leaves, 0, rank);
    var ts := SwitchCases(x, cvs, rank);
    hide PathCond;
    forall i | 0 <= i < |ts| ensures WellFormed(ts[i]) && IsBool(ts[i]) && TopMost(ts[i]) <= xs {
      var l := CondValLeaf(nodes, leaves, 0, rank, i);
      CaseTopMost(nodes, nodeOf, root, x, l, rank, xs);
    }
    assert AllBool(ts);
    hide TopMost, SwitchCases;
    NaryTopMost(ts, rank, xs);
  }

  /** The topmost ites of a branch are topmost ites of the formula. */
  lemma BranchTopMost(root: Term, x: Term, v: Term, xs: set<Term>)
    requires !v.Ite? && v in Branches(x) && x in Subterms(root) && TopIte(root, x)
    requires forall y :: y in Subterms(root) && TopIte(root, y) ==> y in xs
    ensures TopMost(v) <= xs
  {
    hide TopMost, TopIte, Branches;
    forall y | y in TopMost(v) ensures y in xs {
      BranchAsks(root, x, v, y);
      BranchesNested(x, v);
      SubtermsNested(root, x);
      TopMostSubterm(v, y);
      SubtermsNested(root, v);
    }
  }

  lemma CaseTopMost(nodes: seq<DagNode>, nodeOf: map<Term, nat>, root: Term, x: Term, l: nat, rank: Order,
                    xs: set<Term>)
    requires SubDag(nodes, nodeOf, x) && l < |nodes| && nodes[l].Leaf? && x in Subterms(root) && TopIte(root, x)
    requires forall y :: y in Subterms(root) && TopIte(root, y) ==> y in xs
    ensures var t := MkImpl(PathCond(nodes, l, rank), MkEq(x, nodes[l].term, rank), rank);
            WellFormed(t) && IsBool(t) && TopMost(t) <= xs
  {
    var c, v := PathCond(nodes, l, rank), nodes[l].term;
    SubDagNode(nodes, nodeOf, x, l);
    BranchTopMost(root, x, v, xs);
    assert TopMost(x) == {x};
    PathTopMost(nodes, nodeOf, root, x, l, rank, xs);
    ModelBoolean(AnyModel);
    PathExact(nodes, nodeOf, x, l, rank, InModel(AnyModel));
    BranchSort(x, v);
    MkEqMeaning(x, v, rank, AnyModel);
    EqTopMost(x, v, rank);
    hide TopMost, PathCond, WellFormed;
    MkImplMeaning(c, MkEq(x, v, rank), rank, AnyModel);
    ImplTopMost(c, MkEq(x, v, rank), rank, xs);
  }

  // ---------- replacing the ites ----------

  /** Finished terms have a substitution exactly if they contain an ite: their stripped form. */
  ghost predicate Replaced(root: Term, stack: seq<DFSEntry>, done: set<Term>, subst: map<Term, Term>, rank: Order) {
    && (forall e :: e in stack ==> WellFormed(e.term))
    && (forall t :: t in done ==> WellFormed(t) && (t in subst <==> !NoIte(t)))
    && (forall t :: t in subst ==> subst[t] == Strip(t, rank) && t in done)
  }

  function Substituted(t: Term, subst: map<Term, Term>): Term {
    if t in subst then subst[t] else t
  }

  /** A finished term is substituted by its stripped form. */
  lemma SubstitutedStrip(root: Term, stack: seq<DFSEntry>, done: set<Term>, subst: map<Term, Term>, rank: Order,
                         t: Term)
    requires Replaced(root, stack, done, subst, rank) && t in done
    ensures Substituted(t, subst) == Strip(t, rank)
  {
    StripNoIte(t, rank);
  }

  method NewArgs(t: Term, subst: map<Term, Term>) returns (newArgs: seq<Term>, needsChange: bool)
    ensures |newArgs| == |Args(t)| && forall i :: 0 <= i < |newArgs| ==> newArgs[i] == Substituted(Args(t)[i], subst)
    ensures needsChange <==> exists c :: c in Args(t) && c in subst
  {
    newArgs, needsChange := [], false;
    for i := 0 to |Args(t)|
      invariant |newArgs| == i && forall j :: 0 <= j < i ==> newArgs[j] == Substituted(Args(t)[j], subst)
      invariant needsChange <==> exists c :: c in Args(t)[..i] && c in subst
    {
      assert Args(t)[..i + 1] == Args(t)[..i] + [Args(t)[i]];
      newArgs := newArgs + [Substituted(Args(t)[i], subst)];
      needsChange := needsChange || Args(t)[i] in subst;
    }
    assert Args(t)[..|Args(t)|] == Args(t);
  }

  lemma ReplaceIte(root: Term, stack: seq<DFSEntry>, done: set<Term>, subst: map<Term, Term>, rank: Order)
    requires Replaced(root, stack, done, subst, rank) && stack != []
    requires stack[|stack| - 1].term.Ite? && stack[|stack| - 1].term !in done
    ensures var t := stack[|stack| - 1].term;
            Replaced(root, stack[..|stack| - 1], done + {t}, subst[t := AuxVar(t)], rank)
  {
    assert stack[|stack| - 1] in stack;
    hide WellFormed;
  }

  lemma ReplaceInner(root: Term, stack: seq<DFSEntry>, done: set<Term>, subst: map<Term, Term>, rank: Order,
                     newArgs: seq<Term>, needsChange: bool)
    requires Replaced(root, stack, done, subst, rank) && stack != []
    requires var t := stack[|stack| - 1].term;
             && !t.Ite? && t !in done && (forall c :: c in Args(t) ==> c in done)
             && |newArgs| == |Args(t)| && (forall i :: 0 <= i < |newArgs| ==>
                                           newArgs[i] == Substituted(Args(t)[i], subst))
             && (needsChange <==> exists c :: c in Args(t) && c in subst)
    ensures var t := stack[|stack| - 1].term;
            Replaced(root, stack[..|stack| - 1], done + {t},
                     if needsChange then subst[t := Rebuild(t, newArgs, rank)] else subst, rank)
  {
    var t := stack[|stack| - 1].term;
    assert stack[|stack| - 1] in stack;
    forall i | 0 <= i < |Args(t)|
      ensures newArgs[i] == Strip(Args(t)[i], rank) && (Args(t)[i] in subst <==> !NoIte(Args(t)[i]))
    {
      assert Args(t)[i] in Args(t);
      SubstitutedStrip(root, stack, done, subst, rank, Args(t)[i]);
    }
    assert newArgs == StripArgs(t, rank);
    StripUnfold(t, rank);
    ChangeIte(t, subst, needsChange);
    StripNoIte(t, rank);
    hide *;
    ReplacedWith(root, stack, done, subst, rank, if needsChange then subst[t := Rebuild(t, newArgs, rank)] else subst);
  }

  lemma ReplacedWith(root: Term, stack: seq<DFSEntry>, done: set<Term>, subst: map<Term, Term>, rank: Order,
                     subst': map<Term, Term>)
    requires Replaced(root, stack, done, subst, rank) && stack != []
    requires var t := stack[|stack| - 1].term;
             && t !in done && WellFormed(t) && subst' == if NoIte(t) then subst else subst[t := Strip(t, rank)]
    ensures Replaced(root, stack[..|stack| - 1], done + {stack[|stack| - 1].term}, subst', rank)
  {
    hide WellFormed, NoIte, Strip;
  }

  lemma ChangeIte(t: Term, subst: map<Term, Term>, needsChange: bool)
    requires !t.Ite? && (needsChange <==> exists c :: c in Args(t) && c in subst)
    requires forall i :: 0 <= i < |Args(t)| ==> (Args(t)[i] in subst <==> !NoIte(Args(t)[i]))
    ensures needsChange <==> !NoIte(t)
  {
    if needsChange {
      var c :| c in Args(t) && c in subst;
      var i :| 0 <= i < |Args(t)| && Args(t)[i] == c;
    } else {
      forall i | 0 <= i < |Args(t)| ensures NoIte(Args(t)[i]) { assert Args(t)[i] in Args(t); }
    }
  }

  lemma ReplaceNext(root: Term, stack: seq<DFSEntry>, done: set<Term>, subst: map<Term, Term>, rank: Order)
    requires Replaced(root, stack, done, subst, rank) && stack != []
    requires stack[|stack| - 1].nextChild < |Args(stack[|stack| - 1].term)|
    ensures Replaced(root, NextStack(stack, done), done, subst, rank)
  {
    var e := stack[|stack| - 1];
    assert e in stack;
    assert WellFormed(Args(e.term)[e.nextChild]);
    hide WellFormed, Strip, NoIte;
  }

  /** Replaces the topmost ites, without looking below them. */
  method ReplaceItes(root: Term, rank: Order) returns (res: Term)
    requires WellFormed(root)
    ensures res == Strip(root, rank)
  {
    var done: set<Term>, subst: map<Term, Term> := {}, map[];
    var toProcess := [DFSEntry(root, 0)];
    ghost var opens := (t: Term) => !t.Ite?;
    WalkStarts(root, opens);
    assert Replaced(root, toProcess, done, subst, rank);
    hide Walking, Replaced, Remaining, Strip, WellFormed, Args, NextStack, Rebuild;
    while |toProcess| != 0
      invariant Walking(root, toProcess, done, opens) && Replaced(root, toProcess, done, subst, rank)
      decreases Remaining(toProcess)
    {
      var e, rest := toProcess[|toProcess| - 1], toProcess[..|toProcess| - 1];
      WalkTop(root, toProcess, done, opens);
      PopProgress(toProcess);
      if e.term.Ite? {
        WalkPop(root, toProcess, done, opens);
        ReplaceIte(root, toProcess, done, subst, rank);
        subst := subst[e.term := AuxVar(e.term)];
        done, toProcess := done + {e.term}, rest;
      } else if e.nextChild < |Args(e.term)| {
        WalkNext(root, toProcess, done, opens);
        ReplaceNext(root, toProcess, done, subst, rank);
        NextProgress(toProcess, done);
        toProcess := NextStack(toProcess, done);
      } else {
        WalkArgs(root, toProcess, done, opens);
        WalkPop(root, toProcess, done, opens);
        var newArgs, needsChange := NewArgs(e.term, subst);
        ReplaceInner(root, toProcess, done, subst, rank, newArgs, needsChange);
        if needsChange { subst := subst[e.term := Rebuild(e.term, newArgs, rank)]; }
        done, toProcess := done + {e.term}, rest;
      }
    }
    WalkEnds(root, done, opens);
    SubstitutedStrip(root, [], done, subst, rank, root);
    res := Substituted(root, subst);
  }

  // ---------- switches of a formula ----------

  ghost predicate SwitchFor(sw: Term, x: Term, rank: Order) {
    exists nodes, nodeOf, leaves :: IsSwitch(sw, x, nodes, nodeOf, leaves, rank)
  }

  /** Whatever the truth values, the switch says that the ite equals the leaf reached. */
  lemma SwitchForTruth(sw: Term, x: Term, rank: Order, e: Truth)
    requires SwitchFor(sw, x, rank) && Boolean(e)
    ensures WellFormed(sw) && IsBool(sw) && (e(sw) <==> e(MkEq(x, LeafOf(x, e), rank)))
  {
    var nodes, nodeOf, leaves :| IsSwitch(sw, x, nodes, nodeOf, leaves, rank);
    SwitchTruth(sw, x, nodes, nodeOf, leaves, rank, e);
  }

  /** The switches of the first n top-level ites. */
  ghost predicate SwitchesOf(switches: seq<Term>, tops: seq<Term>, rank: Order) {
    |switches| <= |tops| && forall i :: 0 <= i < |switches| ==> SwitchFor(switches[i], tops[i], rank)
  }

  class IteToSwitch {
    const rank: Order
    var iteDag: Dag
    var switches: seq<Term>

    constructor (root: Term, rank: Order)
      requires WellFormed(root)
      ensures this.rank == rank && SwitchesOf(switches, iteDag.topLevelItes, rank)
        && |switches| == |iteDag.topLevelItes|
      ensures forall t :: t in iteDag.topLevelItes <==> TopIte(root, t) && t in Subterms(root)
    {
      this.rank := rank;
      var dag := ConstructIteDag(root);
      iteDag, switches := dag, [];
      new;
      SwitchesNone(dag.topLevelItes, rank);
      hide *;
      TopsAreSubterms(root);
      for i := 0 to |iteDag.topLevelItes|
        modifies this`switches
        invariant iteDag == dag && |switches| == i && SwitchesOf(switches, dag.topLevelItes, rank)
      {
        var tlIte := dag.topLevelItes[i];
        assert tlIte in dag.topLevelItes;
        SubtermsNested(root, tlIte);
        var sw;
        ghost var nodes, nodeOf, leaves;
        sw, nodes, nodeOf, leaves := MakeSwitch(dag, tlIte, rank);
        SwitchMade(switches, dag.topLevelItes, sw, tlIte, nodes, nodeOf, leaves, rank);
        switches := switches + [sw];
      }
    }

    /** The formula with the conjunction of all switches. */
    method Conjoin(root: Term) returns (r: Term)
      ensures r == Conjoined(root, switches, rank)
    {
      r := if |switches| == 0 then root else MkAnd([root, MkAnd(switches, rank)], rank);
    }
  }

  lemma SwitchesNone(tops: seq<Term>, rank: Order)
    ensures SwitchesOf([], tops, rank)
  {
  }

  lemma SwitchMade(switches: seq<Term>, tops: seq<Term>, sw: Term, x: Term,
                   nodes: seq<DagNode>, nodeOf: map<Term, nat>, leaves: seq<nat>, rank: Order)
    requires SwitchesOf(switches, tops, rank) && |switches| < |tops| && x == tops[|switches|]
    requires IsSwitch(sw, x, nodes, nodeOf, leaves, rank)
    ensures SwitchesOf(switches + [sw], tops, rank)
  {
    assert SwitchFor(sw, x, rank);
    hide IsSwitch, SwitchFor;
  }

  /** An ite that is asked for occurs in the formula. */
  lemma TopIsSubterm(root: Term, t: Term)
    requires TopIte(root, t)
    ensures t in Subterms(root) && t.Ite?
  {
    SelfSubterm(root);
    if t != root {
      var u :| u in Subterms(root) && Asks(u, t);
      SubtermsNested(root, u);
      AskedSubterm(u, t);
    }
  }

  lemma AskedSubterm(u: Term, t: Term)
    requires Asks(u, t)
    ensures t in Subterms(u)
  {
    if u.Ite? { assert Args(u)[0] == t; }
    var i :| 0 <= i < |Args(u)| && Args(u)[i] == t;
    SelfSubterm(t);
  }

  lemma TopsAreSubterms(root: Term)
    ensures forall t :: TopIte(root, t) ==> t in Subterms(root) && t.Ite?
  {
    forall t | TopIte(root, t) ensures t in Subterms(root) && t.Ite? {
      TopIsSubterm(root, t);
    }
  }

  function Conjoined(root: Term, switches: seq<Term>, rank: Order): Term {
    if switches == [] then root else MkAnd([root, MkAnd(switches, rank)], rank)
  }

  /** The conjoined formula says that the formula and every switch hold, whatever the truth values. */
  lemma ConjoinedTruth(root: Term, switches: seq<Term>, tops: seq<Term>, rank: Order, e: Truth)
    requires WellFormed(root) && IsBool(root) && SwitchesOf(switches, tops, rank) && |switches| == |tops| && Boolean(e)
    ensures WellFormed(Conjoined(root, switches, rank)) && IsBool(Conjoined(root, switches, rank))
    ensures e(Conjoined(root, switches, rank)) <==>
              e(root) && forall i :: 0 <= i < |tops| ==> e(MkEq(tops[i], LeafOf(tops[i], e), rank))
  {
    hide Boolean, SwitchFor, WellFormed;
    forall i | 0 <= i < |switches|
      ensures WellFormed(switches[i]) && IsBool(switches[i])
      ensures e(switches[i]) <==> e(MkEq(tops[i], LeafOf(tops[i], e), rank))
    {
      SwitchForTruth(switches[i], tops[i], rank, e);
    }
    if switches != [] {
      CasesJoin(switches, rank, e);
      PairTruth(root, MkAnd(switches, rank), rank, e);
    }
  }

  // ---------- the rewriting ----------

  /** What the rewriting of a formula promises. */
  ghost predicate Rewritten(root: Term, r: Term) {
    && WellFormed(r) && IsBool(r)
    && (forall m: Model :: Holds(root, m) ==> Holds(r, WithAux(m)))
    && (forall m: Model :: Holds(r, m) ==> Holds(root, m))
  }

  /** Every auxiliary variable of r belongs to an ite of the formula, and has its value in every model of r. */
  ghost predicate Constrained(root: Term, r: Term) {
    && (forall x :: x in Vars(r) ==> x in Vars(root) || x in AuxVars(TopMostOf(root)))
    && (forall t, m: Model :: t in TopMostOf(root) && Holds(r, m) ==> Eval(AuxVar(t), m) == Eval(t, m))
  }

  /** The ites of a formula that get a switch, as a set. */
  ghost function TopMostOf(root: Term): set<Term> {
    set t | t in Subterms(root) && TopIte(root, t)
  }

  /** The equation of a top-level ite with the leaf reached, under stripping. */
  lemma StrippedSwitch(x: Term, rank: Order, m: Model)
    requires WellFormed(x) && x.Ite?
    ensures var e := Stripped(m, rank);
            e(MkEq(x, LeafOf(x, e), rank)) <==> Switched(x, rank, m)
  {
    var e := Stripped(m, rank);
    LeafPath(x, LeafOf(x, e), e);
    BranchSort(x, LeafOf(x, e));
    hide *;
    StrippedEq(x, LeafOf(x, e), rank, m);
    StripIte(x, LeafOf(x, e), rank, m);
  }

  lemma StripIte(x: Term, v: Term, rank: Order, m: Model)
    requires x.Ite? && v == LeafOf(x, Stripped(m, rank))
    ensures Holds(Strip(MkEq(x, v, rank), rank), m) == Stripped(m, rank)(MkEq(x, v, rank))
    ensures Eval(Strip(x, rank), m) == Eval(Strip(v, rank), m) <==> Switched(x, rank, m)
  {
  }

  /** The stripped conjunction says: the stripped formula holds and every variable is switched. */
  lemma StrippedConjunction(root: Term, switches: seq<Term>, tops: seq<Term>, rank: Order, m: Model)
    requires WellFormed(root) && IsBool(root) && SwitchesOf(switches, tops, rank) && |switches| == |tops|
    requires forall t :: t in tops ==> t in Subterms(root) && t.Ite?
    ensures WellFormed(Conjoined(root, switches, rank)) && IsBool(Conjoined(root, switches, rank))
    ensures Holds(Strip(Conjoined(root, switches, rank), rank), m) <==>
              Holds(Strip(root, rank), m) && forall t :: t in tops ==> Switched(t, rank, m)
  {
    var e := Stripped(m, rank);
    StrippedBoolean(m, rank);
    StrippedIs(root, rank, m);
    StrippedIs(Conjoined(root, switches, rank), rank, m);
    hide Boolean, SwitchesOf, Stripped, Switched, Strip, LeafOf, WellFormed, Conjoined;
    ConjoinedTruth(root, switches, tops, rank, e);
    forall i | 0 <= i < |tops| ensures e(MkEq(tops[i], LeafOf(tops[i], e), rank)) <==> Switched(tops[i], rank, m) {
      assert tops[i] in tops;
      SubtermsNested(root, tops[i]);
      StrippedSwitch(tops[i], rank, m);
    }
    assert (forall t :: t in tops ==> Switched(t, rank, m)) <==> forall i :: 0 <= i < |tops| ==>
      Switched(tops[i], rank, m);
  }

  lemma StrippedIs(t: Term, rank: Order, m: Model)
    ensures Stripped(m, rank)(t) == Holds(Strip(t, rank), m)
  {
  }

  /** A model of the formula, with the variables added, satisfies the stripped conjunction. */
  lemma ExtendsModel(root: Term, switches: seq<Term>, tops: seq<Term>, rank: Order, m: Model)
    requires WellFormed(root) && IsBool(root) && NoAux(root) && SwitchesOf(switches, tops, rank) && |switches| == |tops|
    requires forall t :: t in tops ==> t in Subterms(root) && t.Ite?
    requires Holds(root, m)
    ensures Holds(Strip(Conjoined(root, switches, rank), rank), WithAux(m))
  {
    var n := WithAux(m);
    StripExtends(root, rank, m);
    forall t | t in tops ensures Switched(t, rank, n) {
      SubtermsNested(root, t);
      SwitchedInModel(t, rank, m);
    }
    StrippedConjunction(root, switches, tops, rank, n);
  }

  lemma SwitchedInModel(t: Term, rank: Order, m: Model)
    requires WellFormed(t) && t.Ite? && NoAux(t)
    ensures Switched(t, rank, WithAux(m))
  {
    var n := WithAux(m);
    var e := Stripped(n, rank);
    forall u | u in Branches(t) && u.Ite? ensures e(u.cond) == Holds(u.cond, m) {
      BranchValue(t, u, rank, m);
    }
    LeavesSame(t, e, InModel(m));
    LeafValue(t, m);
    var v := LeafOf(t, e);
    LeafPath(t, v, e);
    BranchLeafValue(t, v, rank, m);
    AuxValue(t, m);
    AuxApart(t, m);
  }

  lemma BranchValue(t: Term, u: Term, rank: Order, m: Model)
    requires WellFormed(t) && NoAux(t) && u in Branches(t) && u.Ite?
    ensures Holds(Strip(u.cond, rank), WithAux(m)) == Holds(u.cond, m)
  {
    BranchesNested(t, u);
    SubtermsNested(t, u);
    assert Args(u)[0] == u.cond;
    VarsArgSubset(u, 0);
    StripExtends(u.cond, rank, m);
  }

  lemma BranchLeafValue(t: Term, v: Term, rank: Order, m: Model)
    requires WellFormed(t) && NoAux(t) && v in Branches(t)
    ensures Eval(Strip(v, rank), WithAux(m)) == Eval(v, m)
  {
    BranchesNested(t, v);
    SubtermsNested(t, v);
    StripExtends(v, rank, m);
  }

  /** A model of the stripped conjunction satisfies the formula and gives every variable its ite's value. */
  lemma RestrictsModel(root: Term, switches: seq<Term>, tops: seq<Term>, rank: Order, m: Model)
    requires WellFormed(root) && IsBool(root) && SwitchesOf(switches, tops, rank) && |switches| == |tops|
    requires forall t :: t in tops <==> TopIte(root, t) && t in Subterms(root)
    requires Holds(Strip(Conjoined(root, switches, rank), rank), m)
    ensures Holds(root, m)
    ensures forall t :: t in TopMostOf(root) ==> Eval(AuxVar(t), m) == Eval(t, m)
  {
    TopsAreSubterms(root);
    StrippedConjunction(root, switches, tops, rank, m);
    forall t | t in TopMostOf(root) ensures Eval(AuxVar(t), m) == Eval(t, m) {
      SwitchedValue(root, t, rank, m);
    }
    forall x | x in TopMost(root) ensures Eval(AuxVar(x), m) == Eval(x, m) {
      SelfSubterm(root);
      TopMostIsTop(root, root, x);
      TopMostSubterm(root, x);
    }
    StripEval(root, rank, m);
  }

  /** The variables of the stripped conjunction are the formula's and those of the switched ites. */
  lemma ConjunctionVars(root: Term, switches: seq<Term>, tops: seq<Term>, rank: Order)
    requires WellFormed(root) && IsBool(root) && SwitchesOf(switches, tops, rank) && |switches| == |tops|
    requires forall t :: t in tops <==> TopIte(root, t) && t in Subterms(root)
    ensures TopMost(Conjoined(root, switches, rank)) <= TopMostOf(root)
  {
    var xs := TopMostOf(root);
    forall x | x in TopMost(root) ensures x in xs {
      SelfSubterm(root);
      TopMostIsTop(root, root, x);
      TopMostSubterm(root, x);
    }
    ModelBoolean(AnyModel);
    forall i | 0 <= i < |switches|
      ensures WellFormed(switches[i]) && IsBool(switches[i]) && TopMost(switches[i]) <= xs
    {
      assert tops[i] in tops;
      SwitchForTruth(switches[i], tops[i], rank, InModel(AnyModel));
      var nodes, nodeOf, leaves :| IsSwitch(switches[i], tops[i], nodes, nodeOf, leaves, rank);
      SwitchTopMost(switches[i], root, tops[i], nodes, nodeOf, leaves, rank, xs);
    }
    if switches != [] {
      hide *;
      SwitchesWithin(root, switches, rank, xs);
    }
  }

  lemma SwitchesWithin(root: Term, switches: seq<Term>, rank: Order, xs: set<Term>)
    requires WellFormed(root) && IsBool(root) && TopMost(root) <= xs && switches != []
    requires forall i :: 0 <= i < |switches| ==>
      WellFormed(switches[i]) && IsBool(switches[i]) && TopMost(switches[i]) <= xs
    ensures TopMost(Conjoined(root, switches, rank)) <= xs
  {
    assert AllBool(switches);
    NaryTopMost(switches, rank, xs);
    MkAndMeaning(switches, rank, AnyModel);
    PairTopMostWithin(root, MkAnd(switches, rank), rank, xs);
  }

  // ---------- the variables of a switch ----------

  lemma NaryVars(ts: seq<Term>, rank: Order, xs: set<Term>)
    requires AllBool(ts) && forall i :: 0 <= i < |ts| ==> Vars(ts[i]) <= xs
    ensures Vars(MkAnd(ts, rank)) <= xs && Vars(MkOr(ts, rank)) <= xs
  {
    MkAndMeaning(ts, rank, AnyModel);
    MkOrMeaning(ts, rank, AnyModel);
  }

  lemma {:induction false} PathVars(nodes: seq<DagNode>, nodeOf: map<Term, nat>, x: Term, c: nat, rank: Order)
    requires SubDag(nodes, nodeOf, x) && c < |nodes|
    ensures Vars(PathCond(nodes, c, rank)) <= Vars(x)
    decreases |nodes| - c
  {
    if ParentsOf(nodes, c) == [] {
      assert AllBool([True]) && Vars(True) == {};
      NaryVars([True], rank, Vars(x));
    } else {
      var ts, ps := EdgeConds(nodes, c, rank), ParentsOf(nodes, c);
      forall k | 0 <= k < |ts| ensures WellFormed(ts[k]) && IsBool(ts[k]) && Vars(ts[k]) <= Vars(x) {
        PathVars(nodes, nodeOf, x, ps[k].nr, rank);
        ModelBoolean(AnyModel);
        PathExact(nodes, nodeOf, x, ps[k].nr, rank, InModel(AnyModel));
        EdgeVars(nodes, nodeOf, x, ps[k], PathCond(nodes, ps[k].nr, rank), rank);
      }
      JoinVars(nodes, c, ts, rank, Vars(x));
    }
  }

  lemma JoinVars(nodes: seq<DagNode>, c: nat, ts: seq<Term>, rank: Order, xs: set<Term>)
    requires c < |nodes| && ts == EdgeConds(nodes, c, rank) && ParentsOf(nodes, c) != []
    requires forall k :: 0 <= k < |ts| ==> WellFormed(ts[k]) && IsBool(ts[k]) && Vars(ts[k]) <= xs
    ensures Vars(PathCond(nodes, c, rank)) <= xs
  {
    assert PathCond(nodes, c, rank) == MkOr(ts, rank);
    hide PathCond, EdgeConds, Vars, WellFormed;
    assert AllBool(ts);
    NaryVars(ts, rank, xs);
  }

  lemma EdgeVars(nodes: seq<DagNode>, nodeOf: map<Term, nat>, x: Term, p: Parent, cond: Term, rank: Order)
    requires SubDag(nodes, nodeOf, x) && p.nr < |nodes| && nodes[p.nr].Inner?
    requires WellFormed(cond) && IsBool(cond) && Vars(cond) <= Vars(x)
    ensures var t := EdgeCond(nodes, p, cond, rank); WellFormed(t) && IsBool(t) && Vars(t) <= Vars(x)
  {
    SubDagNode(nodes, nodeOf, x, p.nr);
    var u := nodes[p.nr].term;
    BranchVars(x, u);
    EdgeCondIs(nodes, p, cond, rank);
    hide *;
    PairVarsWithin(cond, if p.sign then u.cond else MkNot(u.cond), rank, Vars(x));
  }

  /** The condition of an ite below x, and its negation, have variables of x only. */
  lemma BranchVars(x: Term, u: Term)
    requires WellFormed(x) && u in Branches(x) && u.Ite?
    ensures WellFormed(u.cond) && IsBool(u.cond) && Vars(u.cond) <= Vars(x)
    ensures WellFormed(MkNot(u.cond)) && IsBool(MkNot(u.cond)) && Vars(MkNot(u.cond)) <= Vars(x)
  {
    BranchesNested(x, u);
    SubtermsNested(x, u);
    assert Args(u)[0] == u.cond;
    VarsArgSubset(u, 0);
    MkNotMeaning(u.cond, AnyModel);
  }

  lemma PairVarsWithin(a: Term, b: Term, rank: Order, xs: set<Term>)
    requires WellFormed(a) && IsBool(a) && WellFormed(b) && IsBool(b) && Vars(a) <= xs && Vars(b) <= xs
    ensures var t := MkAnd([a, b], rank); WellFormed(t) && IsBool(t) && Vars(t) <= xs
  {
    var ts := [a, b];
    assert AllBool(ts);
    NaryVars(ts, rank, xs);
    MkAndMeaning(ts, rank, AnyModel);
  }

  lemma CaseVars(nodes: seq<DagNode>, nodeOf: map<Term, nat>, x: Term, l: nat, rank: Order)
    requires SubDag(nodes, nodeOf, x) && l < |nodes| && nodes[l].Leaf?
    ensures var t := MkImpl(PathCond(nodes, l, rank), MkEq(x, nodes[l].term, rank), rank);
            WellFormed(t) && IsBool(t) && Vars(t) <= Vars(x)
  {
    var c, v := PathCond(nodes, l, rank), nodes[l].term;
    SubDagNode(nodes, nodeOf, x, l);
    BranchesNested(x, v);
    SubtermsNested(x, v);
    PathVars(nodes, nodeOf, x, l, rank);
    ModelBoolean(AnyModel);
    PathExact(nodes, nodeOf, x, l, rank, InModel(AnyModel));
    BranchSort(x, v);
    hide Vars, PathCond, WellFormed;
    MkEqMeaning(x, v, rank, AnyModel);
    MkImplMeaning(c, MkEq(x, v, rank), rank, AnyModel);
  }

  lemma SwitchVars(sw: Term, x: Term, rank: Order)
    requires SwitchFor(sw, x, rank)
    ensures Vars(sw) <= Vars(x) && WellFormed(sw) && IsBool(sw)
  {
    var nodes, nodeOf, leaves :| IsSwitch(sw, x, nodes, nodeOf, leaves, rank);
    var cvs := CondValsFrom(nodes, leaves, 0, rank);
    var ts := SwitchCases(x, cvs, rank);
    hide PathCond;
    forall i | 0 <= i < |ts| ensures WellFormed(ts[i]) && IsBool(ts[i]) && Vars(ts[i]) <= Vars(x) {
      var l := CondValLeaf(nodes, leaves, 0, rank, i);
      CaseVars(nodes, nodeOf, x, l, rank);
    }
    assert AllBool(ts);
    hide Vars, SwitchCases, WellFormed;
    NaryVars(ts, rank, Vars(x));
    MkAndMeaning(ts, rank, AnyModel);
  }

  lemma ConjoinedVars(root: Term, switches: seq<Term>, tops: seq<Term>, rank: Order)
    requires WellFormed(root) && IsBool(root) && SwitchesOf(switches, tops, rank) && |switches| == |tops|
    requires forall t :: t in tops ==> t in Subterms(root)
    ensures Vars(Conjoined(root, switches, rank)) <= Vars(root)
  {
    forall i | 0 <= i < |switches|
      ensures WellFormed(switches[i]) && IsBool(switches[i]) && Vars(switches[i]) <= Vars(root)
    {
      assert tops[i] in tops;
      SubtermsNested(root, tops[i]);
      SwitchVars(switches[i], tops[i], rank);
    }
    if switches != [] {
      hide *;
      SwitchVarsWithin(root, switches, rank, Vars(root));
    }
  }

  lemma SwitchVarsWithin(root: Term, switches: seq<Term>, rank: Order, xs: set<Term>)
    requires WellFormed(root) && IsBool(root) && Vars(root) <= xs && switches != []
    requires forall i :: 0 <= i < |switches| ==>
      WellFormed(switches[i]) && IsBool(switches[i]) && Vars(switches[i]) <= xs
    ensures Vars(Conjoined(root, switches, rank)) <= xs
  {
    assert AllBool(switches);
    NaryVars(switches, rank, xs);
    MkAndMeaning(switches, rank, AnyModel);
    PairVarsWithin(root, MkAnd(switches, rank), rank, xs);
  }

  // ---------- IteHandler ----------

  /** The switches of a formula. */
  ghost predicate AllSwitches(root: Term, switches: seq<Term>, tops: seq<Term>, rank: Order) {
    && SwitchesOf(switches, tops, rank) && |switches| == |tops|
    && (forall t :: t in tops <==> TopIte(root, t) && t in Subterms(root))
  }

  lemma RewrittenStrip(root: Term, switches: seq<Term>, tops: seq<Term>, rank: Order)
    requires WellFormed(root) && IsBool(root) && NoAux(root) && AllSwitches(root, switches, tops, rank)
    ensures WellFormed(Conjoined(root, switches, rank))
    ensures var r := Strip(Conjoined(root, switches, rank), rank);
            Rewritten(root, r) && Constrained(root, r) && NoIte(r)
  {
    var c := Conjoined(root, switches, rank);
    TopsAreSubterms(root);
    ModelBoolean(AnyModel);
    ConjoinedTruth(root, switches, tops, rank, InModel(AnyModel));
    StripShape(c, rank);
    ConjoinedVars(root, switches, tops, rank);
    ConjunctionVars(root, switches, tops, rank);
    hide *;
    RewrittenModels(root, switches, tops, rank);
    RewrittenBoth(root, Strip(c, rank), c);
  }

  lemma RewrittenModels(root: Term, switches: seq<Term>, tops: seq<Term>, rank: Order)
    requires WellFormed(root) && IsBool(root) && NoAux(root) && AllSwitches(root, switches, tops, rank)
    ensures var r := Strip(Conjoined(root, switches, rank), rank);
            && (forall m: Model :: Holds(root, m) ==> Holds(r, WithAux(m)))
            && (forall m: Model :: Holds(r, m) ==> Holds(root, m))
            && (forall t, m: Model :: t in TopMostOf(root) && Holds(r, m) ==> Eval(AuxVar(t), m) == Eval(t, m))
  {
    TopsAreSubterms(root);
    var r := Strip(Conjoined(root, switches, rank), rank);
    hide TopIte, Subterms, SwitchesOf, Strip, Conjoined, WellFormed, NoAux, Eval, WithAux, AuxVar, TopMostOf;
    forall m: Model | Holds(root, m) ensures Holds(r, WithAux(m)) {
      ExtendsModel(root, switches, tops, rank, m);
    }
    forall m: Model | Holds(r, m)
      ensures Holds(root, m) && forall t :: t in TopMostOf(root) ==> Eval(AuxVar(t), m) == Eval(t, m)
    {
      RestrictsModel(root, switches, tops, rank, m);
    }
  }

  lemma RewrittenBoth(root: Term, r: Term, c: Term)
    requires WellFormed(r) && SortOf(r) == Bool
    requires (forall m: Model :: Holds(root, m) ==> Holds(r, WithAux(m)))
      && (forall m: Model :: Holds(r, m) ==> Holds(root, m))
    requires forall t, m: Model :: t in TopMostOf(root) && Holds(r, m) ==> Eval(AuxVar(t), m) == Eval(t, m)
    requires Vars(r) <= Vars(c) + AuxVars(TopMost(c)) && Vars(c) <= Vars(root) && TopMost(c) <= TopMostOf(root)
    ensures Rewritten(root, r) && Constrained(root, r)
  {
    hide Vars, TopMost, TopMostOf, Eval, WellFormed;
    forall x | x in AuxVars(TopMost(c)) ensures x in AuxVars(TopMostOf(root)) {
    }
  }

  // ---------- when the switches change nothing ----------

  lemma {:induction false} HasIte(t: Term, u: Term)
    requires u in Subterms(t) && u.Ite?
    ensures !NoIte(t)
  {
    if u != t {
      var i :| 0 <= i < |Args(t)| && u in Subterms(Args(t)[i]);
      HasIte(Args(t)[i], u);
    }
  }

  lemma {:induction false} SomeTopMost(t: Term)
    requires !NoIte(t)
    ensures exists x :: x in TopMost(t)
  {
    if t.Ite? {
      assert t in TopMost(t);
    } else {
      var i :| 0 <= i < |Args(t)| && !NoIte(Args(t)[i]);
      SomeTopMost(Args(t)[i]);
      var x :| x in TopMost(Args(t)[i]);
      assert x in TopMost(t);
    }
  }

  /** A formula has a switch exactly if it has an ite. */
  lemma SwitchesForItes(root: Term, switches: seq<Term>, tops: seq<Term>, rank: Order)
    requires AllSwitches(root, switches, tops, rank)
    ensures switches == [] <==> NoIte(root)
  {
    TopsAreSubterms(root);
    SelfSubterm(root);
    if NoIte(root) {
      forall t | t in tops ensures false { HasIte(root, t); }
      NoTops(tops);
    } else {
      SomeTopMost(root);
      var x :| x in TopMost(root);
      TopMostIsTop(root, root, x);
      TopMostSubterm(root, x);
      assert x in tops;
    }
  }

  lemma NoTops(tops: seq<Term>)
    requires forall t :: t !in tops
    ensures tops == []
  {
    assert tops == [] || HeadOf(tops) in tops;
  }

  function HeadOf(ts: seq<Term>): Term {
    if ts == [] then True else ts[0]
  }

  /** A model in which the ite's variable has another value. */
  ghost function Otherwise(m: Model, x: Term, v: Value): Model {
    m.(bools := (n: Name) => if n == Aux(x) then v != B(true) else m.bools(n),
       elems := (n: Name, s: Sort) => if n == Aux(x) then (if v.E? then v.e + 1 else 0) else m.elems(n, s))
  }

  lemma OtherwiseDiffers(m: Model, x: Term, v: Value)
    requires v.B? <==> SortOf(x).Bool?
    ensures Eval(AuxVar(x), Otherwise(m, x, v)) != v
  {
  }

  /** A stripped term below the ite does not see the change. */
  lemma OtherwiseBelow(m: Model, x: Term, v: Value, t: Term, rank: Order)
    requires WellFormed(t) && NoAux(t) && Size(t) < Size(x)
    ensures Eval(Strip(t, rank), Otherwise(m, x, v)) == Eval(Strip(t, rank), m)
  {
    StripShape(t, rank);
    var n := Otherwise(m, x, v);
    assert n.preds == m.preds && n.funs == m.funs;
    hide Strip, Vars, Eval, Otherwise, TopMost, AuxVars, WellFormed, NoAux;
    forall y | y in Vars(Strip(t, rank)) ensures Eval(y, n) == Eval(y, m) {
      OtherwiseAt(m, x, v, t, y);
    }
    EvalAgree(Strip(t, rank), m, n);
  }

  lemma OtherwiseAt(m: Model, x: Term, v: Value, t: Term, y: Term)
    requires NoAux(t) && Size(t) < Size(x) && y in Vars(t) + AuxVars(TopMost(t))
    ensures Eval(y, Otherwise(m, x, v)) == Eval(y, m)
  {
    hide Vars, TopMost;
    if y !in Vars(t) {
      var z :| z in TopMost(t) && y == AuxVar(z);
      TopMostSubterm(t, z);
      SubtermSize(t, z);
    }
  }

  lemma BelowIte(x: Term, u: Term)
    requires WellFormed(x) && NoAux(x) && x.Ite? && u in Branches(x)
    ensures u.Ite? ==> WellFormed(u.cond) && NoAux(u.cond) && Size(u.cond) < Size(x)
    ensures !u.Ite? ==> WellFormed(u) && NoAux(u) && Size(u) < Size(x)
  {
    BranchesNested(x, u);
    SubtermsNested(x, u);
    if u.Ite? {
      SelfSubterm(x);
      BranchCondition(x, x, u);
      assert Args(u)[0] == u.cond;
      VarsArgSubset(u, 0);
    } else {
      BranchSize(x, u);
    }
  }

  /** A switch is not valid: its ite's variable may have any value. */
  lemma SwitchCanFail(sw: Term, x: Term, rank: Order) returns (m: Model)
    requires SwitchFor(sw, x, rank) && WellFormed(x) && x.Ite? && NoAux(x)
    ensures !Holds(Strip(sw, rank), m)
  {
    var e0 := Stripped(AnyModel, rank);
    var v := LeafOf(x, e0);
    LeafPath(x, v, e0);
    var w := Eval(Strip(v, rank), AnyModel);
    m := Otherwise(AnyModel, x, w);
    var e := Stripped(m, rank);
    forall u | u in Branches(x) && u.Ite? ensures e0(u.cond) == e(u.cond) {
      BelowIte(x, u);
      OtherwiseBelow(AnyModel, x, w, u.cond, rank);
    }
    LeavesSame(x, e0, e);
    BelowIte(x, v);
    OtherwiseBelow(AnyModel, x, w, v, rank);
    LeafSort(x, v, rank, w);
    OtherwiseDiffers(AnyModel, x, w);
    hide *;
    SwitchFails(sw, x, rank, m);
  }

  lemma LeafSort(x: Term, v: Term, rank: Order, w: Value)
    requires WellFormed(x) && v in Branches(x) && w == Eval(Strip(v, rank), AnyModel)
    ensures w.B? <==> SortOf(x).Bool?
  {
    BranchSort(x, v);
    StripShape(v, rank);
    EvalSort(Strip(v, rank), AnyModel);
  }

  lemma SwitchFails(sw: Term, x: Term, rank: Order, m: Model)
    requires SwitchFor(sw, x, rank) && WellFormed(x) && x.Ite?
    requires Eval(AuxVar(x), m) != Eval(Strip(LeafOf(x, Stripped(m, rank)), rank), m)
    ensures !Holds(Strip(sw, rank), m)
  {
    StrippedBoolean(m, rank);
    StrippedIs(sw, rank, m);
    SwitchForTruth(sw, x, rank, Stripped(m, rank));
    StrippedSwitch(x, rank, m);
  }

  /** The conjunction of the switches is not true. */
  lemma SwitchesCanFail(root: Term, switches: seq<Term>, tops: seq<Term>, rank: Order)
    requires WellFormed(root) && NoAux(root) && AllSwitches(root, switches, tops, rank) && switches != []
    ensures AllBool(switches) && WellFormed(MkAnd(switches, rank)) && IsBool(MkAnd(switches, rank))
    ensures MkAnd(switches, rank) != True
  {
    var x := tops[0];
    assert x in tops;
    TopsAreSubterms(root);
    SubtermsNested(root, x);
    var m := SwitchCanFail(switches[0], x, rank);
    forall i | 0 <= i < |switches| ensures WellFormed(switches[i]) && IsBool(switches[i]) {
      ModelBoolean(AnyModel);
      SwitchForTruth(switches[i], tops[i], rank, InModel(AnyModel));
    }
    StrippedBoolean(m, rank);
    StrippedIs(switches[0], rank, m);
    StrippedTrue(rank, m);
    StrippedIs(True, rank, m);
    CasesJoin(switches, rank, Stripped(m, rank));
  }

  /**
   Conjoining the switches gives the formula back exactly if the formula has no ite or is
   itself the conjunction of its switches.
   */
  lemma ConjoinedSame(root: Term, switches: seq<Term>, tops: seq<Term>, rank: Order)
    requires WellFormed(root) && IsBool(root) && NoAux(root) && AllSwitches(root, switches, tops, rank)
    ensures Conjoined(root, switches, rank) == root <==> NoIte(root) || MkAnd(switches, rank) == root
  {
    SwitchesForItes(root, switches, tops, rank);
    if switches != [] {
      SwitchesCanFail(root, switches, tops, rank);
      assert IsConstant(root) ==> NoIte(root);
      hide *;
      PairIsFirst(root, MkAnd(switches, rank), rank);
      ConjoinedIs(root, switches, rank);
    } else {
      hide *;
      ConjoinedIs(root, switches, rank);
    }
  }

  lemma ConjoinedIs(root: Term, switches: seq<Term>, rank: Order)
    ensures Conjoined(root, switches, rank) == if switches == [] then root
      else MkAnd([root, MkAnd(switches, rank)], rank)
  {
  }

  /** A formula that is returned as it is has its own models. */
  lemma RewrittenSelf(root: Term)
    requires WellFormed(root) && IsBool(root) && NoAux(root)
    ensures Rewritten(root, root)
  {
    forall m: Model | Holds(root, m) ensures Holds(root, WithAux(m)) {
      AuxApart(root, m);
    }
  }

  /** The formula is its conjunction with all switches, with the ites replaced, or the root if that is it already. */
  ghost predicate Eliminated(root: Term, r: Term, rank: Order) {
    exists switches, tops :: EliminatedBy(root, r, switches, tops, rank)
  }

  ghost predicate EliminatedBy(root: Term, r: Term, switches: seq<Term>, tops: seq<Term>, rank: Order) {
    && AllSwitches(root, switches, tops, rank) && var c := Conjoined(root, switches, rank);
    r == if c == root then root else Strip(c, rank)
  }

  lemma EliminatedAgain(root: Term, r: Term, switches: seq<Term>, tops: seq<Term>, rank: Order)
    requires AllSwitches(root, switches, tops, rank)
    requires r == if Conjoined(root, switches, rank) == root then root else Strip(Conjoined(root, switches, rank), rank)
    ensures Eliminated(root, r, rank)
  {
    hide AllSwitches, Conjoined, Strip;
    assert EliminatedBy(root, r, switches, tops, rank);
  }

  /**
   Eliminates the ites of a formula: models of the formula extend to models of the result by
   the values of the ites, and models of the result are models of the formula. The result has
   an ite exactly if the formula has one and is itself the conjunction of its switches, and is
   then the formula; otherwise its new variables are constrained.
   */
  method Rewrite(root: Term, rank: Order) returns (r: Term, ghost switches: seq<Term>, ghost tops: seq<Term>)
    requires WellFormed(root) && IsBool(root) && NoAux(root)
    ensures Rewritten(root, r) && AllSwitches(root, switches, tops, rank)
    ensures NoIte(r) <==> NoIte(root) || MkAnd(switches, rank) != root
    ensures if NoIte(root) || MkAnd(switches, rank) == root then r == root else Constrained(root, r)
    ensures r == if Conjoined(root, switches, rank) == root then root else Strip(Conjoined(root, switches, rank), rank)
  {
    var switching := new IteToSwitch(root, rank);
    switches, tops := switching.switches, switching.iteDag.topLevelItes;
    var newRoot := switching.Conjoin(root);
    RewrittenStrip(root, switches, tops, rank);
    ConjoinedSame(root, switches, tops, rank);
    if newRoot == root {
      RewrittenSelf(root);
      return root, switches, tops;
    }
    hide Rewritten, Constrained, NoIte, Strip;
    r := ReplaceItes(newRoot, rank);
  }
}
