/**
 Terms of the formula language and the simplifying constructors of Logic.

 Terms are hash-consed in the original, so equality of references is structural equality
 here. The order of references, which decides the order of arguments, is a parameter.
 */
module Terms {
  import opened Sequences

  datatype Sort = Bool | Uninterpreted(id: nat)

  /** User symbols, the auxiliary variable of an ite term, and the guard of a frame. */
  datatype Name = User(s: string) | Aux(ite: Term) | Guard(frame: nat)

  datatype Term =
    | True
    | False
    | Var(name: Name, sort: Sort)
    | Not(arg: Term)
    | And(args: seq<Term>)
    | Or(args: seq<Term>)
    | Xor(lhs: Term, rhs: Term)
    | Eq(lhs: Term, rhs: Term)
    | Ite(cond: Term, thn: Term, els: Term)
    | App(fun: string, args: seq<Term>, sort: Sort)

  function SortOf(t: Term): Sort {
    match t
    case Var(_, s) => s
    case App(_, _, s) => s
    case Ite(_, a, _) => SortOf(a)
    case _ => Bool
  }

  predicate IsBool(t: Term) {
    SortOf(t) == Bool
  }

  predicate IsConstant(t: Term) {
    t.True? || t.False?
  }

  /** The direct arguments of a term, in order. */
  function Args(t: Term): (r: seq<Term>)
    ensures forall i :: 0 <= i < |r| ==> r[i] < t
  {
    match t
    case Not(a) => [a]
    case And(xs) => xs
    case Or(xs) => xs
    case Xor(a, b) => [a, b]
    case Eq(a, b) => [a, b]
    case Ite(c, a, b) => [c, a, b]
    case App(_, xs, _) => xs
    case _ => []
  }

  /** What the argument sorts must be, and the shapes the constructors never build. */
  predicate WellFormedHere(t: Term) {
    match t
    case Not(a) => IsBool(a) && !a.Not? && !IsConstant(a)
    case And(xs) => |xs| >= 2 && forall i :: 0 <= i < |xs| ==> IsBool(xs[i])
    case Or(xs) => |xs| >= 2 && forall i :: 0 <= i < |xs| ==> IsBool(xs[i])
    case Xor(a, b) => IsBool(a) && IsBool(b) && !IsConstant(a) && !IsConstant(b) && a != b && a != MkNot(b)
    case Eq(a, b) => SortOf(a) == SortOf(b) && !IsConstant(a) && !IsConstant(b)
    case Ite(c, a, b) => IsBool(c) && SortOf(a) == SortOf(b)
    case App(_, xs, _) => |xs| > 0
    case _ => true
  }

  predicate WellFormed(t: Term) {
    WellFormedHere(t) && forall i :: 0 <= i < |Args(t)| ==> WellFormed(Args(t)[i])
  }

  predicate AllBool(ts: seq<Term>) {
    forall i :: 0 <= i < |ts| ==> WellFormed(ts[i]) && IsBool(ts[i])
  }

  // ---------- meaning ----------

  datatype Value = B(b: bool) | E(e: int)

  /** An interpretation of variables, uninterpreted predicates and uninterpreted functions. */
  datatype Model = Model(bools: Name -> bool, elems: (Name, Sort) -> int,
                         preds: (string, seq<Value>) -> bool, funs: (string, Sort, seq<Value>) -> int)

  const AnyModel := Model(_ => false, (_, _) => 0, (_, _) => false, (_, _, _) => 0)

  ghost function Eval(t: Term, m: Model): Value {
    match t
    case True => B(true)
    case False => B(false)
    case Var(n, s) => if s.Bool? then B(m.bools(n)) else E(m.elems(n, s))
    case Not(a) => B(Eval(a, m) != B(true))
    case And(xs) => B(forall i :: 0 <= i < |xs| ==> Eval(xs[i], m) == B(true))
    case Or(xs) => B(exists i :: 0 <= i < |xs| && Eval(xs[i], m) == B(true))
    case Xor(a, b) => B((Eval(a, m) == B(true)) != (Eval(b, m) == B(true)))
    case Eq(a, b) => B(Eval(a, m) == Eval(b, m))
    case Ite(c, a, b) => if Eval(c, m) == B(true) then Eval(a, m) else Eval(b, m)
    case App(f, xs, s) =>
      var vals := seq(|xs|, i requires 0 <= i < |xs| => Eval(xs[i], m));
      if s.Bool? then B(m.preds(f, vals)) else E(m.funs(f, s, vals))
  }

  ghost predicate Holds(t: Term, m: Model) {
    Eval(t, m) == B(true)
  }

  lemma {:induction false} EvalSort(t: Term, m: Model)
    requires WellFormed(t)
    ensures Eval(t, m).B? <==> IsBool(t)
  {
    if t.Ite? {
      assert Args(t)[1] == t.thn && Args(t)[2] == t.els;
      EvalSort(t.thn, m);
      EvalSort(t.els, m);
    }
  }

  // ---------- variables ----------

  function Vars(t: Term): set<Term> {
    if t.Var? then {t}
    else set i, x | 0 <= i < |Args(t)| && x in Vars(Args(t)[i]) :: x
  }

  function VarsOfAll(ts: seq<Term>): set<Term> {
    set i, x | 0 <= i < |ts| && x in Vars(ts[i]) :: x
  }

  lemma VarsOfArgs(t: Term)
    requires !t.Var?
    ensures Vars(t) == VarsOfAll(Args(t))
  {
  }

  lemma VarsArgSubset(t: Term, i: nat)
    requires i < |Args(t)|
    ensures Vars(Args(t)[i]) <= Vars(t)
  {
  }

  /** Two models that agree on a term's variables give it the same value. */
  ghost predicate AgreeOn(xs: set<Term>, m: Model, n: Model) {
    m.preds == n.preds && m.funs == n.funs && forall x :: x in xs ==> Eval(x, m) == Eval(x, n)
  }

  lemma {:induction false} EvalAgree(t: Term, m: Model, n: Model)
    requires AgreeOn(Vars(t), m, n)
    ensures Eval(t, m) == Eval(t, n)
  {
    if !t.Var? {
      forall i | 0 <= i < |Args(t)| ensures Eval(Args(t)[i], m) == Eval(Args(t)[i], n) {
        VarsArgSubset(t, i);
        EvalAgree(Args(t)[i], m, n);
      }
      EvalCongruence(t, t, m, n);
    }
  }

  /** Terms built by one constructor. */
  predicate SameHead(t: Term, u: Term) {
    match (t, u)
    case (True, True) => true
    case (False, False) => true
    case (Var(n, s), Var(n', s')) => n == n' && s == s'
    case (Not(_), Not(_)) => true
    case (And(xs), And(ys)) => true
    case (Or(xs), Or(ys)) => true
    case (Xor(_, _), Xor(_, _)) => true
    case (Eq(_, _), Eq(_, _)) => true
    case (Ite(_, _, _), Ite(_, _, _)) => true
    case (App(f, _, s), App(g, _, s')) => f == g && s == s'
    case _ => false
  }

  /** The value of a compound term is a function of the values of its arguments. */
  lemma EvalCongruence(t: Term, u: Term, m: Model, n: Model)
    requires SameHead(t, u) && !t.Var? && m.preds == n.preds && m.funs == n.funs
    requires |Args(t)| == |Args(u)|
    requires forall i :: 0 <= i < |Args(t)| ==> Eval(Args(t)[i], m) == Eval(Args(u)[i], n)
    ensures Eval(t, m) == Eval(u, n)
  {
    match t {
      case App(f, xs, s) =>
        var vals := seq(|xs|, i requires 0 <= i < |xs| => Eval(xs[i], m));
        var vals' := seq(|u.args|, i requires 0 <= i < |u.args| => Eval(u.args[i], n));
        assert vals == vals';
      case Not(a) => assert Args(t)[0] == a && Args(u)[0] == u.arg;
      case Xor(a, b) =>
        assert Args(t)[0] == a && Args(t)[1] == b && Args(u)[0] == u.lhs && Args(u)[1] == u.rhs;
      case Eq(a, b) =>
        assert Args(t)[0] == a && Args(t)[1] == b && Args(u)[0] == u.lhs && Args(u)[1] == u.rhs;
      case Ite(c, a, b) =>
        assert Args(t)[0] == c && Args(t)[1] == a && Args(t)[2] == b;
        assert Args(u)[0] == u.cond && Args(u)[1] == u.thn && Args(u)[2] == u.els;
      case _ =>
    }
  }

  // ---------- the simplifying constructors ----------

  /** A term with a sign: the argument lists of mkAnd and mkOr are normalised in this form. */
  datatype PtAsgn = PtAsgn(tr: Term, sgn: bool)

  function Signed(t: Term): PtAsgn {
    if t.Not? then PtAsgn(t.arg, false) else PtAsgn(t, true)
  }

  function MkNot(t: Term): Term {
    match t
    case Not(a) => a
    case True => False
    case False => True
    case _ => Not(t)
  }

  function Unsigned(a: PtAsgn): Term {
    if a.sgn then a.tr else MkNot(a.tr)
  }

  /** The order of term references. */
  type Order = Term -> int

  function InsertSigned(a: PtAsgn, xs: seq<PtAsgn>, rank: Order): seq<PtAsgn> {
    if xs == [] || rank(a.tr) <= rank(xs[0].tr) then [a] + xs
    else [xs[0]] + InsertSigned(a, xs[1..], rank)
  }

  /** The signed arguments sorted by reference. */
  function SortSigned(ts: seq<Term>, rank: Order): seq<PtAsgn> {
    if ts == [] then [] else InsertSigned(Signed(ts[0]), SortSigned(ts[1..], rank), rank)
  }

  datatype Compacted = Absorbed | Kept(xs: seq<PtAsgn>)

  /**
   The pass over the sorted arguments: zero or a complementary neighbour absorbs the whole
   list, one and repetitions are dropped. Parameter p is the last argument kept.
   */
  function Compact(xs: seq<PtAsgn>, p: Option<PtAsgn>, zero: Term, one: Term): Compacted {
    if xs == [] then Kept([])
    else if xs[0].tr == zero then Absorbed
    else if xs[0].tr == one then Compact(xs[1..], p, zero, one)
    else if p == Some(xs[0]) then Compact(xs[1..], p, zero, one)
    else if p.Some? && p.value.tr == xs[0].tr then Absorbed
    else
      match Compact(xs[1..], Some(xs[0]), zero, one)
      case Absorbed => Absorbed
      case Kept(ys) => Kept([xs[0]] + ys)
  }

  function UnsignedAll(xs: seq<PtAsgn>): (r: seq<Term>)
    ensures |r| == |xs| && forall i :: 0 <= i < |xs| ==> r[i] == Unsigned(xs[i])
  {
    if xs == [] then [] else [Unsigned(xs[0])] + UnsignedAll(xs[1..])
  }

  function MkAnd(ts: seq<Term>, rank: Order): Term {
    match Compact(SortSigned(ts, rank), None, False, True)
    case Absorbed => False
    case Kept(xs) => if xs == [] then True else if |xs| == 1 then Unsigned(xs[0]) else And(UnsignedAll(xs))
  }

  function MkOr(ts: seq<Term>, rank: Order): Term {
    match Compact(SortSigned(ts, rank), None, True, False)
    case Absorbed => True
    case Kept(xs) => if xs == [] then False else if |xs| == 1 then Unsigned(xs[0]) else Or(UnsignedAll(xs))
  }

  function MkXor(a: Term, b: Term, rank: Order): Term {
    if a == b then False
    else if a == MkNot(b) then True
    else if a == True || b == True then (if a == True then MkNot(b) else MkNot(a))
    else if a == False || b == False then (if a == False then b else a)
    else if rank(a) <= rank(b) then Xor(a, b) else Xor(b, a)
  }

  function MkImpl(a: Term, b: Term, rank: Order): Term {
    if a == False then True
    else if b == True then True
    else if a == True && b == False then False
    else MkOr([MkNot(a), b], rank)
  }

  /** An equality over Booleans keeps its argument order; others are sorted by reference. */
  function MkEq(a: Term, b: Term, rank: Order): Term {
    if a == b then True
    else if IsConstant(a) && IsConstant(b) then False
    else if IsBool(a) && a == MkNot(b) then False
    else if IsBool(a) && (a == True || b == True) then (if a == True then b else a)
    else if IsBool(a) && (a == False || b == False) then (if a == False then MkNot(b) else MkNot(a))
    else if IsBool(a) || rank(a) <= rank(b) then Eq(a, b) else Eq(b, a)
  }

  function MkIte(c: Term, a: Term, b: Term): Term {
    if c == True then a
    else if c == False then b
    else if a == b then a
    else Ite(c, a, b)
  }

  /** Rebuilds a term over new arguments through the simplifying constructors. */
  function Rebuild(t: Term, args: seq<Term>, rank: Order): Term
    requires |args| == |Args(t)|
  {
    match t
    case Not(_) => MkNot(args[0])
    case And(_) => MkAnd(args, rank)
    case Or(_) => MkOr(args, rank)
    case Xor(_, _) => MkXor(args[0], args[1], rank)
    case Eq(_, _) => MkEq(args[0], args[1], rank)
    case Ite(_, _, _) => MkIte(args[0], args[1], args[2])
    case App(f, _, s) => App(f, args, s)
    case _ => t
  }

  // ---------- the constructors preserve meaning ----------

  ghost predicate HoldsSigned(a: PtAsgn, m: Model) {
    Holds(a.tr, m) == a.sgn
  }

  ghost predicate GoodSigned(a: PtAsgn) {
    WellFormed(a.tr) && IsBool(a.tr) && !a.tr.Not? && (IsConstant(a.tr) ==> a.sgn)
  }

  ghost predicate AllGood(xs: seq<PtAsgn>) {
    forall i :: 0 <= i < |xs| ==> GoodSigned(xs[i])
  }

  lemma MkNotMeaning(t: Term, m: Model)
    requires WellFormed(t) && IsBool(t)
    ensures WellFormed(MkNot(t)) && IsBool(MkNot(t)) && Vars(MkNot(t)) == Vars(t)
    ensures Holds(MkNot(t), m) <==> !Holds(t, m)
  {
    assert Args(Not(t))[0] == t;
    if t.Not? { assert Args(t)[0] == t.arg; }
    assert Vars(Not(t)) == Vars(t);
    assert t.Not? ==> Vars(t) == Vars(t.arg);
  }

  /** A truth value for every formula, such as its truth in a model. */
  type Truth = Term -> bool

  /** The truth values respect constants and negation. */
  ghost predicate Respects(e: Truth) {
    && e(True) && !e(False)
    && forall t :: WellFormed(t) && IsBool(t) && !t.Not? && !IsConstant(t) ==> e(Not(t)) == !e(t)
  }

  ghost predicate EachHolds(ts: seq<Term>, m: Model) {
    forall i :: 0 <= i < |ts| ==> Holds(ts[i], m)
  }

  ghost predicate OneHolds(ts: seq<Term>, m: Model) {
    exists i :: 0 <= i < |ts| && Holds(ts[i], m)
  }

  lemma SignedMeaning(t: Term, e: Truth)
    requires WellFormed(t) && IsBool(t) && Respects(e)
    ensures GoodSigned(Signed(t)) && Vars(Signed(t).tr) == Vars(t)
    ensures TrueSigned(Signed(t), e) <==> e(t)
  {
    if t.Not? { assert Args(t)[0] == t.arg; assert Vars(t) == Vars(t.arg); }
  }

  lemma UnsignedMeaning(a: PtAsgn, e: Truth)
    requires GoodSigned(a) && Respects(e)
    ensures WellFormed(Unsigned(a)) && IsBool(Unsigned(a)) && Vars(Unsigned(a)) == Vars(a.tr)
    ensures e(Unsigned(a)) <==> TrueSigned(a, e)
  {
    MkNotMeaning(a.tr, AnyModel);
  }

  ghost predicate TrueSigned(a: PtAsgn, e: Truth) {
    e(a.tr) == a.sgn
  }

  ghost predicate AllTrue(xs: seq<PtAsgn>, e: Truth) {
    forall i :: 0 <= i < |xs| ==> TrueSigned(xs[i], e)
  }

  ghost predicate SomeTrue(xs: seq<PtAsgn>, e: Truth) {
    exists i :: 0 <= i < |xs| && TrueSigned(xs[i], e)
  }

  function VarsSigned(xs: seq<PtAsgn>): set<Term> {
    set i, x | 0 <= i < |xs| && x in Vars(xs[i].tr) :: x
  }

  lemma SignedCons(x: PtAsgn, xs: seq<PtAsgn>, e: Truth)
    ensures AllTrue([x] + xs, e) <==> TrueSigned(x, e) && AllTrue(xs, e)
    ensures SomeTrue([x] + xs, e) <==> TrueSigned(x, e) || SomeTrue(xs, e)
    ensures AllGood([x] + xs) <==> GoodSigned(x) && AllGood(xs)
    ensures VarsSigned([x] + xs) == Vars(x.tr) + VarsSigned(xs)
  {
    MeaningCons(x, xs, e);
    GoodCons(x, xs);
    VarsCons(x, xs);
  }

  lemma MeaningCons(x: PtAsgn, xs: seq<PtAsgn>, e: Truth)
    ensures AllTrue([x] + xs, e) <==> TrueSigned(x, e) && AllTrue(xs, e)
    ensures SomeTrue([x] + xs, e) <==> TrueSigned(x, e) || SomeTrue(xs, e)
  {
    var ys := [x] + xs;
    assert ys[0] == x && forall i :: 0 <= i < |xs| ==> ys[i + 1] == xs[i];
    if SomeTrue(xs, e) {
      var i :| 0 <= i < |xs| && TrueSigned(xs[i], e);
      assert TrueSigned(ys[i + 1], e);
    }
    if AllTrue(ys, e) {
      forall i | 0 <= i < |xs| ensures TrueSigned(xs[i], e) { assert TrueSigned(ys[i + 1], e); }
    }
  }

  lemma GoodCons(x: PtAsgn, xs: seq<PtAsgn>)
    ensures AllGood([x] + xs) <==> GoodSigned(x) && AllGood(xs)
  {
    var ys := [x] + xs;
    assert ys[0] == x && forall i :: 0 <= i < |xs| ==> ys[i + 1] == xs[i];
    if AllGood(ys) {
      forall i | 0 <= i < |xs| ensures GoodSigned(xs[i]) { assert GoodSigned(ys[i + 1]); }
    }
  }

  lemma VarsCons(x: PtAsgn, xs: seq<PtAsgn>)
    ensures VarsSigned([x] + xs) == Vars(x.tr) + VarsSigned(xs)
  {
    var ys := [x] + xs;
    assert ys[0] == x && forall i :: 0 <= i < |xs| ==> ys[i + 1] == xs[i];
    forall v ensures v in VarsSigned(ys) <==> v in Vars(x.tr) + VarsSigned(xs) {
      if v in VarsSigned(xs) {
        var i :| 0 <= i < |xs| && v in Vars(xs[i].tr);
        assert v in Vars(ys[i + 1].tr);
      }
      if v in Vars(x.tr) { assert v in Vars(ys[0].tr); }
    }
  }

  lemma {:induction false} InsertMeaning(a: PtAsgn, xs: seq<PtAsgn>, rank: Order, e: Truth)
    ensures var ys := InsertSigned(a, xs, rank);
            && (AllTrue(ys, e) <==> TrueSigned(a, e) && AllTrue(xs, e))
            && (SomeTrue(ys, e) <==> TrueSigned(a, e) || SomeTrue(xs, e))
            && (AllGood(ys) <==> GoodSigned(a) && AllGood(xs))
            && VarsSigned(ys) == Vars(a.tr) + VarsSigned(xs)
  {
    if xs == [] || rank(a.tr) <= rank(xs[0].tr) {
      SignedCons(a, xs, e);
    } else {
      InsertMeaning(a, xs[1..], rank, e);
      assert xs == [xs[0]] + xs[1..];
      SignedCons(xs[0], xs[1..], e);
      SignedCons(xs[0], InsertSigned(a, xs[1..], rank), e);
    }
  }

  ghost predicate EachTrue(ts: seq<Term>, e: Truth) {
    forall i :: 0 <= i < |ts| ==> e(ts[i])
  }

  ghost predicate OneTrue(ts: seq<Term>, e: Truth) {
    exists i :: 0 <= i < |ts| && e(ts[i])
  }

  lemma TermsCons(ts: seq<Term>, e: Truth)
    requires ts != []
    ensures EachTrue(ts, e) <==> e(ts[0]) && EachTrue(ts[1..], e)
    ensures OneTrue(ts, e) <==> e(ts[0]) || OneTrue(ts[1..], e)
    ensures AllBool(ts) <==> (WellFormed(ts[0]) && IsBool(ts[0])) && AllBool(ts[1..])
    ensures VarsOfAll(ts) == Vars(ts[0]) + VarsOfAll(ts[1..])
  {
    var us := ts[1..];
    assert forall i :: 1 <= i < |ts| ==> ts[i] == us[i - 1];
    if OneTrue(us, e) {
      var i :| 0 <= i < |us| && e(us[i]);
      assert e(ts[i + 1]);
    }
    if AllBool(ts) {
      forall i | 0 <= i < |us| ensures WellFormed(us[i]) && IsBool(us[i]) { assert us[i] == ts[i + 1]; }
    }
    forall v ensures v in VarsOfAll(ts) <==> v in Vars(ts[0]) + VarsOfAll(us) {
      if v in VarsOfAll(us) {
        var i :| 0 <= i < |us| && v in Vars(us[i]);
        assert v in Vars(ts[i + 1]);
      }
    }
  }

  lemma {:induction false} SortMeaning(ts: seq<Term>, rank: Order, e: Truth)
    requires AllBool(ts) && Respects(e)
    ensures var xs := SortSigned(ts, rank);
            && AllGood(xs) && VarsSigned(xs) == VarsOfAll(ts)
            && (AllTrue(xs, e) <==> EachTrue(ts, e))
            && (SomeTrue(xs, e) <==> OneTrue(ts, e))
  {
    if ts != [] {
      TermsCons(ts, e);
      SignedMeaning(ts[0], e);
      SortMeaning(ts[1..], rank, e);
      InsertMeaning(Signed(ts[0]), SortSigned(ts[1..], rank), rank, e);
    }
  }

  /** Compaction for a conjunction: zero is False, one is True. */
  lemma {:induction false} CompactAnd(xs: seq<PtAsgn>, p: Option<PtAsgn>, e: Truth)
    requires AllGood(xs) && Respects(e) && (p.Some? ==> TrueSigned(p.value, e))
    ensures match Compact(xs, p, False, True)
            case Absorbed => !AllTrue(xs, e)
            case Kept(ys) => AllTrue(ys, e) <==> AllTrue(xs, e)
  {
    if xs != [] {
      assert xs == [xs[0]] + xs[1..];
      SignedCons(xs[0], xs[1..], e);
      if xs[0].tr == False {
      } else if xs[0].tr == True || p == Some(xs[0]) {
        CompactAnd(xs[1..], p, e);
      } else if p.Some? && p.value.tr == xs[0].tr {
      } else {
        if TrueSigned(xs[0], e) { CompactAnd(xs[1..], Some(xs[0]), e); }
        match Compact(xs[1..], Some(xs[0]), False, True)
        case Absorbed =>
        case Kept(ys) => SignedCons(xs[0], ys, e);
      }
    }
  }

  /** Compaction for a disjunction: zero is True, one is False. */
  lemma {:induction false} CompactOr(xs: seq<PtAsgn>, p: Option<PtAsgn>, e: Truth)
    requires AllGood(xs) && Respects(e) && (p.Some? ==> !TrueSigned(p.value, e))
    ensures match Compact(xs, p, True, False)
            case Absorbed => SomeTrue(xs, e)
            case Kept(ys) => SomeTrue(ys, e) <==> SomeTrue(xs, e)
  {
    if xs != [] {
      assert xs == [xs[0]] + xs[1..];
      SignedCons(xs[0], xs[1..], e);
      if xs[0].tr == True {
      } else if xs[0].tr == False || p == Some(xs[0]) {
        CompactOr(xs[1..], p, e);
      } else if p.Some? && p.value.tr == xs[0].tr {
      } else {
        if !TrueSigned(xs[0], e) { CompactOr(xs[1..], Some(xs[0]), e); }
        match Compact(xs[1..], Some(xs[0]), True, False)
        case Absorbed =>
        case Kept(ys) => SignedCons(xs[0], ys, e);
      }
    }
  }

  lemma {:induction false} CompactShape(xs: seq<PtAsgn>, p: Option<PtAsgn>, zero: Term, one: Term, e: Truth)
    requires AllGood(xs)
    ensures match Compact(xs, p, zero, one)
            case Absorbed => true
            case Kept(ys) => AllGood(ys) && |ys| <= |xs| && VarsSigned(ys) <= VarsSigned(xs)
  {
    if xs != [] {
      assert xs == [xs[0]] + xs[1..];
      SignedCons(xs[0], xs[1..], e);
      CompactShape(xs[1..], p, zero, one, e);
      CompactShape(xs[1..], Some(xs[0]), zero, one, e);
      match Compact(xs[1..], Some(xs[0]), zero, one)
      case Absorbed =>
      case Kept(ys) => SignedCons(xs[0], ys, e);
    }
  }

  lemma {:induction false} UnsignedAllMeaning(xs: seq<PtAsgn>, e: Truth)
    requires AllGood(xs) && Respects(e)
    ensures AllBool(UnsignedAll(xs)) && VarsOfAll(UnsignedAll(xs)) == VarsSigned(xs)
    ensures EachTrue(UnsignedAll(xs), e) <==> AllTrue(xs, e)
    ensures OneTrue(UnsignedAll(xs), e) <==> SomeTrue(xs, e)
  {
    if xs != [] {
      assert xs == [xs[0]] + xs[1..];
      SignedCons(xs[0], xs[1..], e);
      UnsignedMeaning(xs[0], e);
      UnsignedAllMeaning(xs[1..], e);
      TermsCons(UnsignedAll(xs), e);
      assert UnsignedAll(xs)[1..] == UnsignedAll(xs[1..]);
    }
  }

  /** What every simplifying constructor promises about its result. */
  ghost predicate Simplifies(r: Term, vars: set<Term>, s: Sort) {
    WellFormed(r) && SortOf(r) == s && Vars(r) <= vars
  }

  /** mkAnd builds the conjunction of its arguments for any truth values, whatever it drops. */
  lemma MkAndTruth(ts: seq<Term>, rank: Order, e: Truth)
    requires AllBool(ts) && Respects(e)
    requires forall us :: AllBool(us) && |us| >= 2 ==> e(And(us)) == EachTrue(us, e)
    ensures e(MkAnd(ts, rank)) == EachTrue(ts, e)
  {
    var xs := SortSigned(ts, rank);
    SortMeaning(ts, rank, e);
    CompactAnd(xs, None, e);
    CompactShape(xs, None, False, True, e);
    match Compact(xs, None, False, True)
    case Absorbed =>
    case Kept(ys) =>
      UnsignedAllMeaning(ys, e);
      if |ys| == 1 { UnsignedMeaning(ys[0], e); }
  }

  lemma MkOrTruth(ts: seq<Term>, rank: Order, e: Truth)
    requires AllBool(ts) && Respects(e)
    requires forall us :: AllBool(us) && |us| >= 2 ==> e(Or(us)) == OneTrue(us, e)
    ensures e(MkOr(ts, rank)) == OneTrue(ts, e)
  {
    var xs := SortSigned(ts, rank);
    SortMeaning(ts, rank, e);
    CompactOr(xs, None, e);
    CompactShape(xs, None, True, False, e);
    match Compact(xs, None, True, False)
    case Absorbed =>
    case Kept(ys) =>
      UnsignedAllMeaning(ys, e);
      if |ys| == 1 { UnsignedMeaning(ys[0], e); }
  }

  /** The arguments that mkAnd or mkOr keeps. */
  lemma NaryShape(ts: seq<Term>, rank: Order, zero: Term, one: Term)
    requires AllBool(ts)
    ensures match Compact(SortSigned(ts, rank), None, zero, one)
            case Absorbed => true
            case Kept(ys) => AllGood(ys) && AllBool(UnsignedAll(ys)) && forall u :: u in UnsignedAll(ys) ==> u in ts
  {
    SortShape(ts, rank);
    KeptShape(SortSigned(ts, rank), None, zero, one);
    match Compact(SortSigned(ts, rank), None, zero, one)
    case Absorbed =>
    case Kept(ys) =>
      forall i | 0 <= i < |ys| ensures GoodSigned(ys[i]) && Unsigned(ys[i]) in ts { assert ys[i] in ys; }
      ModelRespects(AnyModel);
      UnsignedAllMeaning(ys, InModel(AnyModel));
  }

  lemma {:induction false} InsertShape(a: PtAsgn, xs: seq<PtAsgn>, rank: Order)
    ensures forall x :: x in InsertSigned(a, xs, rank) <==> x == a || x in xs
  {
    if !(xs == [] || rank(a.tr) <= rank(xs[0].tr)) {
      InsertShape(a, xs[1..], rank);
      assert xs == [xs[0]] + xs[1..];
    }
  }

  lemma {:induction false} SortShape(ts: seq<Term>, rank: Order)
    requires AllBool(ts)
    ensures forall x :: x in SortSigned(ts, rank) ==> GoodSigned(x) && Unsigned(x) in ts
  {
    if ts != [] {
      SortShape(ts[1..], rank);
      InsertShape(Signed(ts[0]), SortSigned(ts[1..], rank), rank);
      assert ts == [ts[0]] + ts[1..];
      UnsignedSigned(ts[0]);
    }
  }

  lemma UnsignedSigned(t: Term)
    requires WellFormed(t) && IsBool(t)
    ensures GoodSigned(Signed(t)) && Unsigned(Signed(t)) == t
  {
    if t.Not? { assert Args(t)[0] == t.arg; }
  }

  lemma {:induction false} KeptShape(xs: seq<PtAsgn>, p: Option<PtAsgn>, zero: Term, one: Term)
    requires forall x :: x in xs ==> GoodSigned(x)
    ensures match Compact(xs, p, zero, one)
            case Absorbed => true
            case Kept(ys) => forall y :: y in ys ==> y in xs && GoodSigned(y)
  {
    if xs != [] {
      assert xs == [xs[0]] + xs[1..];
      KeptShape(xs[1..], p, zero, one);
      KeptShape(xs[1..], Some(xs[0]), zero, one);
    }
  }

  ghost function InModel(m: Model): Truth {
    t => Holds(t, m)
  }

  lemma ModelRespects(m: Model)
    ensures Respects(InModel(m))
  {
    forall t | WellFormed(t) && IsBool(t) && !t.Not? && !IsConstant(t) ensures Holds(Not(t), m) == !Holds(t, m) {
      MkNotMeaning(t, m);
    }
  }

  lemma MkAndMeaning(ts: seq<Term>, rank: Order, m: Model)
    requires AllBool(ts)
    ensures Simplifies(MkAnd(ts, rank), VarsOfAll(ts), Bool)
    ensures Holds(MkAnd(ts, rank), m) <==> EachHolds(ts, m)
  {
    MkAndSimplifies(ts, rank);
    ModelRespects(m);
    forall us | AllBool(us) && |us| >= 2 ensures Holds(And(us), m) == EachTrue(us, InModel(m)) {
      NaryMeaning(us, m);
      assert EachTrue(us, InModel(m)) == EachHolds(us, m);
    }
    MkAndTruth(ts, rank, InModel(m));
    assert EachTrue(ts, InModel(m)) == EachHolds(ts, m);
  }

  lemma MkOrMeaning(ts: seq<Term>, rank: Order, m: Model)
    requires AllBool(ts)
    ensures Simplifies(MkOr(ts, rank), VarsOfAll(ts), Bool)
    ensures Holds(MkOr(ts, rank), m) <==> OneHolds(ts, m)
  {
    MkOrSimplifies(ts, rank);
    ModelRespects(m);
    forall us | AllBool(us) && |us| >= 2 ensures Holds(Or(us), m) == OneTrue(us, InModel(m)) {
      NaryMeaning(us, m);
      assert OneTrue(us, InModel(m)) == OneHolds(us, m);
    }
    MkOrTruth(ts, rank, InModel(m));
    assert OneTrue(ts, InModel(m)) == OneHolds(ts, m);
  }

  lemma MkAndSimplifies(ts: seq<Term>, rank: Order)
    requires AllBool(ts)
    ensures Simplifies(MkAnd(ts, rank), VarsOfAll(ts), Bool)
  {
    ModelRespects(AnyModel);
    NarySimplifies(ts, rank, False, True, InModel(AnyModel));
    match Compact(SortSigned(ts, rank), None, False, True)
    case Absorbed =>
    case Kept(ys) =>
      if |ys| > 1 { NaryMeaning(UnsignedAll(ys), AnyModel); }
  }

  lemma MkOrSimplifies(ts: seq<Term>, rank: Order)
    requires AllBool(ts)
    ensures Simplifies(MkOr(ts, rank), VarsOfAll(ts), Bool)
  {
    ModelRespects(AnyModel);
    NarySimplifies(ts, rank, True, False, InModel(AnyModel));
    match Compact(SortSigned(ts, rank), None, True, False)
    case Absorbed =>
    case Kept(ys) =>
      if |ys| > 1 { NaryMeaning(UnsignedAll(ys), AnyModel); }
  }

  lemma NarySimplifies(ts: seq<Term>, rank: Order, zero: Term, one: Term, e: Truth)
    requires AllBool(ts) && Respects(e)
    ensures match Compact(SortSigned(ts, rank), None, zero, one)
            case Absorbed => true
            case Kept(ys) =>
              && AllBool(UnsignedAll(ys)) && VarsOfAll(UnsignedAll(ys)) <= VarsOfAll(ts)
              && (|ys| == 1 ==> WellFormed(Unsigned(ys[0])) && IsBool(Unsigned(ys[0]))
                                && Vars(Unsigned(ys[0])) <= VarsOfAll(ts))
  {
    var xs := SortSigned(ts, rank);
    SortMeaning(ts, rank, e);
    CompactShape(xs, None, zero, one, e);
    match Compact(xs, None, zero, one)
    case Absorbed =>
    case Kept(ys) =>
      UnsignedAllMeaning(ys, e);
      if |ys| == 1 { UnsignedMeaning(ys[0], e); }
  }

  lemma NaryMeaning(us: seq<Term>, m: Model)
    requires AllBool(us) && |us| >= 2
    ensures WellFormed(And(us)) && WellFormed(Or(us))
    ensures Vars(And(us)) == VarsOfAll(us) == Vars(Or(us))
    ensures Holds(And(us), m) <==> EachHolds(us, m)
    ensures Holds(Or(us), m) <==> OneHolds(us, m)
  {
    assert Args(And(us)) == us && Args(Or(us)) == us;
  }

  lemma BinaryVars(t: Term, a: Term, b: Term)
    requires Args(t) == [a, b] && !t.Var?
    ensures Vars(t) == Vars(a) + Vars(b)
    ensures WellFormed(t) <==> WellFormedHere(t) && WellFormed(a) && WellFormed(b)
  {
    TwoArgs(Args(t), a, b);
    VarsOfArgs(t);
  }

  lemma TwoArgs(ts: seq<Term>, a: Term, b: Term)
    requires ts == [a, b]
    ensures VarsOfAll(ts) == Vars(a) + Vars(b)
    ensures (forall i :: 0 <= i < |ts| ==> WellFormed(ts[i])) <==> WellFormed(a) && WellFormed(b)
  {
    assert ts[0] == a && ts[1] == b;
    forall x ensures x in VarsOfAll(ts) <==> x in Vars(a) + Vars(b) {
      if x in Vars(a) { assert x in Vars(ts[0]); }
      if x in Vars(b) { assert x in Vars(ts[1]); }
    }
  }

  lemma XorMeaning(a: Term, b: Term, m: Model)
    requires WellFormed(a) && WellFormed(b) && WellFormedHere(Xor(a, b))
    ensures WellFormed(Xor(a, b)) && Vars(Xor(a, b)) == Vars(a) + Vars(b)
    ensures Holds(Xor(a, b), m) <==> Holds(a, m) != Holds(b, m)
  {
    BinaryVars(Xor(a, b), a, b);
  }

  lemma ConstantMeaning(m: Model)
    ensures Simplifies(True, {}, Bool) && Holds(True, m)
    ensures Simplifies(False, {}, Bool) && !Holds(False, m)
  {
  }

  lemma MkXorMeaning(a: Term, b: Term, rank: Order, m: Model)
    requires WellFormed(a) && WellFormed(b) && IsBool(a) && IsBool(b)
    ensures Simplifies(MkXor(a, b, rank), Vars(a) + Vars(b), Bool)
    ensures Holds(MkXor(a, b, rank), m) <==> Holds(a, m) != Holds(b, m)
  {
    ConstantMeaning(m);
    MkNotMeaning(b, m);
    if a == b || a == MkNot(b) {
    } else if a == True || b == True || a == False || b == False {
      MkNotMeaning(a, m);
    } else {
      assert a.Not? ==> Args(a)[0] == a.arg;
      assert b.Not? ==> Args(b)[0] == b.arg;
      XorMeaning(a, b, m);
      XorMeaning(b, a, m);
    }
  }

  lemma EqMeaning(a: Term, b: Term, m: Model)
    requires WellFormed(a) && WellFormed(b) && SortOf(a) == SortOf(b) && !IsConstant(a) && !IsConstant(b)
    ensures WellFormed(Eq(a, b)) && Vars(Eq(a, b)) == Vars(a) + Vars(b)
    ensures Holds(Eq(a, b), m) <==> Eval(a, m) == Eval(b, m)
  {
    BinaryVars(Eq(a, b), a, b);
  }

  lemma BoolEquality(a: Term, b: Term, m: Model)
    requires WellFormed(a) && WellFormed(b) && IsBool(a) && IsBool(b)
    ensures Eval(a, m) == Eval(b, m) <==> (Holds(a, m) <==> Holds(b, m))
  {
    EvalSort(a, m);
    EvalSort(b, m);
  }

  lemma MkEqMeaning(a: Term, b: Term, rank: Order, m: Model)
    requires WellFormed(a) && WellFormed(b) && SortOf(a) == SortOf(b)
    ensures Simplifies(MkEq(a, b, rank), Vars(a) + Vars(b), Bool)
    ensures Holds(MkEq(a, b, rank), m) <==> Eval(a, m) == Eval(b, m)
  {
    ConstantMeaning(m);
    if a == b {
    } else if IsBool(a) {
      MkBoolEqMeaning(a, b, rank, m);
    } else {
      EqMeaning(a, b, m);
      EqMeaning(b, a, m);
    }
  }

  lemma MkBoolEqMeaning(a: Term, b: Term, rank: Order, m: Model)
    requires WellFormed(a) && WellFormed(b) && IsBool(a) && IsBool(b) && a != b
    ensures Simplifies(MkEq(a, b, rank), Vars(a) + Vars(b), Bool)
    ensures Holds(MkEq(a, b, rank), m) <==> Eval(a, m) == Eval(b, m)
  {
    ConstantMeaning(m);
    BoolEquality(a, b, m);
    MkNotMeaning(b, m);
    if (IsConstant(a) && IsConstant(b)) || a == MkNot(b) {
    } else if IsConstant(a) || IsConstant(b) {
      MkNotMeaning(a, m);
    } else {
      EqMeaning(a, b, m);
    }
  }

  lemma MkIteMeaning(c: Term, a: Term, b: Term, m: Model)
    requires WellFormed(c) && IsBool(c) && WellFormed(a) && WellFormed(b) && SortOf(a) == SortOf(b)
    ensures Simplifies(MkIte(c, a, b), Vars(c) + Vars(a) + Vars(b), SortOf(a))
    ensures Eval(MkIte(c, a, b), m) == if Holds(c, m) then Eval(a, m) else Eval(b, m)
  {
    var t := Ite(c, a, b);
    assert Args(t)[0] == c && Args(t)[1] == a && Args(t)[2] == b;
    assert WellFormed(t);
    assert Vars(t) <= Vars(c) + Vars(a) + Vars(b);
  }

  lemma MkImplMeaning(a: Term, b: Term, rank: Order, m: Model)
    requires WellFormed(a) && WellFormed(b) && IsBool(a) && IsBool(b)
    ensures Simplifies(MkImpl(a, b, rank), Vars(a) + Vars(b), Bool)
    ensures Holds(MkImpl(a, b, rank), m) <==> (Holds(a, m) ==> Holds(b, m))
  {
    MkNotMeaning(a, m);
    var ts := [MkNot(a), b];
    assert AllBool(ts);
    MkOrMeaning(ts, rank, m);
    assert OneHolds(ts, m) <==> Holds(MkNot(a), m) || Holds(b, m) by {
      assert ts[0] == MkNot(a) && ts[1] == b;
    }
  }

  /** Replacing the arguments of a term by equals of the same sorts keeps its value. */
  lemma RebuildMeaning(t: Term, args: seq<Term>, rank: Order, m: Model)
    requires WellFormed(t) && |args| == |Args(t)| && !t.Var?
    requires forall i :: 0 <= i < |args| ==> WellFormed(args[i]) && SortOf(args[i]) == SortOf(Args(t)[i])
    ensures Simplifies(Rebuild(t, args, rank), VarsOfAll(args), SortOf(t))
    ensures (forall i :: 0 <= i < |args| ==> Eval(args[i], m) == Eval(Args(t)[i], m))
            ==> Eval(Rebuild(t, args, rank), m) == Eval(t, m)
  {
    RebuildShape(t, args, rank, m);
    if forall i :: 0 <= i < |args| ==> Eval(args[i], m) == Eval(Args(t)[i], m) {
      RebuildEval(t, args, rank, m);
    }
  }

  lemma ArgVars(args: seq<Term>, i: nat)
    requires i < |args|
    ensures Vars(args[i]) <= VarsOfAll(args)
  {
  }

  lemma AppShape(f: string, args: seq<Term>, s: Sort)
    requires |args| > 0 && forall i :: 0 <= i < |args| ==> WellFormed(args[i])
    ensures Simplifies(App(f, args, s), VarsOfAll(args), s)
  {
    assert Args(App(f, args, s)) == args;
    VarsOfArgs(App(f, args, s));
  }

  lemma RebuildShape(t: Term, args: seq<Term>, rank: Order, m: Model)
    requires WellFormed(t) && |args| == |Args(t)| && !t.Var?
    requires forall i :: 0 <= i < |args| ==> WellFormed(args[i]) && SortOf(args[i]) == SortOf(Args(t)[i])
    ensures Simplifies(Rebuild(t, args, rank), VarsOfAll(args), SortOf(t))
  {
    assert WellFormedHere(t);
    if |args| > 0 { ArgVars(args, 0); }
    if |args| > 1 { ArgVars(args, 1); }
    if |args| > 2 { ArgVars(args, 2); }
    hide WellFormed, Vars;
    match t {
      case Not(a) => assert Args(t)[0] == a; MkNotMeaning(args[0], m);
      case And(xs) => MkAndMeaning(args, rank, m);
      case Or(xs) => MkOrMeaning(args, rank, m);
      case Xor(a, b) => assert Args(t)[0] == a && Args(t)[1] == b; MkXorMeaning(args[0], args[1], rank, m);
      case Eq(a, b) => assert Args(t)[0] == a && Args(t)[1] == b; MkEqMeaning(args[0], args[1], rank, m);
      case Ite(c, a, b) =>
        assert Args(t)[0] == c && Args(t)[1] == a && Args(t)[2] == b;
        MkIteMeaning(args[0], args[1], args[2], m);
      case App(f, xs, s) => AppShape(f, args, s);
      case _ =>
    }
  }

  lemma RebuildEval(t: Term, args: seq<Term>, rank: Order, m: Model)
    requires WellFormed(t) && |args| == |Args(t)| && !t.Var?
    requires forall i :: 0 <= i < |args| ==> WellFormed(args[i]) && SortOf(args[i]) == SortOf(Args(t)[i])
    requires forall i :: 0 <= i < |args| ==> Eval(args[i], m) == Eval(Args(t)[i], m)
    ensures Eval(Rebuild(t, args, rank), m) == Eval(t, m)
  {
    var r := Rebuild(t, args, rank);
    RebuildShape(t, args, rank, m);
    EvalSort(r, m);
    EvalSort(t, m);
    match t {
      case Not(a) => assert Args(t)[0] == a; MkNotMeaning(args[0], m);
      case And(xs) =>
        MkAndMeaning(args, rank, m);
        assert EachHolds(args, m) <==> Holds(t, m);
      case Or(xs) =>
        MkOrMeaning(args, rank, m);
        assert OneHolds(args, m) <==> OneHolds(xs, m);
      case Xor(a, b) => assert Args(t)[0] == a && Args(t)[1] == b; MkXorMeaning(args[0], args[1], rank, m);
      case Eq(a, b) => assert Args(t)[0] == a && Args(t)[1] == b; MkEqMeaning(args[0], args[1], rank, m);
      case Ite(c, a, b) =>
        assert Args(t)[0] == c && Args(t)[1] == a && Args(t)[2] == b;
        MkIteMeaning(args[0], args[1], args[2], m);
      case App(f, xs, s) => EvalCongruence(t, App(f, args, s), m, m);
      case _ =>
    }
  }
}
