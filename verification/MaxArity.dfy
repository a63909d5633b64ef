/**
 Merging nested conjunctions and nested disjunctions into terms of maximal arity. A nested term
 that is an argument in several places is kept.
 */
module MaxArity {
  import opened Sequences
  import opened Terms
  import opened Facts
  import opened NestedBooleans
  import opened IncomingEdges
  import NormalForm

  // ---------- merging ----------

  predicate SameConnective(u: Term, t: Term) {
    (u.And? && t.And?) || (u.Or? && t.Or?)
  }

  /** The rewritten argument opens into the term's arguments. */
  predicate Spreads(t: Term, subs: seq<Term>, shared: set<Term>, i: nat)
    requires i < |subs| == |Args(t)|
  {
    SameConnective(subs[i], t) && Args(t)[i] !in shared
  }

  function Spread(t: Term, subs: seq<Term>, shared: set<Term>, n: nat): seq<Term>
    requires n <= |subs| == |Args(t)|
  {
    if n == 0 then []
    else Spread(t, subs, shared, n - 1) + if Spreads(t, subs, shared, n - 1) then Args(subs[n - 1]) else [subs[n - 1]]
  }

  predicate Changes(t: Term, subs: seq<Term>, shared: set<Term>, n: nat)
    requires n <= |subs| == |Args(t)|
  {
    exists i :: 0 <= i < n && (subs[i] != Args(t)[i] || Spreads(t, subs, shared, i))
  }

  /** A term over its rewritten arguments. */
  function MergedOver(t: Term, subs: seq<Term>, shared: set<Term>, rank: Order): Term
    requires |subs| == |Args(t)|
  {
    if t.And? || t.Or? then
      if !Changes(t, subs, shared, |subs|) then t
      else if t.And? then MkAnd(Spread(t, subs, shared, |subs|), rank)
      else MkOr(Spread(t, subs, shared, |subs|), rank)
    else if subs == Args(t) then t
    else Rebuild(t, subs, rank)
  }

  /** The term with nested connectives merged, except below shared terms. */
  function Merged(t: Term, shared: set<Term>, rank: Order): Term
    decreases t, 1
  {
    if BooleanOperator(t) then MergedOver(t, MergedArgs(t, shared, rank), shared, rank) else t
  }

  function MergedArgs(t: Term, shared: set<Term>, rank: Order): (r: seq<Term>)
    ensures |r| == |Args(t)| && forall i :: 0 <= i < |r| ==> r[i] == Merged(Args(t)[i], shared, rank)
    decreases t, 0
  {
    seq(|Args(t)|, i requires 0 <= i < |Args(t)| => Merged(Args(t)[i], shared, rank))
  }

  // ---------- merging keeps the meaning ----------

  lemma OperatorBools(t: Term)
    requires WellFormed(t) && BooleanOperator(t)
    ensures IsBool(t) && AllBool(Args(t))
  {
  }

  ghost predicate SameTruths(xs: seq<Term>, ys: seq<Term>, m: Model) {
    |xs| == |ys| && forall i :: 0 <= i < |xs| ==> (Holds(xs[i], m) <==> Holds(ys[i], m))
  }

  lemma {:induction false} SpreadMeaning(t: Term, subs: seq<Term>, shared: set<Term>, n: nat, m: Model)
    requires n <= |subs| == |Args(t)| && AllBool(subs) && (t.And? || t.Or?)
    ensures AllBool(Spread(t, subs, shared, n))
    ensures t.And? ==> (EachHolds(Spread(t, subs, shared, n), m) <==> EachHolds(subs[..n], m))
    ensures t.Or? ==> (OneHolds(Spread(t, subs, shared, n), m) <==> OneHolds(subs[..n], m))
  {
    if n > 0 {
      SpreadMeaning(t, subs, shared, n - 1, m);
      var u := subs[n - 1];
      var rest, piece := Spread(t, subs, shared, n - 1), if Spreads(t, subs, shared, n - 1) then Args(u) else [u];
      assert subs[..n] == subs[..n - 1] + [u];
      assert WellFormed(u);
      PieceMeaning(t, u, piece, m);
      hide Spread, Spreads, Eval, WellFormed, SortOf;
      JoinHolds(rest, piece, m);
      JoinHolds(subs[..n - 1], [u], m);
      assert EachHolds([u], m) <==> Holds([u][0], m);
      assert OneHolds([u], m) <==> Holds([u][0], m);
      AllBoolJoin(rest, piece);
    }
  }

  lemma PieceMeaning(t: Term, u: Term, piece: seq<Term>, m: Model)
    requires WellFormed(u) && IsBool(u) && (t.And? || t.Or?)
    requires piece == [u] || (SameConnective(u, t) && piece == Args(u))
    ensures AllBool(piece)
    ensures t.And? ==> (EachHolds(piece, m) <==> Holds(u, m))
    ensures t.Or? ==> (OneHolds(piece, m) <==> Holds(u, m))
  {
    if piece == [u] {
      assert piece[0] == u;
    }
  }

  lemma JoinHolds(xs: seq<Term>, ys: seq<Term>, m: Model)
    ensures EachHolds(xs + ys, m) <==> EachHolds(xs, m) && EachHolds(ys, m)
    ensures OneHolds(xs + ys, m) <==> OneHolds(xs, m) || OneHolds(ys, m)
  {
    hide Eval;
    var zs := xs + ys;
    forall i | 0 <= i < |xs| ensures zs[i] == xs[i] {}
    forall i | 0 <= i < |ys| ensures zs[|xs| + i] == ys[i] {}
    if EachHolds(zs, m) {
      forall i | 0 <= i < |ys| ensures Holds(ys[i], m) { assert Holds(zs[|xs| + i], m); }
    }
    if OneHolds(xs, m) {
      var i :| 0 <= i < |xs| && Holds(xs[i], m);
      assert Holds(zs[i], m);
    }
    if OneHolds(ys, m) {
      var i :| 0 <= i < |ys| && Holds(ys[i], m);
      assert Holds(zs[|xs| + i], m);
    }
  }

  lemma AllBoolJoin(xs: seq<Term>, ys: seq<Term>)
    requires AllBool(xs) && AllBool(ys)
    ensures AllBool(xs + ys)
  {
    hide WellFormed, SortOf;
  }

  /** A term over arguments of the same truth. */
  lemma OverMeaning(t: Term, subs: seq<Term>, shared: set<Term>, rank: Order, m: Model)
    requires WellFormed(t) && BooleanOperator(t) && AllBool(subs) && SameTruths(subs, Args(t), m)
    ensures var r := MergedOver(t, subs, shared, rank);
            WellFormed(r) && IsBool(r) && (Holds(r, m) <==> Holds(t, m))
  {
    OperatorBools(t);
    if t.And? || t.Or? {
      NaryOverMeaning(t, subs, shared, rank, m);
    } else {
      forall i | 0 <= i < |subs| ensures Eval(subs[i], m) == Eval(Args(t)[i], m) {
        EvalSort(subs[i], m);
        EvalSort(Args(t)[i], m);
      }
      RebuildMeaning(t, subs, rank, m);
    }
  }

  lemma NaryOverMeaning(t: Term, subs: seq<Term>, shared: set<Term>, rank: Order, m: Model)
    requires WellFormed(t) && (t.And? || t.Or?) && AllBool(subs) && SameTruths(subs, Args(t), m)
    ensures var r := MergedOver(t, subs, shared, rank);
            WellFormed(r) && IsBool(r) && (Holds(r, m) <==> Holds(t, m))
  {
    var args := Spread(t, subs, shared, |subs|);
    SpreadMeaning(t, subs, shared, |subs|, m);
    assert subs[..|subs|] == subs;
    ArgsHold(t, m);
    SameTruthsHold(subs, Args(t), m);
    MkAndMeaning(args, rank, m);
    MkOrMeaning(args, rank, m);
    hide Spread, Changes, Eval, EachHolds, OneHolds, SameTruths, Args, MkAnd, MkOr;
  }

  lemma ArgsHold(t: Term, m: Model)
    ensures t.And? ==> (Holds(t, m) <==> EachHolds(Args(t), m))
    ensures t.Or? ==> (Holds(t, m) <==> OneHolds(Args(t), m))
  {
  }

  lemma SameTruthsHold(xs: seq<Term>, ys: seq<Term>, m: Model)
    requires SameTruths(xs, ys, m)
    ensures EachHolds(xs, m) <==> EachHolds(ys, m)
    ensures OneHolds(xs, m) <==> OneHolds(ys, m)
  {
    hide Eval;
  }

  /** Merging keeps the models, whichever terms are taken for shared. */
  lemma {:induction false} MergedMeaning(t: Term, shared: set<Term>, rank: Order, m: Model)
    requires WellFormed(t) && IsBool(t)
    ensures WellFormed(Merged(t, shared, rank)) && IsBool(Merged(t, shared, rank))
    ensures Holds(Merged(t, shared, rank), m) <==> Holds(t, m)
  {
    if BooleanOperator(t) {
      var subs := MergedArgs(t, shared, rank);
      OperatorBools(t);
      hide WellFormed, SortOf, MergedOver, Eval, Args, BooleanOperator;
      forall i | 0 <= i < |subs|
        ensures WellFormed(subs[i]) && IsBool(subs[i]) && (Holds(subs[i], m) <==> Holds(Args(t)[i], m))
      {
        ArgBelow(t, i);
        MergedMeaning(Args(t)[i], shared, rank, m);
      }
      assert SameTruths(subs, Args(t), m);
      OverMeaning(t, subs, shared, rank, m);
    }
  }

  lemma ArgBelow(t: Term, i: nat)
    requires i < |Args(t)|
    ensures Args(t)[i] < t
  {
  }

  // ---------- no nesting is left, except at shared terms ----------

  /**
   Wherever Boolean operators reach, a conjunction is an argument of a conjunction, or a
   disjunction of a disjunction, only if it is one of the given terms.
   */
  ghost predicate Flat(u: Term, images: set<Term>) {
    BooleanOperator(u) ==>
      forall i :: 0 <= i < |Args(u)| ==>
        Flat(Args(u)[i], images) && (SameConnective(Args(u)[i], u) ==> Args(u)[i] in images)
  }

  /** What the shared terms became. */
  ghost function Images(t: Term, shared: set<Term>, rank: Order): set<Term> {
    set u | u in Skeleton(t) && u in shared :: Merged(u, shared, rank)
  }

  ghost predicate AllFlat(ts: seq<Term>, images: set<Term>) {
    forall i :: 0 <= i < |ts| ==> Flat(ts[i], images)
  }

  /** Arguments that a connective may have. */
  ghost predicate FlatUnder(t: Term, ts: seq<Term>, images: set<Term>) {
    AllFlat(ts, images) && forall i :: 0 <= i < |ts| && SameConnective(ts[i], t) ==> ts[i] in images
  }

  lemma FlatArgs(u: Term, images: set<Term>)
    requires Flat(u, images) && BooleanOperator(u)
    ensures FlatUnder(u, Args(u), images)
  {
  }

  lemma FlatOver(u: Term, images: set<Term>)
    requires FlatUnder(u, Args(u), images)
    ensures Flat(u, images)
  {
  }

  lemma {:induction false} SpreadFlat(t: Term, subs: seq<Term>, shared: set<Term>, n: nat, images: set<Term>)
    requires n <= |subs| == |Args(t)| && (t.And? || t.Or?) && AllFlat(subs, images)
    requires forall i :: 0 <= i < |subs| && Args(t)[i] in shared ==> subs[i] in images
    ensures FlatUnder(t, Spread(t, subs, shared, n), images)
  {
    if n > 0 {
      SpreadFlat(t, subs, shared, n - 1, images);
      var u := subs[n - 1];
      if Spreads(t, subs, shared, n - 1) { FlatArgs(u, images); }
      hide Flat, Args;
    }
  }

  /** What mkAnd or mkOr builds from arguments the connective may have. */
  lemma NaryFlat(t: Term, args: seq<Term>, rank: Order, images: set<Term>)
    requires (t.And? || t.Or?) && AllBool(args) && FlatUnder(t, args, images)
    ensures Flat(if t.And? then MkAnd(args, rank) else MkOr(args, rank), images)
  {
    var zero, one := if t.And? then False else True, if t.And? then True else False;
    NaryShape(args, rank, zero, one);
    match Compact(SortSigned(args, rank), None, zero, one)
    case Absorbed =>
    case Kept(ys) =>
      var us := UnsignedAll(ys);
      hide Compact, SortSigned, UnsignedAll, Flat;
      KeptFlat(t, args, us, images);
      if |ys| == 1 {
        assert us[0] == Unsigned(ys[0]);
      } else if |ys| > 1 {
        FlatOver(if t.And? then And(us) else Or(us), images);
      }
      ConstantFlat(images);
  }

  lemma ConstantFlat(images: set<Term>)
    ensures Flat(True, images) && Flat(False, images)
  {
  }

  lemma KeptFlat(t: Term, args: seq<Term>, us: seq<Term>, images: set<Term>)
    requires FlatUnder(t, args, images) && forall u :: u in us ==> u in args
    ensures FlatUnder(t, us, images)
  {
    hide Flat;
    forall i | 0 <= i < |us| ensures Flat(us[i], images) && (SameConnective(us[i], t) ==> us[i] in images) {
      assert us[i] in us;
      var j :| 0 <= j < |args| && args[j] == us[i];
    }
  }

  lemma NotFlat(u: Term, images: set<Term>)
    requires Flat(u, images)
    ensures Flat(MkNot(u), images)
  {
    if u.Not? { assert Args(u)[0] == u.arg; }
  }

  lemma RebuildFlat(t: Term, args: seq<Term>, rank: Order, images: set<Term>)
    requires BooleanOperator(t) && !t.And? && !t.Or? && |args| == |Args(t)| && AllFlat(args, images)
    ensures Flat(Rebuild(t, args, rank), images)
  {
    ConstantFlat(images);
    forall i | 0 <= i < |args| ensures Flat(args[i], images) && Flat(MkNot(args[i]), images) {
      NotFlat(args[i], images);
    }
    if t.Xor? || t.Eq? {
      PairFlat(args[0], args[1], images);
      PairFlat(args[1], args[0], images);
    } else if t.Ite? {
      var u := Ite(args[0], args[1], args[2]);
      assert Args(u) == args;
    }
  }

  lemma PairFlat(a: Term, b: Term, images: set<Term>)
    requires Flat(a, images) && Flat(b, images)
    ensures Flat(Xor(a, b), images) && Flat(Eq(a, b), images)
  {
    assert Args(Xor(a, b)) == [a, b] && Args(Eq(a, b)) == [a, b];
  }

  lemma OverFlat(t: Term, subs: seq<Term>, shared: set<Term>, rank: Order, images: set<Term>)
    requires WellFormed(t) && BooleanOperator(t) && |subs| == |Args(t)| && AllBool(subs) && AllFlat(subs, images)
    requires forall i :: 0 <= i < |subs| && Args(t)[i] in shared ==> subs[i] in images
    ensures Flat(MergedOver(t, subs, shared, rank), images)
  {
    if t.And? || t.Or? {
      SpreadMeaning(t, subs, shared, |subs|, AnyModel);
      SpreadFlat(t, subs, shared, |subs|, images);
      hide Flat, Spread, WellFormed;
      if Changes(t, subs, shared, |subs|) {
        NaryFlat(t, Spread(t, subs, shared, |subs|), rank, images);
      } else {
        Unchanged(t, subs, shared, images);
      }
    } else if subs == Args(t) {
      hide WellFormed;
      forall i | 0 <= i < |Args(t)| ensures Flat(Args(t)[i], images) { assert Flat(subs[i], images); }
    } else {
      hide Flat, Rebuild, WellFormed;
      RebuildFlat(t, subs, rank, images);
    }
  }

  lemma Unchanged(t: Term, subs: seq<Term>, shared: set<Term>, images: set<Term>)
    requires (t.And? || t.Or?) && |subs| == |Args(t)| && !Changes(t, subs, shared, |subs|) && AllFlat(subs, images)
    requires forall i :: 0 <= i < |subs| && Args(t)[i] in shared ==> subs[i] in images
    ensures Flat(t, images)
  {
    hide Flat;
    forall i | 0 <= i < |subs|
      ensures subs[i] == Args(t)[i] && Flat(Args(t)[i], images)
        && (SameConnective(Args(t)[i], t) ==> Args(t)[i] in images)
    {
    }
    FlatOver(t, images);
  }

  /** In the merged term nested connectives are images of shared terms. */
  lemma {:induction false} MergedFlat(t: Term, shared: set<Term>, rank: Order, images: set<Term>)
    requires WellFormed(t) && IsBool(t)
    requires forall u :: u in Skeleton(t) && u in shared ==> Merged(u, shared, rank) in images
    ensures Flat(Merged(t, shared, rank), images)
  {
    if BooleanOperator(t) {
      var subs := MergedArgs(t, shared, rank);
      OperatorBools(t);
      hide WellFormed, SortOf, MergedOver, Args, BooleanOperator, Flat;
      forall i | 0 <= i < |subs|
        ensures WellFormed(subs[i]) && IsBool(subs[i]) && Flat(subs[i], images)
          && (Args(t)[i] in shared ==> subs[i] in images)
      {
        ArgBelow(t, i);
        ArgSkeleton(t, i);
        MergedMeaning(Args(t)[i], shared, rank, AnyModel);
        MergedFlat(Args(t)[i], shared, rank, images);
      }
      OverFlat(t, subs, shared, rank, images);
    }
  }

  lemma ArgSkeleton(t: Term, i: nat)
    requires BooleanOperator(t) && i < |Args(t)|
    ensures Args(t)[i] in Skeleton(t) && Skeleton(Args(t)[i]) <= Skeleton(t)
  {
    SkeletonArg(t, t, i);
    SkeletonNested(t, Args(t)[i]);
  }

  // ---------- shared terms stay whole ----------

  /** A formula that is flat but for its shared terms stays as it is. */
  lemma {:induction false} FlatStays(t: Term, shared: set<Term>, rank: Order)
    requires Flat(t, shared)
    ensures Merged(t, shared, rank) == t
  {
    if BooleanOperator(t) {
      var subs := MergedArgs(t, shared, rank);
      forall i | 0 <= i < |Args(t)|
        ensures subs[i] == Args(t)[i] && !Spreads(t, subs, shared, i)
      {
        FlatStays(Args(t)[i], shared, rank);
      }
      assert subs == Args(t);
    }
  }

  /** A shared argument becomes one argument, unless mkAnd or mkOr drops it or the whole list. */
  lemma SharedStays(t: Term, shared: set<Term>, rank: Order, i: nat)
    requires WellFormed(t) && (t.And? || t.Or?) && i < |Args(t)| && Args(t)[i] in shared
    ensures var (r, a) := (Merged(t, shared, rank), Merged(Args(t)[i], shared, rank));
            IsConstant(a) || IsConstant(r) || r == a || (SameConnective(r, t) && a in Args(r))
  {
    var subs := MergedArgs(t, shared, rank);
    forall j | 0 <= j < |subs| ensures WellFormed(subs[j]) && IsBool(subs[j]) {
      MergedMeaning(Args(t)[j], shared, rank, AnyModel);
    }
    MergedUnfold(t, shared, rank);
    hide Merged, WellFormed, SortOf;
    if Changes(t, subs, shared, |subs|) {
      SpreadMeaning(t, subs, shared, |subs|, AnyModel);
      SpreadHolds(t, subs, shared, |subs|, i);
      if !IsConstant(subs[i]) { NormalForm.NaryKeeps(Spread(t, subs, shared, |subs|), rank, subs[i]); }
    }
  }

  lemma {:induction false} SpreadHolds(t: Term, subs: seq<Term>, shared: set<Term>, n: nat, i: nat)
    requires i < n <= |subs| == |Args(t)| && Args(t)[i] in shared
    ensures subs[i] in Spread(t, subs, shared, n)
  {
    if i < n - 1 { SpreadHolds(t, subs, shared, n - 1, i); }
  }

  // ---------- the rewriting ----------

  /** The terms that more than one argument position holds. */
  function SharedOf(counts: map<Term, nat>): set<Term> {
    set t | t in counts && counts[t] > 1
  }

  ghost predicate Rewriting(root: Term, queue: seq<Term>, cache: map<Term, Term>, shared: set<Term>, rank: Order) {
    && (root in cache || (queue != [] && queue[0] == root))
    && (forall q :: q in queue ==> q in Skeleton(root) && BooleanOperator(q))
    && CacheRight(root, cache, shared, rank)
  }

  ghost predicate CacheRight(root: Term, cache: map<Term, Term>, shared: set<Term>, rank: Order) {
    forall t :: t in cache ==> t in Skeleton(root) && cache[t] == Merged(t, shared, rank)
  }

  /** Arguments of a term that are in the cache, merged. */
  ghost predicate ArgsCached(t: Term, cache: map<Term, Term>, shared: set<Term>, rank: Order) {
    forall i :: 0 <= i < |Args(t)| ==> Args(t)[i] in cache && cache[Args(t)[i]] == Merged(Args(t)[i], shared, rank)
  }

  /** The argument list of a conjunction or disjunction over the rewritten arguments. */
  method MergeAndOrArgs(tr: Term, cache: map<Term, Term>, counts: map<Term, nat>, rank: Order) returns (r: Term)
    requires (tr.And? || tr.Or?) && ArgsCached(tr, cache, SharedOf(counts), rank)
    requires forall i :: 0 <= i < |Args(tr)| ==> Args(tr)[i] in counts
    ensures r == Merged(tr, SharedOf(counts), rank)
  {
    ghost var shared := SharedOf(counts);
    ghost var subs := MergedArgs(tr, shared, rank);
    var newArgs: seq<Term>, changed := [], false;
    hide Merged, MergedArgs;
    for i := 0 to |Args(tr)|
      invariant newArgs == Spread(tr, subs, shared, i) && (changed <==> Changes(tr, subs, shared, i))
    {
      var arg := Args(tr)[i];
      var subst := cache[arg];
      assert subst == subs[i] && (arg in shared <==> counts[arg] > 1);
      if SameConnective(subst, tr) && !(counts[arg] > 1) {
        changed, newArgs := true, newArgs + Args(subst);
      } else {
        changed, newArgs := changed || subst != arg, newArgs + [subst];
      }
    }
    MergedUnfold(tr, shared, rank);
    r := if !changed then tr else if tr.And? then MkAnd(newArgs, rank) else MkOr(newArgs, rank);
  }

  lemma MergedUnfold(t: Term, shared: set<Term>, rank: Order)
    requires BooleanOperator(t)
    ensures Merged(t, shared, rank) == MergedOver(t, MergedArgs(t, shared, rank), shared, rank)
  {
  }

  /** A negation or another connective over the rewritten arguments. */
  method MergeOther(tr: Term, cache: map<Term, Term>, ghost shared: set<Term>, rank: Order) returns (r: Term)
    requires BooleanOperator(tr) && !tr.And? && !tr.Or? && ArgsCached(tr, cache, shared, rank)
    ensures r == Merged(tr, shared, rank)
  {
    hide Merged, BooleanOperator;
    var newArgs: seq<Term>, changed := [], false;
    for i := 0 to |Args(tr)|
      invariant |newArgs| == i && forall j :: 0 <= j < i ==> newArgs[j] == Merged(Args(tr)[j], shared, rank)
      invariant changed <==> exists j :: 0 <= j < i && newArgs[j] != Args(tr)[j]
    {
      changed, newArgs := changed || cache[Args(tr)[i]] != Args(tr)[i], newArgs + [cache[Args(tr)[i]]];
    }
    assert newArgs == MergedArgs(tr, shared, rank);
    assert !changed <==> newArgs == Args(tr);
    MergedUnfold(tr, shared, rank);
    r := if changed then Rebuild(tr, newArgs, rank) else tr;
  }

  /** A Boolean term that is no Boolean operator. */
  predicate Atom(t: Term) {
    t.True? || t.False? || t.Var? || t.App? || (t.Eq? && !IsBool(t.lhs))
  }

  /** Pushes the operators among the arguments that are not in the cache; atoms stay as they are. */
  method PushOperators(t: Term, queue0: seq<Term>, cache0: map<Term, Term>)
    returns (queue: seq<Term>, cache: map<Term, Term>)
    requires WellFormed(t) && BooleanOperator(t)
    ensures queue0 <= queue && cache0.Keys <= cache.Keys && forall x :: x in cache0 ==> cache[x] == cache0[x]
    ensures forall x :: x in cache && x !in cache0 ==> x in Args(t) && Atom(x) && cache[x] == x
    ensures forall q :: q in queue ==> q in queue0 || (q in Args(t) && BooleanOperator(q))
    ensures queue == queue0 ==> forall i :: 0 <= i < |Args(t)| ==> Args(t)[i] in cache
    ensures queue != queue0 ==> |queue| > |queue0| && queue[|queue| - 1] in Args(t) && queue[|queue| - 1] !in cache
  {
    OperatorBools(t);
    hide WellFormed;
    queue, cache := queue0, cache0;
    for i := 0 to |Args(t)|
      invariant queue0 <= queue && cache0.Keys <= cache.Keys && forall x :: x in cache0 ==> cache[x] == cache0[x]
      invariant forall x :: x in cache && x !in cache0 ==> x in Args(t) && Atom(x) && cache[x] == x
      invariant forall q :: q in queue ==> q in queue0 || (q in Args(t) && BooleanOperator(q))
      invariant queue == queue0 ==> forall j :: 0 <= j < i ==> Args(t)[j] in cache
      invariant queue != queue0 ==> |queue| > |queue0| && queue[|queue| - 1] in Args(t) && queue[|queue| - 1] !in cache
      invariant queue != queue0 ==> BooleanOperator(queue[|queue| - 1])
    {
      var arg := Args(t)[i];
      if arg !in cache {
        if BooleanOperator(arg) {
          queue := queue + [arg];
        } else {
          assert IsBool(arg) && Atom(arg);
          cache := cache[arg := arg];
        }
      }
    }
  }

  lemma RewritingStarts(root: Term, shared: set<Term>, rank: Order)
    requires BooleanOperator(root)
    ensures Rewriting(root, [root], map[], shared, rank)
  {
  }

  lemma RewritingTop(root: Term, queue: seq<Term>, cache: map<Term, Term>, shared: set<Term>, rank: Order)
    requires Rewriting(root, queue, cache, shared, rank) && queue != [] && WellFormed(root)
    ensures var t := queue[|queue| - 1];
            t in Skeleton(root) && BooleanOperator(t) && WellFormed(t) && forall a :: a in Args(t) ==>
              a in Skeleton(root)
  {
    var t := queue[|queue| - 1];
    assert t in queue;
    SkeletonFormed(root, t);
    forall a | a in Args(t) ensures a in Skeleton(root) {
      var i :| 0 <= i < |Args(t)| && Args(t)[i] == a;
      SkeletonArg(root, t, i);
    }
  }

  lemma {:induction false} SkeletonFormed(t: Term, u: Term)
    requires WellFormed(t) && u in Skeleton(t)
    ensures WellFormed(u)
  {
    if u != t {
      var i :| 0 <= i < |OperatorArgs(t)| && u in Skeleton(OperatorArgs(t)[i]);
      SkeletonFormed(OperatorArgs(t)[i], u);
    }
  }

  lemma RewritingPush(root: Term, queue: seq<Term>, cache: map<Term, Term>, more: seq<Term>, cache': map<Term, Term>,
                      shared: set<Term>, rank: Order)
    requires Rewriting(root, queue, cache, shared, rank) && queue != []
    requires queue <= more && cache.Keys <= cache'.Keys && forall x :: x in cache ==> cache'[x] == cache[x]
    requires forall a :: a in Args(queue[|queue| - 1]) ==> a in Skeleton(root)
    requires forall x :: x in cache' && x !in cache ==> x in Args(queue[|queue| - 1]) && Atom(x) && cache'[x] == x
    requires forall q :: q in more ==> q in queue || (q in Args(queue[|queue| - 1]) && BooleanOperator(q))
    ensures Rewriting(root, more, cache', shared, rank)
  {
    hide Skeleton, Args;
    forall t | t in cache' ensures t in Skeleton(root) && cache'[t] == Merged(t, shared, rank) {
      if t !in cache { AtomMerged(t, shared, rank); }
    }
    hide Merged, BooleanOperator, Atom;
  }

  lemma AtomMerged(t: Term, shared: set<Term>, rank: Order)
    requires Atom(t)
    ensures Merged(t, shared, rank) == t
  {
  }

  lemma RewritingPop(root: Term, queue: seq<Term>, cache: map<Term, Term>, shared: set<Term>, rank: Order, r: Term)
    requires Rewriting(root, queue, cache, shared, rank) && queue != []
    requires r == Merged(queue[|queue| - 1], shared, rank)
    ensures queue[|queue| - 1] in cache ==> Rewriting(root, queue[..|queue| - 1], cache, shared, rank)
    ensures Rewriting(root, queue[..|queue| - 1], cache[queue[|queue| - 1] := r], shared, rank)
  {
    var n, t := |queue| - 1, queue[|queue| - 1];
    assert t in queue && forall q :: q in queue[..n] ==> q in queue;
    assert n > 0 ==> queue[..n][0] == queue[0];
    hide Skeleton, Merged, BooleanOperator;
    CachedNext(root, cache, shared, rank, t, r);
    hide CacheRight;
  }

  lemma CachedNext(root: Term, cache: map<Term, Term>, shared: set<Term>, rank: Order, t: Term, r: Term)
    requires CacheRight(root, cache, shared, rank) && t in Skeleton(root) && r == Merged(t, shared, rank)
    ensures CacheRight(root, cache[t := r], shared, rank)
  {
    hide Skeleton, Merged;
  }

  lemma RewritingArgs(root: Term, queue: seq<Term>, cache: map<Term, Term>, shared: set<Term>, rank: Order, t: Term)
    requires Rewriting(root, queue, cache, shared, rank) && forall i :: 0 <= i < |Args(t)| ==> Args(t)[i] in cache
    ensures ArgsCached(t, cache, shared, rank) && forall i :: 0 <= i < |Args(t)| ==> Args(t)[i] in Skeleton(root)
  {
    hide Skeleton, Merged, BooleanOperator;
  }

  lemma PopRanked(queue: seq<Term>, proc: set<Term>)
    requires queue != [] && queue[|queue| - 1] in proc
    ensures !TopOpen(queue, proc)
    ensures var rest := queue[..|queue| - 1]; TopOpen(rest, proc) || SearchRank(rest, proc) < SearchRank(queue, proc)
  {
    PopRank(queue, proc);
  }

  lemma PopShrinks(root: Term, cache: map<Term, Term>, cache': map<Term, Term>, t: Term, r: Term)
    requires t in Skeleton(root) && t !in cache && cache.Keys <= cache'.Keys
    ensures Skeleton(root) - cache'[t := r].Keys < Skeleton(root) - cache.Keys
  {
    hide Skeleton;
    assert t in Skeleton(root) - cache.Keys && t !in Skeleton(root) - cache'[t := r].Keys;
  }

  /** Rewrites a formula bottom up over an explicit stack; terms counted more than once are kept whole. */
  method RewriteMaxArity(root: Term, counts: map<Term, nat>, rank: Order) returns (r: Term)
    requires WellFormed(root) && BooleanOperator(root) && Skeleton(root) <= counts.Keys
    ensures r == Merged(root, SharedOf(counts), rank)
  {
    hide *;
    ghost var shared := SharedOf(counts);
    var queue, cache: map<Term, Term> := [root], map[];
    RewritingStarts(root, shared, rank);
    while |queue| != 0
      invariant Rewriting(root, queue, cache, shared, rank)
      decreases Skeleton(root) - cache.Keys, if TopOpen(queue, cache.Keys) then 0 else 1, SearchRank(queue, cache.Keys)
    {
      var tr, rest := queue[|queue| - 1], queue[..|queue| - 1];
      RewritingTop(root, queue, cache, shared, rank);
      RewritingPop(root, queue, cache, shared, rank, Merged(tr, shared, rank));
      if tr in cache {
        PopRanked(queue, cache.Keys);
        queue := rest;
        continue;
      }
      var more, cache' := PushOperators(tr, queue, cache);
      RewritingPush(root, queue, cache, more, cache', shared, rank);
      if more != queue {
        PushRanked(root, queue, cache, more, cache');
        queue, cache := more, cache';
        continue;
      }
      RewritingArgs(root, queue, cache', shared, rank, tr);
      var result;
      if tr.And? || tr.Or? {
        result := MergeAndOrArgs(tr, cache', counts, rank);
      } else {
        result := MergeOther(tr, cache', shared, rank);
      }
      RewritingPop(root, queue, cache', shared, rank, result);
      PopShrinks(root, cache, cache', tr, result);
      queue, cache := rest, cache'[tr := result];
    }
    RewritingEnds(root, cache, shared, rank);
    r := cache[root];
  }

  /** What pushing does to the measure. */
  lemma PushRanked(root: Term, queue: seq<Term>, cache: map<Term, Term>, more: seq<Term>, cache': map<Term, Term>)
    requires queue != [] && queue[|queue| - 1] !in cache && cache.Keys <= cache'.Keys
    requires |more| > 0 && more[|more| - 1] in Args(queue[|queue| - 1]) && more[|more| - 1] !in cache'
    requires forall x :: x in cache' && x !in cache ==> x in Skeleton(root)
    ensures TopOpen(queue, cache.Keys) && TopOpen(more, cache'.Keys)
    ensures Skeleton(root) - cache'.Keys < Skeleton(root) - cache.Keys
            || (cache'.Keys == cache.Keys && SearchRank(more, cache'.Keys) < SearchRank(queue, cache.Keys))
  {
    hide Skeleton, SearchRank, Args;
    if cache'.Keys == cache.Keys {
      PushRank(queue, more, cache.Keys);
    } else {
      var x :| x in cache' && x !in cache;
      assert x in Skeleton(root) - cache.Keys && x !in Skeleton(root) - cache'.Keys;
    }
  }

  lemma RewritingEnds(root: Term, cache: map<Term, Term>, shared: set<Term>, rank: Order)
    requires Rewriting(root, [], cache, shared, rank)
    ensures root in cache && cache[root] == Merged(root, shared, rank)
  {
  }

  /** The terms of the formula that several argument positions hold. */
  ghost function HeldTwice(root: Term, expanded: seq<Term>): set<Term> {
    set t | t in Skeleton(root) && Edges(expanded)[t] > 1
  }

  lemma SharedHeld(root: Term, counts: map<Term, nat>, expanded: seq<Term>)
    requires AllEdges(root, expanded) && counts.Keys == Skeleton(root)
    requires forall t :: t in counts ==> counts[t] == if t == root then 1 else Edges(expanded)[t]
    ensures SharedOf(counts) == HeldTwice(root, expanded)
  {
    RootFree(root, expanded);
    hide Skeleton, Edges, BooleanOperator, AllEdges;
    forall t ensures t in SharedOf(counts) <==> t in Skeleton(root) && Edges(expanded)[t] > 1 {
      if t in Skeleton(root) { assert t in counts; }
    }
  }

  /**
   The formula with nested connectives merged: it has the same models, and a connective is an
   argument of the same connective only if it is what became of a term that several places hold.
   */
  method RewriteMaxArityClassic(root: Term, rank: Order) returns (r: Term, ghost expanded: seq<Term>)
    requires WellFormed(root) && BooleanOperator(root)
    ensures WellFormed(r) && IsBool(r) && forall m: Model :: Holds(r, m) <==> Holds(root, m)
    ensures AllEdges(root, expanded) && r == Merged(root, HeldTwice(root, expanded), rank)
    ensures Flat(r, Images(root, HeldTwice(root, expanded), rank))
    ensures Flat(root, HeldTwice(root, expanded)) ==> r == root
  {
    hide *;
    var counts;
    counts, expanded := ComputeIncomingEdges(root);
    r := RewriteMaxArity(root, counts, rank);
    SharedHeld(root, counts, expanded);
    OperatorBools(root);
    ClassicMeaning(root, SharedOf(counts), rank);
    if Flat(root, HeldTwice(root, expanded)) { FlatStays(root, HeldTwice(root, expanded), rank); }
  }

  lemma ClassicMeaning(root: Term, shared: set<Term>, rank: Order)
    requires WellFormed(root) && IsBool(root)
    ensures var r := Merged(root, shared, rank);
            && WellFormed(r) && IsBool(r) && (forall m: Model :: Holds(r, m) <==> Holds(root, m))
            && Flat(r, Images(root, shared, rank))
  {
    hide WellFormed, Merged, Skeleton, Eval;
    MergedMeaning(root, shared, rank, AnyModel);
    forall m: Model ensures Holds(Merged(root, shared, rank), m) <==> Holds(root, m) {
      MergedMeaning(root, shared, rank, m);
    }
    MergedFlat(root, shared, rank, Images(root, shared, rank));
  }
}
