/**
 The normal form of conjunctions and disjunctions: what mkAnd and mkOr return is decided by the
 set of their arguments.
 */
module NormalForm {
  import opened Sequences
  import opened Terms

  /** Different atoms among the arguments have different references. */
  ghost predicate Separates(rank: Order, ts: seq<Term>) {
    forall t, u :: t in ts && u in ts && rank(Signed(t).tr) == rank(Signed(u).tr) ==> Signed(t).tr == Signed(u).tr
  }

  /** The term zero is an argument, or an argument is the negation of another. */
  ghost predicate Collapses(ts: seq<Term>, zero: Term) {
    zero in ts || exists t :: t in ts && MkNot(t) in ts
  }

  /** The arguments but for one, each once, in ascending order of their atoms. */
  ghost predicate Listing(us: seq<Term>, ts: seq<Term>, one: Term, rank: Order) {
    && (forall u :: u in us <==> u in ts && u != one)
    && forall i, j :: 0 <= i < j < |us| ==> rank(Signed(us[i]).tr) < rank(Signed(us[j]).tr)
  }

  // ---------- signed arguments ----------

  ghost predicate Ascending(xs: seq<PtAsgn>, rank: Order) {
    forall i, j :: 0 <= i <= j < |xs| ==> rank(xs[i].tr) <= rank(xs[j].tr)
  }

  ghost predicate Strict(xs: seq<PtAsgn>, rank: Order) {
    forall i, j :: 0 <= i < j < |xs| ==> rank(xs[i].tr) < rank(xs[j].tr)
  }

  ghost predicate Apart(xs: seq<PtAsgn>, rank: Order) {
    forall x, y :: x in xs && y in xs && rank(x.tr) == rank(y.tr) ==> x.tr == y.tr
  }

  lemma {:induction false} InsertAscends(a: PtAsgn, xs: seq<PtAsgn>, rank: Order)
    requires Ascending(xs, rank)
    ensures Ascending(InsertSigned(a, xs, rank), rank)
  {
    if !(xs == [] || rank(a.tr) <= rank(xs[0].tr)) {
      var r := InsertSigned(a, xs[1..], rank);
      InsertAscends(a, xs[1..], rank);
      InsertShape(a, xs[1..], rank);
      forall j | 0 <= j < |r| ensures rank(xs[0].tr) <= rank(r[j].tr) {
        assert r[j] in r;
        if r[j] in xs[1..] { var k :| 0 <= k < |xs[1..]| && xs[1..][k] == r[j]; }
      }
    }
  }

  lemma {:induction false} SortAscends(ts: seq<Term>, rank: Order)
    ensures Ascending(SortSigned(ts, rank), rank)
    ensures forall x :: x in SortSigned(ts, rank) <==> exists t :: t in ts && Signed(t) == x
  {
    if ts != [] {
      SortAscends(ts[1..], rank);
      InsertAscends(Signed(ts[0]), SortSigned(ts[1..], rank), rank);
      InsertShape(Signed(ts[0]), SortSigned(ts[1..], rank), rank);
      assert ts == [ts[0]] + ts[1..];
    }
  }

  /** The list holds zero, or a term with both signs; the last argument kept counts as part of it. */
  ghost predicate Clashes(xs: seq<PtAsgn>, p: Option<PtAsgn>, zero: Term) {
    || (exists x :: x in xs && x.tr == zero)
    || (exists x, y :: x in xs && y in xs && x.tr == y.tr && x.sgn != y.sgn)
    || (p.Some? && exists x :: x in xs && x.tr == p.value.tr && x.sgn != p.value.sgn)
  }

  /** The last argument kept comes before the list. */
  ghost predicate Before(p: Option<PtAsgn>, xs: seq<PtAsgn>, rank: Order) {
    p.Some? ==> forall x :: x in xs ==>
                  rank(p.value.tr) <= rank(x.tr) && (rank(p.value.tr) == rank(x.tr) ==> p.value.tr == x.tr)
  }

  /** What the pass keeps: everything but one and the last argument, strictly ascending. */
  ghost predicate KeptForm(ys: seq<PtAsgn>, xs: seq<PtAsgn>, p: Option<PtAsgn>, one: Term, rank: Order) {
    && Strict(ys, rank) && (p.Some? ==> forall y :: y in ys ==> rank(p.value.tr) < rank(y.tr))
    && forall y :: y in ys <==> y in xs && y.tr != one && p != Some(y)
  }

  ghost predicate Sorted(xs: seq<PtAsgn>, p: Option<PtAsgn>, one: Term, rank: Order) {
    && Ascending(xs, rank) && Apart(xs, rank) && Before(p, xs, rank)
    && (p.Some? ==> p.value.tr != one) && forall x :: x in xs && x.tr == one ==> x.sgn
  }

  lemma {:induction false} CompactForm(xs: seq<PtAsgn>, p: Option<PtAsgn>, zero: Term, one: Term, rank: Order)
    requires Sorted(xs, p, one, rank) && zero != one
    ensures match Compact(xs, p, zero, one)
            case Absorbed => Clashes(xs, p, zero)
            case Kept(ys) => !Clashes(xs, p, zero) && KeptForm(ys, xs, p, one, rank)
  {
    CompactStep(xs, p, zero, one);
    hide Sorted, Clashes, KeptForm, Compact;
    if xs == [] {
      EmptyForm(p, zero, one, rank);
    } else {
      var x, rest := xs[0], xs[1..];
      TailSorted(xs, p, one, rank);
      if x.tr == zero || (p.Some? && p.value.tr == x.tr && p.value.sgn != x.sgn) {
        HeadClashes(xs, p, zero);
      } else if x.tr == one || p == Some(x) {
        CompactForm(rest, p, zero, one, rank);
        SkipForm(xs, p, zero, one, rank);
      } else {
        CompactForm(rest, Some(x), zero, one, rank);
        KeepForm(xs, p, zero, one, rank);
      }
    }
  }

  /** One step of the pass. */
  lemma CompactStep(xs: seq<PtAsgn>, p: Option<PtAsgn>, zero: Term, one: Term)
    ensures xs == [] ==> Compact(xs, p, zero, one) == Kept([])
    ensures xs != [] && xs[0].tr == zero ==> Compact(xs, p, zero, one) == Absorbed
    ensures xs != [] && xs[0].tr != zero && (xs[0].tr == one || p == Some(xs[0])) ==>
              Compact(xs, p, zero, one) == Compact(xs[1..], p, zero, one)
    ensures xs != [] && xs[0].tr !in {zero, one} && p != Some(xs[0]) && p.Some? && p.value.tr == xs[0].tr ==>
              Compact(xs, p, zero, one) == Absorbed
    ensures xs != [] && xs[0].tr !in {zero, one} && (p.Some? ==> p.value.tr != xs[0].tr) ==>
              Compact(xs, p, zero, one) ==
                var rest := Compact(xs[1..], Some(xs[0]), zero, one);
                if rest.Absorbed? then Absorbed else Kept([xs[0]] + rest.xs)
  {
  }

  lemma EmptyForm(p: Option<PtAsgn>, zero: Term, one: Term, rank: Order)
    ensures !Clashes([], p, zero) && KeptForm([], [], p, one, rank)
  {
  }

  lemma HeadClashes(xs: seq<PtAsgn>, p: Option<PtAsgn>, zero: Term)
    requires xs != [] && (xs[0].tr == zero || (p.Some? && p.value.tr == xs[0].tr && p.value.sgn != xs[0].sgn))
    ensures Clashes(xs, p, zero)
  {
    assert xs[0] in xs;
  }

  lemma TailSorted(xs: seq<PtAsgn>, p: Option<PtAsgn>, one: Term, rank: Order)
    requires Sorted(xs, p, one, rank) && xs != []
    ensures Sorted(xs[1..], p, one, rank) && (xs[0].tr != one ==> Sorted(xs[1..], Some(xs[0]), one, rank))
    ensures p.Some? ==> p.value.tr != one
  {
    var rest := xs[1..];
    TailAscends(xs, rank);
    assert forall x :: x in rest ==> x in xs;
    assert xs[0] in xs;
    hide Ascending;
  }

  lemma TailAscends(xs: seq<PtAsgn>, rank: Order)
    requires Ascending(xs, rank) && xs != []
    ensures Ascending(xs[1..], rank) && forall x :: x in xs[1..] ==> rank(xs[0].tr) <= rank(x.tr)
  {
    var rest := xs[1..];
    forall i, j | 0 <= i <= j < |rest| ensures rank(rest[i].tr) <= rank(rest[j].tr) {
      assert rest[i] == xs[i + 1] && rest[j] == xs[j + 1];
    }
    forall x | x in rest ensures rank(xs[0].tr) <= rank(x.tr) {
      var i :| 0 <= i < |rest| && rest[i] == x;
      assert xs[i + 1] == x;
    }
  }

  /** Dropping one or a repetition changes neither clashes nor what is kept. */
  lemma SkipForm(xs: seq<PtAsgn>, p: Option<PtAsgn>, zero: Term, one: Term, rank: Order)
    requires Sorted(xs, p, one, rank) && xs != [] && zero != one && (xs[0].tr == one || p == Some(xs[0]))
    requires xs[0].tr != zero
    ensures Clashes(xs, p, zero) <==> Clashes(xs[1..], p, zero)
    ensures forall ys :: KeptForm(ys, xs[1..], p, one, rank) ==> KeptForm(ys, xs, p, one, rank)
  {
    assert xs == [xs[0]] + xs[1..];
    hide Ascending, Strict, Apart, Before;
  }

  lemma KeepForm(xs: seq<PtAsgn>, p: Option<PtAsgn>, zero: Term, one: Term, rank: Order)
    requires Sorted(xs, p, one, rank) && xs != [] && zero != one
    requires xs[0].tr != zero && xs[0].tr != one && (p.Some? ==> p.value.tr != xs[0].tr)
    ensures Clashes(xs, p, zero) <==> Clashes(xs[1..], Some(xs[0]), zero)
    ensures forall ys :: KeptForm(ys, xs[1..], Some(xs[0]), one, rank) ==> KeptForm([xs[0]] + ys, xs, p, one, rank)
  {
    var x, rest := xs[0], xs[1..];
    assert xs == [x] + rest && x in xs;
    forall y | y in xs ensures rank(x.tr) <= rank(y.tr) {
      var i :| 0 <= i < |xs| && xs[i] == y;
    }
    if p.Some? {
      forall y | y in xs ensures rank(p.value.tr) < rank(y.tr) {
        assert rank(p.value.tr) < rank(x.tr);
      }
    }
    forall ys | KeptForm(ys, rest, Some(x), one, rank) ensures KeptForm([x] + ys, xs, p, one, rank) {
      KeepOne(ys, x, rest, p, one, rank);
    }
  }

  lemma KeepOne(ys: seq<PtAsgn>, x: PtAsgn, rest: seq<PtAsgn>, p: Option<PtAsgn>, one: Term, rank: Order)
    requires KeptForm(ys, rest, Some(x), one, rank) && x.tr != one
    requires p.Some? ==> forall y :: y in [x] + rest ==> rank(p.value.tr) < rank(y.tr)
    ensures KeptForm([x] + ys, [x] + rest, p, one, rank)
  {
    var zs := [x] + ys;
    forall i, j | 0 <= i < j < |zs| ensures rank(zs[i].tr) < rank(zs[j].tr) {
      assert zs[j] == ys[j - 1] && ys[j - 1] in ys;
    }
  }

  // ---------- the terms ----------

  lemma SignedIs(t: Term)
    requires WellFormed(t) && IsBool(t)
    ensures Unsigned(Signed(t)) == t && !Signed(t).tr.Not?
      && (IsConstant(Signed(t).tr) ==> Signed(t).sgn && t == Signed(t).tr)
    ensures IsConstant(t) ==> Signed(t).tr == t
    ensures MkNot(t).True? || MkNot(t).False? <==> IsConstant(t)
    ensures !IsConstant(t) ==> Signed(MkNot(t)) == PtAsgn(Signed(t).tr, !Signed(t).sgn)
  {
    UnsignedSigned(t);
    if t.Not? { assert Args(t)[0] == t.arg; }
  }

  lemma ClashCollapse(ts: seq<Term>, rank: Order, zero: Term, one: Term)
    requires AllBool(ts) && IsConstant(zero) && one == MkNot(zero)
    ensures Clashes(SortSigned(ts, rank), None, zero) <==> Collapses(ts, zero)
  {
    var xs := SortSigned(ts, rank);
    SortAscends(ts, rank);
    forall t | t in ts ensures WellFormed(t) && IsBool(t) && Signed(t) in xs { }
    forall t | t in ts {
      SignedIs(t);
    }
    if Clashes(xs, None, zero) {
      if x :| x in xs && x.tr == zero {
        var t :| t in ts && Signed(t) == x;
        SignedIs(t);
      } else {
        var x, y :| x in xs && y in xs && x.tr == y.tr && x.sgn != y.sgn;
        var t :| t in ts && Signed(t) == x;
        var u :| u in ts && Signed(u) == y;
        SignedIs(t);
        SignedIs(u);
        assert Unsigned(y) == u && MkNot(t) == u;
      }
    }
    if Collapses(ts, zero) {
      if zero in ts {
        assert Signed(zero) in xs;
      } else {
        var t :| t in ts && MkNot(t) in ts;
        SignedIs(t);
        assert Signed(t) in xs && Signed(MkNot(t)) in xs;
      }
    }
  }

  lemma SortedArgs(ts: seq<Term>, rank: Order, one: Term)
    requires AllBool(ts) && Separates(rank, ts) && IsConstant(one)
    ensures Sorted(SortSigned(ts, rank), None, one, rank)
  {
    SortAscends(ts, rank);
    var xs := SortSigned(ts, rank);
    forall x | x in xs && x.tr == one ensures x.sgn {
      var t :| t in ts && Signed(t) == x;
      SignedIs(t);
    }
    forall x, y | x in xs && y in xs && rank(x.tr) == rank(y.tr) ensures x.tr == y.tr {
      var t :| t in ts && Signed(t) == x;
      var u :| u in ts && Signed(u) == y;
    }
  }

  lemma KeptListing(ts: seq<Term>, rank: Order, one: Term, ys: seq<PtAsgn>)
    requires AllBool(ts) && IsConstant(one) && KeptForm(ys, SortSigned(ts, rank), None, one, rank)
    ensures Listing(UnsignedAll(ys), ts, one, rank)
  {
    var xs, us := SortSigned(ts, rank), UnsignedAll(ys);
    SortAscends(ts, rank);
    hide SortSigned, UnsignedAll, Strict;
    forall i | 0 <= i < |us| ensures us[i] in ts && us[i] != one && Signed(us[i]) == ys[i] {
      assert ys[i] in ys;
      var t :| t in ts && Signed(t) == ys[i];
      SignedIs(t);
    }
    forall u | u in ts && u != one ensures u in us {
      SignedIs(u);
      assert Signed(u) in ys;
      var i :| 0 <= i < |ys| && ys[i] == Signed(u);
      assert us[i] == u;
    }
    StrictTerms(us, ys, rank);
  }

  lemma StrictTerms(us: seq<Term>, ys: seq<PtAsgn>, rank: Order)
    requires Strict(ys, rank) && |us| == |ys| && forall i :: 0 <= i < |us| ==> Signed(us[i]) == ys[i]
    ensures forall i, j :: 0 <= i < j < |us| ==> rank(Signed(us[i]).tr) < rank(Signed(us[j]).tr)
  {
    hide Signed;
  }

  /**
   mkAnd is false exactly if false or two complements are among the arguments. Otherwise it is
   the conjunction of the arguments but true, each once and in order; none and one need no
   conjunction.
   */
  lemma MkAndForm(ts: seq<Term>, rank: Order) returns (us: seq<Term>)
    requires AllBool(ts) && Separates(rank, ts)
    ensures MkAnd(ts, rank) == False <==> Collapses(ts, False)
    ensures Listing(us, ts, True, rank) || Collapses(ts, False)
    ensures !Collapses(ts, False) ==>
              MkAnd(ts, rank) == if us == [] then True else if |us| == 1 then us[0] else And(us)
  {
    us := NaryForm(ts, rank, False, True);
  }

  /** mkOr, likewise: true exactly if true or two complements are among the arguments. */
  lemma MkOrForm(ts: seq<Term>, rank: Order) returns (us: seq<Term>)
    requires AllBool(ts) && Separates(rank, ts)
    ensures MkOr(ts, rank) == True <==> Collapses(ts, True)
    ensures Listing(us, ts, False, rank) || Collapses(ts, True)
    ensures !Collapses(ts, True) ==>
              MkOr(ts, rank) == if us == [] then False else if |us| == 1 then us[0] else Or(us)
  {
    us := NaryForm(ts, rank, True, False);
  }

  lemma NaryForm(ts: seq<Term>, rank: Order, zero: Term, one: Term) returns (us: seq<Term>)
    requires AllBool(ts) && Separates(rank, ts) && IsConstant(zero) && one == MkNot(zero)
    ensures Compact(SortSigned(ts, rank), None, zero, one).Absorbed? <==> Collapses(ts, zero)
    ensures !Collapses(ts, zero) ==>
      Listing(us, ts, one, rank) && us == UnsignedAll(Compact(SortSigned(ts, rank), None, zero, one).xs)
  {
    var xs := SortSigned(ts, rank);
    SortedArgs(ts, rank, one);
    ClashCollapse(ts, rank, zero, one);
    CompactForm(xs, None, zero, one, rank);
    us := [];
    match Compact(xs, None, zero, one)
    case Absorbed =>
    case Kept(ys) =>
      KeptListing(ts, rank, one, ys);
      us := UnsignedAll(ys);
  }

  // ---------- every argument is kept ----------

  lemma {:induction false} AllKept(xs: seq<PtAsgn>, p: Option<PtAsgn>, zero: Term, one: Term)
    ensures match Compact(xs, p, zero, one)
            case Absorbed => true
            case Kept(ys) => forall x :: x in xs && x.tr != one && p != Some(x) ==> x in ys
  {
    CompactStep(xs, p, zero, one);
    if xs != [] {
      assert xs == [xs[0]] + xs[1..];
      AllKept(xs[1..], p, zero, one);
      AllKept(xs[1..], Some(xs[0]), zero, one);
    }
    hide Compact;
  }

  lemma ArgumentKept(ts: seq<Term>, rank: Order, zero: Term, one: Term, u: Term)
    requires AllBool(ts) && u in ts && !IsConstant(u) && IsConstant(one)
    ensures match Compact(SortSigned(ts, rank), None, zero, one)
            case Absorbed => true
            case Kept(ys) => u in UnsignedAll(ys)
  {
    SignedIs(u);
    SortAscends(ts, rank);
    AllKept(SortSigned(ts, rank), None, zero, one);
    hide Compact, SortSigned, UnsignedAll;
    match Compact(SortSigned(ts, rank), None, zero, one)
    case Absorbed =>
    case Kept(ys) =>
      assert Signed(u) in ys;
      var i :| 0 <= i < |ys| && ys[i] == Signed(u);
      assert UnsignedAll(ys)[i] == u;
  }

  /** An argument that is no constant is the result or an argument of it, unless that is a constant. */
  lemma NaryKeeps(ts: seq<Term>, rank: Order, u: Term)
    requires AllBool(ts) && u in ts && !IsConstant(u)
    ensures var r := MkAnd(ts, rank); r == False || r == u || (r.And? && u in r.args)
    ensures var r := MkOr(ts, rank); r == True || r == u || (r.Or? && u in r.args)
  {
    ArgumentKept(ts, rank, False, True, u);
    ArgumentKept(ts, rank, True, False, u);
    hide Compact, SortSigned;
  }

  // ---------- order and repetition ----------

  ghost predicate Strictly(us: seq<Term>, rank: Order) {
    forall i, j :: 0 <= i < j < |us| ==> rank(Signed(us[i]).tr) < rank(Signed(us[j]).tr)
  }

  lemma {:induction false} ListedOnce(us: seq<Term>, vs: seq<Term>, rank: Order)
    requires Strictly(us, rank) && Strictly(vs, rank) && forall u :: u in us <==> u in vs
    ensures us == vs
  {
    if us == [] {
      NoMember(vs);
    } else if vs == [] {
      NoMember(us);
    } else {
      HeadFirst(us, vs, rank);
      HeadFirst(vs, us, rank);
      forall u ensures u in us[1..] <==> u in vs[1..] {
        TailWithout(us, rank, u);
        TailWithout(vs, rank, u);
      }
      ListedOnce(us[1..], vs[1..], rank);
    }
  }

  lemma NoMember(us: seq<Term>)
    ensures us == [] || exists u :: u in us
  {
    if us != [] { assert us[0] in us; }
  }

  lemma HeadFirst(us: seq<Term>, vs: seq<Term>, rank: Order)
    requires Strictly(vs, rank) && us != [] && vs != [] && us[0] in vs
    ensures us[0] == vs[0] || rank(Signed(vs[0]).tr) < rank(Signed(us[0]).tr)
  {
    var i :| 0 <= i < |vs| && vs[i] == us[0];
  }

  lemma TailWithout(us: seq<Term>, rank: Order, u: Term)
    requires Strictly(us, rank) && us != []
    ensures u in us[1..] <==> u in us && u != us[0]
  {
    assert us == [us[0]] + us[1..];
    if u in us[1..] {
      var i :| 0 <= i < |us[1..]| && us[1..][i] == u;
      assert us[i + 1] == u;
    }
  }

  /** Neither the order of the arguments nor how often one is given matters. */
  lemma SameArguments(ts: seq<Term>, us: seq<Term>, rank: Order)
    requires AllBool(ts) && AllBool(us) && Separates(rank, ts) && forall t :: t in ts <==> t in us
    ensures MkAnd(ts, rank) == MkAnd(us, rank) && MkOr(ts, rank) == MkOr(us, rank)
  {
    hide AllBool, Compact, SortSigned, MkAnd, MkOr;
    assert Collapses(ts, False) == Collapses(us, False) && Collapses(ts, True) == Collapses(us, True);
    var ks := MkAndForm(ts, rank);
    var bs := MkAndForm(us, rank);
    if !Collapses(ts, False) { ListedOnce(ks, bs, rank); }
    var cs := MkOrForm(ts, rank);
    var ds := MkOrForm(us, rank);
    if !Collapses(ts, True) { ListedOnce(cs, ds, rank); }
  }

  // ---------- equalities and exclusive disjunctions ----------

  /**
   An equality is true exactly for one term on both sides and false exactly for complements. The
   order of the sides matters for Booleans only, and no side is a constant.
   */
  lemma MkEqForm(a: Term, b: Term, rank: Order)
    requires WellFormed(a) && WellFormed(b) && SortOf(a) == SortOf(b) && (rank(a) == rank(b) ==> a == b)
    ensures var r := MkEq(a, b, rank);
            && (r == True <==> a == b) && (r == False <==> IsBool(a) && a == MkNot(b))
            && (!IsBool(a) ==> r == MkEq(b, a, rank))
            && (r == Eq(a, b) ==> !IsConstant(a) && !IsConstant(b))
  {
    if IsBool(a) {
      SignedIs(a);
      SignedIs(b);
    }
    NotInside(a, b, a);
    NotInside(a, b, b);
  }

  /** No side of an equality is the equality, its negation or what its negation negates. */
  lemma NotInside(a: Term, b: Term, t: Term)
    requires t == a || t == b
    ensures t != Eq(a, b) && MkNot(t) != Eq(a, b)
  {
    var e := Eq(a, b);
    assert e.lhs < e && e.rhs < e;
    if t.Not? { assert t.arg < t; }
  }

  lemma MkXorForm(a: Term, b: Term, rank: Order)
    requires WellFormed(a) && WellFormed(b) && IsBool(a) && IsBool(b) && (rank(a) == rank(b) ==> a == b)
    ensures var r := MkXor(a, b, rank);
            && (r == False <==> a == b) && (r == True <==> a == MkNot(b)) && r == MkXor(b, a, rank)
  {
  }

  /** An implication is true exactly for a false premise, a true conclusion, or one term on both sides. */
  lemma MkImplForm(a: Term, b: Term, rank: Order)
    requires WellFormed(a) && WellFormed(b) && IsBool(a) && IsBool(b) && Separates(rank, [MkNot(a), b])
    ensures MkImpl(a, b, rank) == True <==> a == False || b == True || a == b
  {
    var ts := [MkNot(a), b];
    MkNotMeaning(a, AnyModel);
    assert AllBool(ts);
    var us := MkOrForm(ts, rank);
    hide MkOr, AllBool;
    NoSelfNegation(a);
    NoSelfNegation(b);
    assert ts[0] in ts && ts[1] in ts;
    assert Collapses(ts, True) <==> a == False || b == True || a == b;
  }

  lemma NoSelfNegation(t: Term)
    requires WellFormed(t)
    ensures MkNot(t) != t && MkNot(MkNot(t)) == t && (MkNot(t) == True <==> t == False)
  {
    if t.Not? { assert Args(t)[0] == t.arg; }
  }
}
