/**
 Conjunctions and disjunctions of two arguments, and of copies of one argument.
 */
module Pairs {
  import opened Sequences
  import opened Terms

  lemma TwoSorted(s: Term, t: Term, rank: Order)
    ensures SortSigned([s, t], rank) ==
              if rank(Signed(s).tr) <= rank(Signed(t).tr) then [Signed(s), Signed(t)] else [Signed(t), Signed(s)]
  {
    assert [s, t][1..] == [t] && [t][1..] == [];
    assert SortSigned([t], rank) == [Signed(t)];
    assert [Signed(t)][1..] == [];
    assert InsertSigned(Signed(s), [], rank) == [Signed(s)];
  }

  lemma CompactOnto(x: PtAsgn, xs: seq<PtAsgn>, p: Option<PtAsgn>, zero: Term, one: Term)
    requires x.tr != zero && x.tr != one && (p.Some? ==> p.value.tr != x.tr)
    ensures var rest := Compact(xs, Some(x), zero, one);
            Compact([x] + xs, p, zero, one) == if rest.Absorbed? then Absorbed else Kept([x] + rest.xs)
  {
    assert ([x] + xs)[1..] == xs && ([x] + xs)[0] == x;
  }

  lemma TwoCompact(x: PtAsgn, y: PtAsgn, zero: Term, one: Term)
    requires x.tr != y.tr && zero !in {x.tr, y.tr} && one !in {x.tr, y.tr}
    ensures Compact([x, y], None, zero, one) == Kept([x, y])
  {
    CompactOnto(y, [], Some(x), zero, one);
    CompactOnto(x, [y], None, zero, one);
    assert [y] + [] == [y] && [x] + [y] == [x, y];
    hide Compact;
  }

  /** Two different arguments that are neither constants nor complements are kept, sorted. */
  lemma TwoKept(s: Term, t: Term, rank: Order)
    requires AllBool([s, t]) && !IsConstant(s) && !IsConstant(t) && Signed(s).tr != Signed(t).tr
    ensures var ts := if rank(Signed(s).tr) <= rank(Signed(t).tr) then [s, t] else [t, s];
            MkAnd([s, t], rank) == And(ts) && MkOr([s, t], rank) == Or(ts)
  {
    assert [s, t][0] == s && [s, t][1] == t;
    var x, y := Signed(s), Signed(t);
    TwoSorted(s, t, rank);
    TwoCompact(x, y, False, True);
    TwoCompact(x, y, True, False);
    TwoCompact(y, x, False, True);
    TwoCompact(y, x, True, False);
    UnsignedSigned(s);
    UnsignedSigned(t);
    assert UnsignedAll([x, y]) == [s, t] && UnsignedAll([y, x]) == [t, s];
  }

  /** Copies of one argument are dropped. */
  lemma {:induction false} SameCompact(n: nat, x: PtAsgn)
    requires !IsConstant(x.tr)
    ensures Compact(seq(n, _ => x), Some(x), False, True) == Kept([])
  {
    if n > 0 {
      assert seq(n, _ => x)[1..] == seq(n - 1, _ => x);
      SameCompact(n - 1, x);
    }
  }

  lemma {:induction false} SameSorted(n: nat, t: Term, rank: Order)
    ensures SortSigned(seq(n, _ => t), rank) == seq(n, _ => Signed(t))
  {
    if n > 0 {
      assert seq(n, _ => t)[1..] == seq(n - 1, _ => t);
      SameSorted(n - 1, t, rank);
    }
  }

  lemma SameKept(n: nat, t: Term, rank: Order)
    requires n > 0 && t.And?
    ensures MkAnd(seq(n, _ => t), rank) == t
  {
    SameSorted(n, t, rank);
    assert seq(n, _ => Signed(t))[1..] == seq(n - 1, _ => Signed(t));
    SameCompact(n - 1, Signed(t));
    assert [Signed(t)] + [] == [Signed(t)];
  }

  /** A conjunction with a second argument leaves the first one as it is only if the second is true or the same. */
  lemma PairIsFirst(a: Term, b: Term, rank: Order)
    requires WellFormed(a) && IsBool(a) && WellFormed(b) && IsBool(b) && !IsConstant(a)
    ensures MkAnd([a, b], rank) == a <==> b == True || b == a
  {
    UnsignedSigned(a);
    UnsignedSigned(b);
    TwoSorted(a, b, rank);
    if IsConstant(b) {
      PairWithConstant(a, b, rank);
    } else if Signed(a).tr == Signed(b).tr {
      PairOnSame(a, b, rank);
    } else {
      assert [a, b][0] == a && [a, b][1] == b;
      TwoKept(a, b, rank);
      NotItsArgument(a, b);
    }
  }

  lemma NotItsArgument(a: Term, b: Term)
    ensures And([a, b]) != a && And([b, a]) != a && And([a, b]) != b && And([b, a]) != b
  {
    assert Args(And([a, b]))[0] == a && Args(And([a, b]))[1] == b;
    assert Args(And([b, a]))[0] == b && Args(And([b, a]))[1] == a;
  }

  lemma PairWithConstant(a: Term, b: Term, rank: Order)
    requires !IsConstant(a) && !IsConstant(Signed(a).tr) && IsConstant(b) && Unsigned(Signed(a)) == a
    ensures MkAnd([a, b], rank) == if b == True then a else False
  {
    var x, y := Signed(a), Signed(b);
    TwoSorted(a, b, rank);
    assert [x, y][1..] == [y] && [y, x][1..] == [x] && [x][1..] == [] && [y][1..] == [];
    assert [x] + [] == [x];
    assert Compact([], Some(x), False, True) == Kept([]);
    assert Compact([y], Some(x), False, True) == if b == True then Kept([]) else Absorbed;
    assert Compact([x], None, False, True) == Kept([x]);
  }

  lemma PairOnSame(a: Term, b: Term, rank: Order)
    requires !IsConstant(a) && !IsConstant(Signed(a).tr) && Signed(a).tr == Signed(b).tr
    requires Unsigned(Signed(a)) == a && Unsigned(Signed(b)) == b
    ensures MkAnd([a, b], rank) == if a == b then a else False
  {
    var x, y := Signed(a), Signed(b);
    TwoSorted(a, b, rank);
    assert [x, y][1..] == [y] && [y, x][1..] == [x] && [x][1..] == [] && [y][1..] == [];
    assert [x] + [] == [x];
    assert Compact([], Some(x), False, True) == Kept([]);
    assert Compact([y], Some(x), False, True) == if x == y then Kept([]) else Absorbed;
  }
}
