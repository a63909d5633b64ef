/**
 Clauses of a resolution proof: merging two antecedents into the resolvent, and the search
 for a variable in a clause.
 */
module Resolution {
  import opened Literals

  ghost predicate Strict(c: seq<Lit>) {
    forall i, j :: 0 <= i < j < |c| ==> c[i].Code() < c[j].Code()
  }

  ghost predicate Sorted(c: seq<Lit>) {
    forall i, j :: 0 <= i <= j < |c| ==> c[i].Code() <= c[j].Code()
  }

  ghost predicate Mentions(c: seq<Lit>, v: nat) {
    exists l :: l in c && l.v == v
  }

  /** What the resolvent of two clauses is. */
  ghost predicate IsResolvent(a: seq<Lit>, b: seq<Lit>, pivot: nat, r: seq<Lit>) {
    Strict(r) && forall l :: l in r <==> (l in a || l in b) && l.v != pivot
  }

  // ---------- merging ----------

  /** The number of literals that are not on the pivot. */
  function Others(c: seq<Lit>, pivot: nat): (n: nat)
    ensures n <= |c|
  {
    if c == [] then 0
    else Others(c[..|c| - 1], pivot) + if c[|c| - 1].v != pivot then 1 else 0
  }

  lemma {:induction false} OthersGrow(c: seq<Lit>, i: nat, pivot: nat)
    requires i <= |c|
    ensures Others(c[..i], pivot) <= Others(c, pivot)
    ensures i < |c| ==> Others(c[..i + 1], pivot) == Others(c[..i], pivot) + if c[i].v != pivot then 1 else 0
    decreases |c| - i
  {
    if i < |c| {
      assert c[..i + 1][..i] == c[..i];
      OthersGrow(c, i + 1, pivot);
    } else {
      assert c[..i] == c;
    }
  }

  lemma OthersFewer(c: seq<Lit>, pivot: nat)
    requires Mentions(c, pivot)
    ensures Others(c, pivot) < |c|
  {
    var l :| l in c && l.v == pivot;
    var i :| 0 <= i < |c| && c[i] == l;
    OthersGrow(c, i, pivot);
    TailBound(c, i + 1, pivot);
  }

  lemma {:induction false} TailBound(c: seq<Lit>, i: nat, pivot: nat)
    requires i <= |c|
    ensures Others(c, pivot) <= Others(c[..i], pivot) + |c| - i
    decreases |c| - i
  {
    if i < |c| {
      OthersGrow(c, i, pivot);
      TailBound(c, i + 1, pivot);
    } else {
      assert c[..i] == c;
    }
  }

  /** The first i and j literals of the clauses have been merged into the first res places. */
  ghost predicate Merged(a: seq<Lit>, i: nat, b: seq<Lit>, j: nat, pivot: nat, resolv: seq<Lit>, res: nat) {
    && i <= |a| && j <= |b| && res <= |resolv| && |a| + |b| - 2 <= |resolv|
    && res <= Others(a[..i], pivot) + Others(b[..j], pivot)
    && IsResolvent(a[..i], b[..j], pivot, resolv[..res])
    && (forall l :: l in resolv[..res] ==> (i < |a| ==> l.Code() < a[i].Code()) && (j < |b| ==> l.Code() < b[j].Code()))
  }

  /** Adds a literal unless it is on the pivot. */
  method AddIfNotPivot(resolv0: seq<Lit>, res0: nat, l: Lit, pivot: nat) returns (resolv: seq<Lit>, res: nat)
    requires l.v != pivot ==> res0 < |resolv0|
    requires res0 <= |resolv0|
    ensures |resolv| == |resolv0| && res <= |resolv|
    ensures res == if l.v != pivot then res0 + 1 else res0
    ensures resolv[..res] == if l.v != pivot then resolv0[..res0] + [l] else resolv0[..res0]
  {
    resolv, res := resolv0, res0;
    if l.v != pivot {
      resolv := resolv[res := l];
      res := res + 1;
    }
  }

  /** There is room for the next literal of the first clause, and of the second. */
  lemma Room(a: seq<Lit>, i: nat, b: seq<Lit>, j: nat, pivot: nat, resolv: seq<Lit>, res: nat)
    requires Merged(a, i, b, j, pivot, resolv, res) && Mentions(a, pivot) && Mentions(b, pivot)
    ensures res <= |a| + |b| - 2 <= |resolv|
    ensures i < |a| && a[i].v != pivot ==> res < |a| + |b| - 2
    ensures j < |b| && b[j].v != pivot ==> res < |a| + |b| - 2
  {
    OthersFewer(a, pivot);
    OthersFewer(b, pivot);
    OthersGrow(a, i, pivot);
    OthersGrow(b, j, pivot);
    if i < |a| { OthersGrow(a, i + 1, pivot); }
    if j < |b| { OthersGrow(b, j + 1, pivot); }
  }

  /** One literal merged: from the first clause, from the second, or from both. */
  lemma MergeStep(a: seq<Lit>, i: nat, b: seq<Lit>, j: nat, pivot: nat, resolv: seq<Lit>, res: nat,
                  i': nat, j': nat, l: Lit, resolv': seq<Lit>, res': nat)
    requires Strict(a) && Strict(b) && Merged(a, i, b, j, pivot, resolv, res)
    requires i <= i' <= i + 1 && j <= j' <= j + 1 && i' <= |a| && j' <= |b| && (i' > i || j' > j)
    requires (i' > i ==> a[i] == l) && (j' > j ==> b[j] == l)
    requires (i' == i && i < |a| ==> l.Code() < a[i].Code()) && (j' == j && j < |b| ==> l.Code() < b[j].Code())
    requires |resolv'| == |resolv| && res' <= |resolv'| && res' == if l.v != pivot then res + 1 else res
    requires resolv'[..res'] == if l.v != pivot then resolv[..res] + [l] else resolv[..res]
    ensures Merged(a, i', b, j', pivot, resolv', res')
  {
    TakenStep(a, i, i', l, pivot);
    TakenStep(b, j, j', l, pivot);
    HeadStep(a, i, i', l, resolv[..res]);
    HeadStep(b, j, j', l, resolv[..res]);
    hide Others, Strict, IsResolvent;
    ResolventStep(a[..i], a[..i'], b[..j], b[..j'], pivot, resolv[..res], l);
  }

  lemma ResolventStep(a: seq<Lit>, a': seq<Lit>, b: seq<Lit>, b': seq<Lit>, pivot: nat, r: seq<Lit>, l: Lit)
    requires IsResolvent(a, b, pivot, r) && (forall k :: k in r ==> k.Code() < l.Code())
    requires (forall k :: k in a' <==> k in a || (l in a' && k == l))
      && (forall k :: k in b' <==> k in b || (l in b' && k == l))
    requires l in a' || l in b'
    ensures IsResolvent(a', b', pivot, if l.v != pivot then r + [l] else r)
  {
    if l.v != pivot { StrictPush(r, l); }
    hide Strict;
  }

  /** What has been merged is before the rest of the clause. */
  lemma HeadStep(c: seq<Lit>, i: nat, i': nat, l: Lit, r: seq<Lit>)
    requires Strict(c) && i <= i' <= i + 1 && i' <= |c|
    requires if i' > i then c[i] == l else i < |c| ==> l.Code() < c[i].Code()
    requires forall k :: k in r ==> i < |c| ==> k.Code() < c[i].Code()
    ensures i' < |c| ==> forall k :: k in r + [l] || k in r ==> k.Code() < c[i'].Code()
  {

    assert i' < |c| ==> i < |c| && c[i].Code() <= c[i'].Code() && l.Code() < c[i'].Code();
  }

  lemma TakenStep(c: seq<Lit>, i: nat, i': nat, l: Lit, pivot: nat)
    requires i <= i' <= i + 1 && i' <= |c| && (i' > i ==> c[i] == l)
    ensures (forall k :: k in c[..i'] <==> k in c[..i] || (l in c[..i'] && k == l)) && (i' > i ==> l in c[..i'])
    ensures Others(c[..i'], pivot) == Others(c[..i], pivot) + if i' > i && l.v != pivot then 1 else 0
  {
    if i' > i {
      assert c[..i'] == c[..i] + [l];
      OthersGrow(c, i, pivot);
    }
  }

  lemma StrictPush(r: seq<Lit>, l: Lit)
    requires Strict(r) && forall k :: k in r ==> k.Code() < l.Code()
    ensures Strict(r + [l])
  {
    forall i, j | 0 <= i < j < |r| + 1 ensures (r + [l])[i].Code() < (r + [l])[j].Code() {
      assert r[i] in r;
    }
  }

  /**
   Merges two sorted clauses without repetitions into their resolvent. No write is beyond the
   |A| + |B| - 2 places made room for.
   */
  method MergeClauses(a: seq<Lit>, b: seq<Lit>, resolv0: seq<Lit>, pivot: nat) returns (resolv: seq<Lit>)
    requires Strict(a) && Strict(b) && Mentions(a, pivot) && Mentions(b, pivot)
    ensures IsResolvent(a, b, pivot, resolv) && |resolv| <= |a| + |b| - 2
  {
    hide *;
    resolv := MakeRoom(resolv0, |a| + |b| - 2);
    var i: nat, j: nat, res: nat := 0, 0, 0;
    MergeStarts(a, b, pivot, resolv);
    while i < |a| && j < |b|
      invariant Merged(a, i, b, j, pivot, resolv, res) && i <= |a| && j <= |b|
      decreases |a| + |b| - i - j
    {
      CodeUnique(a[i], b[j]);
      if a[i].Code() <= b[j].Code() {
        var j' := if a[i] == b[j] then j + 1 else j;
        resolv, res := Take(a, i, b, j, pivot, resolv, res, a[i], i + 1, j');
        i, j := i + 1, j';
      } else {
        resolv, res := Take(a, i, b, j, pivot, resolv, res, b[j], i, j + 1);
        j := j + 1;
      }
    }
    resolv, res := MergeRest(a, i, b, j, pivot, resolv, res);
    Room(a, |a|, b, |b|, pivot, resolv, res);
    MergeEnds(a, b, pivot, resolv, res);
    resolv := resolv[..res];
  }

  /** Grows the buffer if it is too short. */
  method MakeRoom(resolv0: seq<Lit>, n: int) returns (resolv: seq<Lit>)
    ensures n <= |resolv|
  {
    resolv := resolv0;
    if |resolv| < n { resolv := resolv + seq(n - |resolv|, _ => Lit(0, false)); }
  }

  lemma MergeStarts(a: seq<Lit>, b: seq<Lit>, pivot: nat, resolv: seq<Lit>)
    requires |a| + |b| - 2 <= |resolv|
    ensures Merged(a, 0, b, 0, pivot, resolv, 0)
  {
  }

  /** Takes what is left of the clause that is not exhausted. */
  method MergeRest(a: seq<Lit>, i0: nat, b: seq<Lit>, j0: nat, pivot: nat, resolv0: seq<Lit>, res0: nat)
    returns (resolv: seq<Lit>, res: nat)
    requires Strict(a) && Strict(b) && Mentions(a, pivot) && Mentions(b, pivot)
      && Merged(a, i0, b, j0, pivot, resolv0, res0)
    requires i0 <= |a| && j0 <= |b| && (i0 == |a| || j0 == |b|)
    ensures Merged(a, |a|, b, |b|, pivot, resolv, res)
  {
    hide *;
    var i, j := i0, j0;
    resolv, res := resolv0, res0;
    while i < |a|
      invariant Merged(a, i, b, j, pivot, resolv, res) && i <= |a| && (i == |a| || j == |b|)
      decreases |a| - i
    {
      resolv, res := Take(a, i, b, j, pivot, resolv, res, a[i], i + 1, j);
      i := i + 1;
    }
    while j < |b|
      invariant Merged(a, i, b, j, pivot, resolv, res) && j <= |b|
      decreases |b| - j
    {
      resolv, res := Take(a, i, b, j, pivot, resolv, res, b[j], i, j + 1);
      j := j + 1;
    }
  }

  /** Takes the next literal from the first clause, the second or both. */
  method Take(a: seq<Lit>, ghost i: nat, b: seq<Lit>, ghost j: nat, pivot: nat, resolv0: seq<Lit>, res0: nat,
              l: Lit, ghost i': nat, ghost j': nat) returns (resolv: seq<Lit>, res: nat)
    requires Strict(a) && Strict(b) && Mentions(a, pivot) && Mentions(b, pivot)
      && Merged(a, i, b, j, pivot, resolv0, res0)
    requires i <= i' <= i + 1 && j <= j' <= j + 1 && i' <= |a| && j' <= |b| && (i' > i || j' > j)
    requires (i' > i ==> a[i] == l) && (j' > j ==> b[j] == l)
    requires (i' == i && i < |a| ==> l.Code() < a[i].Code()) && (j' == j && j < |b| ==> l.Code() < b[j].Code())
    ensures Merged(a, i', b, j', pivot, resolv, res)
  {
    hide *;
    Room(a, i, b, j, pivot, resolv0, res0);
    resolv, res := AddIfNotPivot(resolv0, res0, l, pivot);
    MergeStep(a, i, b, j, pivot, resolv0, res0, i', j', l, resolv, res);
  }

  lemma MergeEnds(a: seq<Lit>, b: seq<Lit>, pivot: nat, resolv: seq<Lit>, res: nat)
    requires Merged(a, |a|, b, |b|, pivot, resolv, res)
    ensures IsResolvent(a, b, pivot, resolv[..res])
  {
    assert a[..|a|] == a && b[..|b|] == b;
  }

  // ---------- the meaning of the resolvent ----------

  /** The resolvent holds whenever both clauses do. */
  ghost predicate Entailed(a: seq<Lit>, b: seq<Lit>, r: seq<Lit>) {
    forall sigma: Assignment :: ClauseTrue(a, sigma) && ClauseTrue(b, sigma) ==> ClauseTrue(r, sigma)
  }

  ghost predicate Tautology(c: seq<Lit>) {
    exists l :: l in c && Neg(l) in c
  }

  /** The clauses contain the pivot with opposite signs only. */
  ghost predicate Clashing(a: seq<Lit>, b: seq<Lit>, pivot: nat) {
    forall l :: l in a && l in b ==> l.v != pivot
  }

  /** The assignment that makes every literal of the clause false and gives the pivot a value. */
  ghost function Falsifying(r: seq<Lit>, pivot: nat, value: bool): Assignment {
    (v: nat) => if v == pivot then value else Lit(v, true) in r
  }

  /** The clauses contain another variable than the pivot with both signs. */
  ghost predicate Opposed(a: seq<Lit>, b: seq<Lit>, pivot: nat) {
    exists l: Lit :: l.v != pivot && (l in a || l in b) && (Neg(l) in a || Neg(l) in b)
  }

  lemma OpposedTautology(a: seq<Lit>, b: seq<Lit>, pivot: nat, r: seq<Lit>)
    requires IsResolvent(a, b, pivot, r)
    ensures Opposed(a, b, pivot) <==> Tautology(r)
  {
    if l: Lit :| l.v != pivot && (l in a || l in b) && (Neg(l) in a || Neg(l) in b) {
      assert l in r && Neg(l) in r;
    }
    if l :| l in r && Neg(l) in r {
      assert l.v != pivot && (l in a || l in b) && (Neg(l) in a || Neg(l) in b);
    }
  }

  /**
   A resolvent follows from its antecedents exactly if they clash on the pivot, unless they
   contain another variable with both signs.
   */
  lemma ResolventEntailed(a: seq<Lit>, b: seq<Lit>, pivot: nat, r: seq<Lit>)
    requires IsResolvent(a, b, pivot, r) && Mentions(a, pivot) && Mentions(b, pivot)
    ensures Entailed(a, b, r) <==> Clashing(a, b, pivot) || Opposed(a, b, pivot)
  {
    OpposedTautology(a, b, pivot, r);
    if Clashing(a, b, pivot) {
      forall sigma: Assignment | ClauseTrue(a, sigma) && ClauseTrue(b, sigma) ensures ClauseTrue(r, sigma) {
        ClashEntails(a, b, pivot, r, sigma);
      }
    } else if Tautology(r) {
      forall sigma: Assignment ensures ClauseTrue(r, sigma) {
        TautologyHolds(r, sigma);
      }
    } else {
      var l :| l in a && l in b && l.v == pivot;
      var sigma := Falsifying(r, pivot, !l.sgn);
      ClauseTrueBy(a, sigma);
      ClauseTrueBy(b, sigma);
      assert LitTrue(l, sigma) && ClauseTrue(a, sigma) && ClauseTrue(b, sigma);
      FalsifyingFails(r, pivot, !l.sgn);
    }
  }

  /** Merging p or q with p or r on p gives q or r, which does not follow. */
  method MergesUnopposed(p: nat, q: nat, r: nat) returns (resolv: seq<Lit>)
    requires p < q < r
    ensures resolv == [Lit(q, false), Lit(r, false)]
    ensures !Entailed([Lit(p, false), Lit(q, false)], [Lit(p, false), Lit(r, false)], resolv)
  {
    var a, b := [Lit(p, false), Lit(q, false)], [Lit(p, false), Lit(r, false)];
    assert a[0] in a && b[0] in b && Mentions(a, p) && Mentions(b, p);
    resolv := MergeClauses(a, b, [], p);
    TwoLiterals(resolv, Lit(q, false), Lit(r, false));
    ResolventEntailed(a, b, p, resolv);
    assert a[0] in a && a[0] in b && !Clashing(a, b, p);
  }

  lemma TwoLiterals(c: seq<Lit>, k: Lit, l: Lit)
    requires Strict(c) && k.Code() < l.Code() && forall x :: x in c <==> x == k || x == l
    ensures c == [k, l]
  {
    assert k in c && l in c;
    forall n | 0 <= n < |c| ensures c[n] == k || c[n] == l { assert c[n] in c; }
    assert |c| > 1 && c[0] == k && c[1] == l;
    assert |c| > 2 ==> c[1].Code() < c[2].Code();
  }

  lemma ClashEntails(a: seq<Lit>, b: seq<Lit>, pivot: nat, r: seq<Lit>, sigma: Assignment)
    requires IsResolvent(a, b, pivot, r) && Clashing(a, b, pivot) && ClauseTrue(a, sigma) && ClauseTrue(b, sigma)
    ensures ClauseTrue(r, sigma)
  {
    ClauseTrueBy(a, sigma);
    ClauseTrueBy(b, sigma);
    ClauseTrueBy(r, sigma);
    var l :| l in a && LitTrue(l, sigma);
    var k :| k in b && LitTrue(k, sigma);
    assert l.v == k.v ==> l == k;
    assert l in r || k in r;
  }

  lemma TautologyHolds(r: seq<Lit>, sigma: Assignment)
    requires Tautology(r)
    ensures ClauseTrue(r, sigma)
  {
    ClauseTrueBy(r, sigma);
    var l :| l in r && Neg(l) in r;
    assert LitTrue(l, sigma) || LitTrue(Neg(l), sigma);
  }

  lemma FalsifyingFails(r: seq<Lit>, pivot: nat, value: bool)
    requires !Tautology(r) && forall l :: l in r ==> l.v != pivot
    ensures !ClauseTrue(r, Falsifying(r, pivot, value))
  {
    var sigma := Falsifying(r, pivot, value);
    ClauseTrueBy(r, sigma);
    forall l | l in r ensures !LitTrue(l, sigma) {
      assert Neg(l) == Lit(l.v, !l.sgn) && l == Lit(l.v, l.sgn);
    }
  }

  // ---------- searching ----------

  /** The variable's sign in a sorted clause: 0 if it occurs positively, 1 if negatively, -1 if it does not. */
  method HasOccurrenceBin(cla: seq<Lit>, v: nat) returns (r: int)
    requires Sorted(cla)
    ensures r == -1 <==> !Mentions(cla, v)
    ensures r == 0 || r == 1 || r == -1
    ensures r >= 0 ==> Lit(v, r == 1) in cla
  {
    var first, last := 0, |cla| - 1;
    while first <= last
      invariant 0 <= first <= |cla| && -1 <= last < |cla|
      invariant forall i :: 0 <= i < |cla| && (i < first || last < i) ==> cla[i].v != v
      decreases last - first + 1
    {
      var mid := (first + last) / 2;
      var l := cla[mid];
      var w := l.v;
      forall i | 0 <= i < |cla| ensures (i <= mid ==> cla[i].v <= w) && (mid <= i ==> w <= cla[i].v) {
      }
      if v > w {
        first := mid + 1;
      } else if v < w {
        last := mid - 1;
      } else {
        assert l in cla && l == Lit(v, l.sgn);
        return if !l.sgn then 0 else 1;
      }
    }
    forall l | l in cla ensures l.v != v {
      var i :| 0 <= i < |cla| && cla[i] == l;
    }
    return -1;
  }
}
