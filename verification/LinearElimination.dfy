/**
 Elimination of variables by linear equations: constants are collected and propagated, then
 variables with a single occurrence are solved for, then the remaining equations are solved
 for their first variable.
 */
module LinearElimination {
  import opened Polynomials
  import opened Sequences

  ghost predicate AllProper(ps: seq<Poly>) {
    forall p :: p in ps ==> Proper(p)
  }

  /** The values make every polynomial zero. */
  ghost predicate AllZero(ps: seq<Poly>, m: Values) {
    forall p :: p in ps ==> Eval(p, m) == 0.0
  }

  /** The variables that occur. */
  function Unknowns(ps: seq<Poly>): set<nat> {
    set p, v | p in ps && v in Variables(p) && v != UNDEF :: v
  }

  // ---------- erasing ----------

  /** The elements whose position is not listed, in order. */
  function Kept(ps: seq<Poly>, indices: seq<nat>): seq<Poly> {
    if ps == [] then []
    else
      var n := |ps| - 1;
      Kept(ps[..n], indices) + if n in indices then [] else [ps[n]]
  }

  /** The elements at the listed positions. */
  function Picked(ps: seq<Poly>, indices: seq<nat>): (r: seq<Poly>)
    requires Within(indices, |ps|)
    ensures |r| == |indices| && forall k :: 0 <= k < |indices| ==> r[k] == ps[indices[k]]
  {
    seq(|indices|, k requires 0 <= k < |indices| => ps[indices[k]])
  }

  ghost predicate Within(indices: seq<nat>, n: int) {
    forall k :: 0 <= k < |indices| ==> indices[k] < n
  }

  lemma {:induction false} KeptIs(ps: seq<Poly>, indices: seq<nat>)
    ensures forall x :: x in Kept(ps, indices) <==> exists j :: 0 <= j < |ps| && j !in indices && ps[j] == x
  {
    if ps != [] {
      var n := |ps| - 1;
      KeptIs(ps[..n], indices);
      forall x ensures x in Kept(ps, indices) <==> exists j :: 0 <= j < |ps| && j !in indices && ps[j] == x {
        if x in Kept(ps[..n], indices) {
          var j :| 0 <= j < n && j !in indices && ps[..n][j] == x;
          assert ps[j] == x;
        }
        if j :| 0 <= j < |ps| && j !in indices && ps[j] == x {
          if j < n { assert ps[..n][j] == x; }
        }
      }
    }
  }

  lemma {:induction false} KeptPrefix(ps: seq<Poly>, indices: seq<nat>)
    requires indices != [] && |ps| <= indices[|indices| - 1]
    ensures Kept(ps, indices) == Kept(ps, Init(indices))
  {
    if ps != [] {
      assert indices == indices[..|indices| - 1] + [indices[|indices| - 1]];
      KeptPrefix(ps[..|ps| - 1], indices);
    }
  }

  /** Everything is kept or picked. */
  lemma {:induction false} KeptAndPicked(ps: seq<Poly>, indices: seq<nat>)
    requires Ascending(indices) && Within(indices, |ps|)
    ensures multiset(Kept(ps, indices)) + multiset(Picked(ps, indices)) == multiset(ps)
  {
    if ps == [] {
      assert indices == [] || First(indices) < 0;
    } else {
      var n := |ps| - 1;
      if n in indices {
        LastIndex(indices, n);
        KeptAndPicked(ps[..n], Init(indices));
        KeptPrefix(ps[..n], indices);
        hide *;
        LastPicked(ps, indices);
      } else {
        NotListed(indices, n);
        KeptAndPicked(ps[..n], indices);
        hide *;
        LastKept(ps, indices);
      }
    }
  }

  function First(xs: seq<nat>): nat {
    if xs == [] then 0 else xs[0]
  }

  lemma PushBoth(k: seq<Poly>, b: seq<Poly>, qs: seq<Poly>, x: Poly)
    requires multiset(k) + multiset(b) == multiset(qs)
    ensures multiset(k) + multiset(b + [x]) == multiset(qs + [x]) == multiset(k + [x]) + multiset(b)
  {
  }

  function Init(xs: seq<nat>): seq<nat>
    requires xs != []
  {
    xs[..|xs| - 1]
  }

  lemma NotListed(indices: seq<nat>, n: nat)
    requires Within(indices, n + 1) && n !in indices
    ensures Within(indices, n)
  {
    forall k | 0 <= k < |indices| ensures indices[k] < n { assert indices[k] in indices; }
  }

  /** The greatest index is the last one. */
  lemma LastIndex(indices: seq<nat>, n: nat)
    requires Ascending(indices) && n in indices && Within(indices, n + 1)
    ensures indices[|indices| - 1] == n && Ascending(Init(indices)) && Within(Init(indices), n)
  {
    var k :| 0 <= k < |indices| && indices[k] == n;
    LastGreatest(indices, k);
  }

  lemma LastGreatest(xs: seq<nat>, k: nat)
    requires Ascending(xs) && k < |xs|
    ensures xs[k] <= xs[|xs| - 1]
  {
  }

  lemma LastPicked(ps: seq<Poly>, indices: seq<nat>)
    requires ps != [] && indices != [] && indices[|indices| - 1] == |ps| - 1 && |ps| - 1 in indices
    requires Within(Init(indices), |ps| - 1) && Within(indices, |ps|)
    requires Kept(ps[..|ps| - 1], indices) == Kept(ps[..|ps| - 1], Init(indices))
    requires var qs := ps[..|ps| - 1];
             multiset(Kept(qs, Init(indices))) + multiset(Picked(qs, Init(indices))) == multiset(qs)
    ensures multiset(Kept(ps, indices)) + multiset(Picked(ps, indices)) == multiset(ps)
  {
    hide *;
    var qs, x := ps[..|ps| - 1], ps[|ps| - 1];
    KeptStep(ps, indices);
    PickedStep(ps, indices);
    PushBoth(Kept(qs, indices), Picked(qs, Init(indices)), qs, x);
    assert Kept(qs, indices) + [] == Kept(qs, indices);
  }

  lemma KeptStep(ps: seq<Poly>, indices: seq<nat>)
    requires ps != []
    ensures var (qs, x) := (ps[..|ps| - 1], ps[|ps| - 1]);
            ps == qs + [x] && Kept(ps, indices) == Kept(qs, indices) + if |ps| - 1 in indices then [] else [x]
  {
  }

  lemma PickedStep(ps: seq<Poly>, indices: seq<nat>)
    requires ps != [] && indices != [] && indices[|indices| - 1] == |ps| - 1
    requires Within(Init(indices), |ps| - 1) && Within(indices, |ps|)
    ensures Picked(ps, indices) == Picked(ps[..|ps| - 1], Init(indices)) + [ps[|ps| - 1]]
  {
  }

  lemma LastKept(ps: seq<Poly>, indices: seq<nat>)
    requires ps != [] && |ps| - 1 !in indices && Within(indices, |ps| - 1) && Within(indices, |ps|)
    requires var qs := ps[..|ps| - 1]; multiset(Kept(qs, indices)) + multiset(Picked(qs, indices)) == multiset(qs)
    ensures multiset(Kept(ps, indices)) + multiset(Picked(ps, indices)) == multiset(ps)
  {
    assert Picked(ps, indices) == Picked(ps[..|ps| - 1], indices);
    hide *;
    var qs, x := ps[..|ps| - 1], ps[|ps| - 1];
    KeptStep(ps, indices);
    PushBoth(Kept(qs, indices), Picked(qs, indices), qs, x);
  }

  /** The position takes over the last element. */
  function SwapOut(s: seq<Poly>, i: nat): seq<Poly>
    requires i < |s|
  {
    s[i := s[|s| - 1]][..|s| - 1]
  }

  lemma SwapOutIs(s: seq<Poly>, i: nat)
    requires i < |s|
    ensures multiset(SwapOut(s, i)) + multiset{s[i]} == multiset(s)
    ensures forall j :: 0 <= j < i ==> SwapOut(s, i)[j] == s[j]
  {
    var n := |s| - 1;
    var t := s[i := s[n]];
    assert t == t[..n] + [t[n]];
    assert multiset(t) == multiset(s) - multiset{s[i]} + multiset{s[n]};
  }

  /** Some of the positions, the last ones first, have been removed. */
  ghost predicate Erasing(ps: seq<Poly>, indices: seq<nat>, k: nat, s: seq<Poly>) {
    && k <= |indices| && Within(indices, |ps|)
    && (forall j :: 0 <= j < k ==> indices[j] < |s|)
    && (forall i, j :: 0 <= i < k && 0 <= j <= indices[i] ==> j < |s| && j < |ps| && s[j] == ps[j])
    && multiset(s) + multiset(Picked(ps, indices)[k..]) == multiset(ps)
  }

  lemma EraseStep(ps: seq<Poly>, indices: seq<nat>, k: nat, s: seq<Poly>)
    requires Ascending(indices) && Erasing(ps, indices, k, s) && k > 0
    ensures indices[k - 1] < |s| && Erasing(ps, indices, k - 1, SwapOut(s, indices[k - 1]))
  {
    var i := indices[k - 1];
    SwapOutIs(s, i);
    var picked := Picked(ps, indices);
    assert picked[k - 1..] == [picked[k - 1]] + picked[k..];
    assert picked[k - 1] == ps[i] == s[i];
    hide Picked;
  }

  /** Removes the elements at the given positions, the last position first, by moving the last element there. */
  method EraseIndices(ps: seq<Poly>, indices: seq<nat>) returns (r: seq<Poly>)
    requires Ascending(indices) && Within(indices, |ps|)
    ensures multiset(r) == multiset(Kept(ps, indices))
  {
    r := ps;
    hide *;
    EraseStarts(ps, indices);
    KeptAndPicked(ps, indices);
    var k: nat := |indices|;
    while k > 0
      invariant Erasing(ps, indices, k, r)
    {
      EraseStep(ps, indices, k, r);
      k := k - 1;
      r := SwapOut(r, indices[k]);
    }
    EraseEnds(ps, indices, r);
  }

  lemma EraseStarts(ps: seq<Poly>, indices: seq<nat>)
    requires Ascending(indices) && Within(indices, |ps|)
    ensures Erasing(ps, indices, |indices|, ps)
  {
    assert Picked(ps, indices)[|indices|..] == [];
  }

  lemma EraseEnds(ps: seq<Poly>, indices: seq<nat>, r: seq<Poly>)
    requires Erasing(ps, indices, 0, r)
    requires multiset(Kept(ps, indices)) + multiset(Picked(ps, indices)) == multiset(ps)
    ensures multiset(r) == multiset(Kept(ps, indices))
  {
    var a, b, c := multiset(r), multiset(Picked(ps, indices)), multiset(Kept(ps, indices));
    assert Picked(ps, indices)[0..] == Picked(ps, indices);
    forall x ensures a[x] == c[x] { assert (a + b)[x] == (c + b)[x]; }
  }

  lemma KeptMembers(ps: seq<Poly>, indices: seq<nat>, r: seq<Poly>)
    requires multiset(r) == multiset(Kept(ps, indices))
    ensures forall x :: x in r <==> exists j :: 0 <= j < |ps| && j !in indices && ps[j] == x
  {
    KeptIs(ps, indices);
    forall x ensures x in r <==> x in Kept(ps, indices) {
      assert x in r <==> x in multiset(r);
      assert x in Kept(ps, indices) <==> x in multiset(Kept(ps, indices));
    }
  }

  // ---------- one constant ----------

  /** The polynomial fixes its only variable. */
  predicate Fixes(p: Poly) {
    p != [] && p[0].v != UNDEF && (|p| == 1 || (|p| == 2 && p[1].v == UNDEF))
  }

  /** Nothing is left to do for the polynomial. */
  predicate Settled(p: Poly) {
    p == [] || Fixes(p)
  }

  function Root(p: Poly): real
    requires Fixes(p) && p[0].coeff != 0.0
  {
    if |p| == 1 then 0.0 else -p[1].coeff / p[0].coeff
  }

  lemma RootHolds(p: Poly, m: Values)
    requires Proper(p) && Fixes(p)
    ensures p[0].coeff != 0.0 && (Eval(p, m) == 0.0 <==> m(p[0].v) == Root(p))
  {
    var c, x := p[0].coeff, m(p[0].v);
    assert Eval(p[1..], m) == if |p| == 1 then 0.0 else p[1].coeff by {
      if |p| == 2 { assert p[1..] == [p[1]]; EvalOne(p[1], m); }
    }
    if |p| == 1 {
      ProductZero(c, x);
    } else {
      QuotientIs(c, x, -p[1].coeff);
    }
  }

  lemma ProductZero(c: real, x: real)
    requires c != 0.0
    ensures c * x == 0.0 <==> x == 0.0
  {
  }

  lemma QuotientIs(c: real, x: real, y: real)
    requires c != 0.0
    ensures c * x == y <==> x == y / c
  {
    assert (y / c) * c == y;
    if c * x == y { assert (x - y / c) * c == 0.0; }
  }

  /** The polynomial after its variable got a value. */
  ghost predicate Replaced(p: Poly, x: nat, val: real, q: Poly) {
    && Proper(q) && Variables(q) - {UNDEF} == Variables(p) - {x, UNDEF}
    && forall m: Values :: m(x) == val ==> Eval(p, m) == Eval(q, m)
  }

  method SubstituteConstant(p: Poly, x: nat, val: real) returns (q: Poly)
    requires Proper(p) && x in Variables(p) && x != UNDEF
    ensures Replaced(p, x, val, q)
  {
    var coeff, rest := RemoveVar(p, x);
    WithoutIs(p, x);
    q := rest;
    if val != 0.0 {
      var constant := [Monomial(UNDEF, coeff * val)];
      ConstantProper(coeff, val);
      q := Merge(rest, constant, 1.0);
    }
    hide Proper, Variables, IsSum;
    forall m: Values | m(x) == val ensures Eval(p, m) == Eval(q, m) {
      WithoutEval(p, x, m);
      if val != 0.0 { MergedConstant(rest, coeff, val, q, m); } else { PartZero(x, coeff, m); }
    }
    if val != 0.0 { MergedNames(rest, coeff, val, q); }
  }

  lemma PartZero(x: nat, coeff: real, m: Values)
    requires x != UNDEF && m(x) == 0.0
    ensures Part(Monomial(x, coeff), m) == 0.0
  {
  }

  lemma ConstantProper(coeff: real, val: real)
    requires coeff != 0.0 && val != 0.0
    ensures Proper([Monomial(UNDEF, coeff * val)])
  {
    NotZero(coeff, val);
  }

  lemma MergedConstant(rest: Poly, coeff: real, val: real, q: Poly, m: Values)
    requires IsSum(rest, [Monomial(UNDEF, coeff * val)], 1.0, q)
    ensures Eval(q, m) == Eval(rest, m) + coeff * val
  {
    EvalOne(Monomial(UNDEF, coeff * val), m);
  }

  lemma MergedNames(rest: Poly, coeff: real, val: real, q: Poly)
    requires IsSum(rest, [Monomial(UNDEF, coeff * val)], 1.0, q)
    ensures Proper(q) && Variables(q) - {UNDEF} == Variables(rest) - {UNDEF}
  {
    assert Variables([Monomial(UNDEF, coeff * val)]) == {UNDEF} by {
      assert Monomial(UNDEF, coeff * val) in [Monomial(UNDEF, coeff * val)];
    }
  }

  // ---------- a round of constants ----------

  /** Which polynomials mention a variable. */
  type Index = map<nat, seq<nat>>

  /** Variable x is listed for exactly the unsettled polynomials below i that contain it, each once. */
  ghost predicate IndexOk(ps: seq<Poly>, i: nat, index: Index) {
    i <= |ps| && Lists(index, i) && AllListed(ps, i, index) && forall x: nat, j: nat :: j < i ==>
      MemberOk(ps, index, x, j)
  }

  ghost predicate AllListed(ps: seq<Poly>, i: nat, index: Index)
    requires i <= |ps|
  {
    forall j, x :: 0 <= j < i && x in Variables(ps[j]) ==> x in index
  }

  ghost predicate MemberOk(ps: seq<Poly>, index: Index, x: nat, j: nat)
    requires j < |ps|
  {
    x in index && x != UNDEF ==> (j in index[x] <==> x in Variables(ps[j]) && !Settled(ps[j]))
  }

  /** The index while polynomial i is entered: the first k of its variables are in. */
  ghost predicate Entering(ps: seq<Poly>, i: nat, k: nat, index0: Index, index: Index) {
    && i < |ps| && k <= |ps[i]| && IndexOk(ps, i, index0)
    && (forall x :: x in index <==> x in index0 || x in Variables(ps[i][..k]))
    && (forall x :: x in index ==> index[x] == Listed(index0, x) + if x in Variables(ps[i][..k]) then [i] else [])
  }

  function Listed(index: Index, x: nat): seq<nat> {
    if x in index then index[x] else []
  }

  /** Enters all variables of a polynomial. */
  method EnterPoly(ps: seq<Poly>, i: nat, index0: Index) returns (index: Index)
    requires AllProper(ps) && i < |ps| && IndexOk(ps, i, index0)
    ensures Entering(ps, i, |ps[i]|, index0, index)
  {
    index := index0;
    assert ps[i][..0] == [];
    for k := 0 to |ps[i]|
      invariant Entering(ps, i, k, index0, index)
    {
      EnterStep(ps, i, k, index0, index);
      var x := ps[i][k].v;
      index := index[x := Listed(index, x) + [i]];
    }
  }

  lemma EnterStep(ps: seq<Poly>, i: nat, k: nat, index0: Index, index: Index)
    requires AllProper(ps) && i < |ps| && k < |ps[i]| && Entering(ps, i, k, index0, index)
    ensures var x := ps[i][k].v;
            Entering(ps, i, k + 1, index0, index[x := Listed(index, x) + [i]])
  {
    var p := ps[i];
    assert p in ps;
    TakeVariables(p, k);
    assert p[k].v !in Variables(p[..k]) by {
      forall y | y in p[..k] ensures y.v != p[k].v {
        var j :| 0 <= j < k && p[j] == y;
      }
    }
    hide IndexOk, Variables, Proper;
  }

  /** The lists of an index are ascending and below i. */
  ghost predicate Lists(index: Index, i: nat) {
    forall x :: x in index ==> Ascending(index[x]) && forall j :: j in index[x] ==> j < i
  }

  lemma EnteredLists(ps: seq<Poly>, i: nat, k: nat, index0: Index, index: Index)
    requires Entering(ps, i, k, index0, index)
    ensures Lists(index, i + 1)
  {
    forall x | x in index ensures Ascending(index[x]) && forall j :: j in index[x] ==> j < i + 1 {
      if x in index0 { AscendingPush(index0[x], i); }
    }
  }

  /** Who is listed for a variable once the polynomial has been entered. */
  lemma EnteredMembers(ps: seq<Poly>, i: nat, index0: Index, index: Index, x: nat, j: nat)
    requires i < |ps| && Entering(ps, i, |ps[i]|, index0, index) && x in index && x != UNDEF && j < i + 1
    ensures j in index[x] <==> x in Variables(ps[j]) && (j < i ==> !Settled(ps[j]))
  {
    var p := ps[i];
    assert p[..|p|] == p;
    assert j < i ==> MemberOk(ps, index0, x, j);
    hide Variables, Settled, Ascending;
  }

  lemma EnteredKeys(ps: seq<Poly>, i: nat, index0: Index, index: Index)
    requires i < |ps| && Entering(ps, i, |ps[i]|, index0, index)
    ensures AllListed(ps, i + 1, index)
  {
    var p := ps[i];
    assert p[..|p|] == p;
    hide Variables, Settled, Ascending, MemberOk;
  }

  /** A polynomial that stays for this round is listed for all its variables. */
  lemma EnteredUnsettled(ps: seq<Poly>, i: nat, index0: Index, index: Index)
    requires i < |ps| && Entering(ps, i, |ps[i]|, index0, index) && !Settled(ps[i])
    ensures IndexOk(ps, i + 1, index)
  {
    EnteredLists(ps, i, |ps[i]|, index0, index);
    EnteredKeys(ps, i, index0, index);
    hide Entering, Variables, Settled, Lists, AllListed;
    forall x: nat, j: nat | j < i + 1 ensures MemberOk(ps, index, x, j) {
      if x in index && x != UNDEF { EnteredMembers(ps, i, index0, index, x, j); }
    }
  }

  /** A polynomial that fixes its variable is taken from the variable's list again. */
  lemma EnteredFixes(ps: seq<Poly>, i: nat, index0: Index, index: Index)
    requires i < |ps| && Entering(ps, i, |ps[i]|, index0, index) && Fixes(ps[i])
    ensures |ps[i]| > 0
    ensures var v := ps[i][0].v;
            v in index && index[v] != [] && IndexOk(ps, i + 1, index[v := index[v][..|index[v]| - 1]])
  {
    FixedVariables(ps[i]);
    EnteredLast(ps, i, index0, index);
    var v := ps[i][0].v;
    hide *;
    var index' := index[v := index[v][..|index[v]| - 1]];
    PoppedLists(ps, i, index0, index, v);
    EnteredKeys(ps, i, index0, index);
    PoppedKeys(ps, i + 1, index, index');
    forall x: nat, j: nat | j < i + 1 ensures MemberOk(ps, index', x, j) {
      PoppedMember(ps, i, index0, index, x, j);
    }
    IndexAgain(ps, i + 1, index');
  }

  lemma IndexAgain(ps: seq<Poly>, i: nat, index: Index)
    requires i <= |ps| && Lists(index, i) && AllListed(ps, i, index) && forall x: nat, j: nat :: j < i ==>
      MemberOk(ps, index, x, j)
    ensures IndexOk(ps, i, index)
  {
  }

  lemma PoppedKeys(ps: seq<Poly>, i: nat, index: Index, index': Index)
    requires i <= |ps| && AllListed(ps, i, index) && index'.Keys == index.Keys
    ensures AllListed(ps, i, index')
  {
  }

  /** The polynomial was listed last for its first variable. */
  lemma EnteredLast(ps: seq<Poly>, i: nat, index0: Index, index: Index)
    requires i < |ps| && Entering(ps, i, |ps[i]|, index0, index) && ps[i] != []
    ensures ps[i][0].v in index && index[ps[i][0].v] == Listed(index0, ps[i][0].v) + [i]
  {
    var p := ps[i];
    assert p[..|p|] == p && p[0] in p;
    hide IndexOk;
  }

  lemma PoppedLists(ps: seq<Poly>, i: nat, index0: Index, index: Index, v: nat)
    requires i < |ps| && Entering(ps, i, |ps[i]|, index0, index) && v in index && index[v] == Listed(index0, v) + [i]
    ensures Lists(index[v := index[v][..|index[v]| - 1]], i + 1)
  {
    EnteredLists(ps, i, |ps[i]|, index0, index);
    PoppedList(index[v], Listed(index0, v), i);
    hide Entering, Ascending;
  }

  lemma PoppedMember(ps: seq<Poly>, i: nat, index0: Index, index: Index, x: nat, j: nat)
    requires i < |ps| && Entering(ps, i, |ps[i]|, index0, index) && Fixes(ps[i]) && j < i + 1
    requires ps[i][0].v in index && index[ps[i][0].v] == Listed(index0, ps[i][0].v) + [i]
    ensures var v := ps[i][0].v; MemberOk(ps, index[v := index[v][..|index[v]| - 1]], x, j)
  {
    var v := ps[i][0].v;
    FixedVariables(ps[i]);
    EnteredBelow(ps, i, index0, index, v);
    PoppedElements(index[v], Listed(index0, v), i);
    if x in index && x != UNDEF { EnteredMembers(ps, i, index0, index, x, j); }
    hide Entering, Variables, Fixes;
  }

  lemma EnteredBelow(ps: seq<Poly>, i: nat, index0: Index, index: Index, v: nat)
    requires i < |ps| && Entering(ps, i, |ps[i]|, index0, index)
    ensures i !in Listed(index0, v)
  {
  }

  lemma PoppedElements(xs: seq<nat>, ys: seq<nat>, i: nat)
    requires xs == ys + [i]
    ensures xs[..|xs| - 1] == ys && forall j :: j in xs <==> j in ys || j == i
  {
  }

  lemma PoppedList(xs: seq<nat>, ys: seq<nat>, i: nat)
    requires xs == ys + [i] && Ascending(xs)
    ensures xs[..|xs| - 1] == ys && Ascending(ys) && forall j :: j in xs <==> j in ys || j == i
  {
  }

  lemma FixedVariables(p: Poly)
    requires Fixes(p)
    ensures p[0].v in Variables(p) && Variables(p) <= {p[0].v, UNDEF}
  {
    assert p[0] in p;
  }

  lemma EmptySkipped(ps: seq<Poly>, i: nat, index: Index)
    requires i < |ps| && IndexOk(ps, i, index) && ps[i] == []
    ensures IndexOk(ps, i + 1, index)
  {
    assert Variables([]) == {};
  }

  // ---------- the scan ----------

  /** What a scan finds: the substitutions, the new ones among them, the settled polynomials, the index. */
  datatype Round = Round(subs: map<nat, real>, newKeys: seq<nat>, processed: seq<nat>, index: Index)

  /** The scan has looked at the polynomials below i. */
  ghost predicate Scanned(ps: seq<Poly>, i: nat, subs0: map<nat, real>, r: Round) {
    && IndexOk(ps, i, r.index) && AllProper(ps)
    && Ascending(r.processed) && (forall j: nat :: j in r.processed <==> j < i && Settled(ps[j]))
    && KeysOk(ps, i, subs0, r)
  }

  ghost predicate KeysOk(ps: seq<Poly>, i: nat, subs0: map<nat, real>, r: Round)
    requires i <= |ps|
  {
    && Distinct(r.newKeys)
    && (forall x :: x in r.subs <==> x in subs0 || x in r.newKeys) && (forall x :: x in subs0 ==> r.subs[x] == subs0[x])
    && (forall x :: x in r.newKeys ==> x !in subs0 && x in r.index && x != UNDEF && RootOf(ps, i, x, r.subs[x]))
    && (forall j :: 0 <= j < i && Fixes(ps[j]) ==> ps[j][0].v in r.subs)
  }

  /** The value of the variable is the root of one of the polynomials. */
  ghost predicate RootOf(ps: seq<Poly>, i: nat, x: nat, val: real)
    requires i <= |ps|
  {
    exists j :: 0 <= j < i && IsRoot(ps[j], x, val)
  }

  ghost predicate IsRoot(p: Poly, x: nat, val: real) {
    Fixes(p) && p[0].v == x && p[0].coeff != 0.0 && val == Root(p)
  }

  lemma RootOfMore(ps: seq<Poly>, i: nat, x: nat, val: real)
    requires i < |ps| && RootOf(ps, i, x, val)
    ensures RootOf(ps, i + 1, x, val)
  {
  }

  /** An unsettled or empty polynomial brings no substitution. */
  lemma KeysStay(ps: seq<Poly>, i: nat, subs0: map<nat, real>, r: Round, r': Round)
    requires i < |ps| && KeysOk(ps, i, subs0, r) && !Fixes(ps[i])
    requires r'.subs == r.subs && r'.newKeys == r.newKeys && forall x :: x in r.index ==> x in r'.index
    ensures KeysOk(ps, i + 1, subs0, r')
  {
    hide Fixes, IsRoot;
    forall x | x in r.newKeys ensures RootOf(ps, i + 1, x, r.subs[x]) { RootOfMore(ps, i, x, r.subs[x]); }
    hide RootOf;
  }

  /** A polynomial that fixes its variable brings a substitution, unless the variable has one. */
  lemma KeysGrow(ps: seq<Poly>, i: nat, subs0: map<nat, real>, r: Round, r': Round)
    requires i < |ps| && KeysOk(ps, i, subs0, r) && Fixes(ps[i]) && ps[i][0].coeff != 0.0
    requires var v := ps[i][0].v;
             && (forall x :: x in r.index ==> x in r'.index) && v in r'.index
             && if v in r.subs then r'.subs == r.subs && r'.newKeys == r.newKeys
                else r'.subs == r.subs[v := Root(ps[i])] && r'.newKeys == r.newKeys + [v]
    ensures KeysOk(ps, i + 1, subs0, r')
  {
    var v := ps[i][0].v;
    assert v != UNDEF && IsRoot(ps[i], v, Root(ps[i]));
    if v !in r.subs { DistinctPush(r.newKeys, v); }
    hide Fixes, IsRoot, Root;
    assert RootOf(ps, i + 1, v, Root(ps[i]));
    forall x | x in r.newKeys ensures RootOf(ps, i + 1, x, r.subs[x]) { RootOfMore(ps, i, x, r.subs[x]); }
    hide RootOf, Distinct;
  }

  lemma ProcessedStep(ps: seq<Poly>, i: nat, processed: seq<nat>)
    requires i < |ps| && Ascending(processed) && forall j: nat :: j in processed <==> j < i && Settled(ps[j])
    ensures var q := if Settled(ps[i]) then processed + [i] else processed;
            Ascending(q) && forall j: nat :: j in q <==> j < i + 1 && Settled(ps[j])
  {
    AscendingPush(processed, i);
    hide Settled, Ascending;
  }

  lemma ScannedParts(ps: seq<Poly>, i: nat, subs0: map<nat, real>, r: Round)
    requires Scanned(ps, i, subs0, r)
    ensures i <= |ps| && IndexOk(ps, i, r.index) && AllProper(ps) && KeysOk(ps, i, subs0, r)
    ensures Ascending(r.processed) && forall j: nat :: j in r.processed <==> j < i && Settled(ps[j])
  {
  }

  lemma ScannedAgain(ps: seq<Poly>, i: nat, subs0: map<nat, real>, r: Round)
    requires i <= |ps| && IndexOk(ps, i, r.index) && AllProper(ps) && KeysOk(ps, i, subs0, r)
    requires Ascending(r.processed) && forall j: nat :: j in r.processed <==> j < i && Settled(ps[j])
    ensures Scanned(ps, i, subs0, r)
  {
  }

  lemma EnteredMore(ps: seq<Poly>, i: nat, index0: Index, index: Index)
    requires i < |ps| && Entering(ps, i, |ps[i]|, index0, index)
    ensures forall x :: x in index0 ==> x in index
  {
  }

  lemma ProperAt(ps: seq<Poly>, i: nat)
    requires AllProper(ps) && i < |ps|
    ensures Proper(ps[i]) && (ps[i] != [] ==> ps[i][0].coeff != 0.0 && ps[i][0].v <= UNDEF)
    ensures |ps[i]| >= 2 ==> ps[i][0].v != UNDEF
  {
    assert ps[i] in ps;
    assert |ps[i]| >= 2 ==> ps[i][0].v < ps[i][1].v;
  }

  /** The scan looks at one polynomial. */
  method ScanPoly(ps: seq<Poly>, i: nat, ghost subs0: map<nat, real>, r0: Round) returns (r: Round)
    requires i < |ps| && Scanned(ps, i, subs0, r0)
    ensures Scanned(ps, i + 1, subs0, r)
  {
    var p := ps[i];
    SettledCases(p);
    hide *;
    ScannedParts(ps, i, subs0, r0);
    ProcessedStep(ps, i, r0.processed);
    ProperAt(ps, i);
    if |p| == 0 {
      EmptySkipped(ps, i, r0.index);
      r := r0.(processed := r0.processed + [i]);
      KeysStay(ps, i, subs0, r0, r);
    } else {
      var index := EnterPoly(ps, i, r0.index);
      EnteredMore(ps, i, r0.index, index);
      if (|p| == 1 && p[0].v != UNDEF) || (|p| == 2 && p[1].v == UNDEF) {
        r := FixVariable(ps, i, subs0, r0, index);
      } else {
        EnteredUnsettled(ps, i, r0.index, index);
        r := r0.(index := index);
        KeysStay(ps, i, subs0, r0, r);
      }
    }
    ScannedAgain(ps, i + 1, subs0, r);
  }

  /** The polynomial fixes its variable: it is processed, and its value is taken if the variable has none. */
  method FixVariable(ps: seq<Poly>, i: nat, ghost subs0: map<nat, real>, r0: Round, index: Index) returns (r: Round)
    requires i < |ps| && Fixes(ps[i]) && Proper(ps[i]) && KeysOk(ps, i, subs0, r0)
    requires Entering(ps, i, |ps[i]|, r0.index, index)
    ensures KeysOk(ps, i + 1, subs0, r) && IndexOk(ps, i + 1, r.index) && r.processed == r0.processed + [i]
  {
    var p := ps[i];
    FixingFacts(p);
    hide *;
    EnteredMore(ps, i, r0.index, index);
    EnteredFixes(ps, i, r0.index, index);
    var v := p[0].v;
    r := r0.(processed := r0.processed + [i], index := index[v := index[v][..|index[v]| - 1]]);
    if v !in r.subs {
      r := r.(subs := r.subs[v := if |p| == 1 then 0.0 else -p[1].coeff / p[0].coeff], newKeys := r.newKeys + [v]);
    }
    KeysGrow(ps, i, subs0, r0, r);
  }

  lemma FixingFacts(p: Poly)
    requires Fixes(p) && Proper(p)
    ensures |p| > 0 && p[0].coeff != 0.0 && |p| <= 2
    ensures Root(p) == if |p| == 1 then 0.0 else -p[1].coeff / p[0].coeff
  {
  }

  lemma SettledCases(p: Poly)
    ensures Settled(p) <==> |p| == 0 || Fixes(p)
    ensures Fixes(p) ==> |p| > 0
    ensures (|p| >= 2 && p[0].v != UNDEF) || |p| == 1 ==>
              (Fixes(p) <==> (|p| == 1 && p[0].v != UNDEF) || (|p| == 2 && p[1].v == UNDEF))
  {
  }

  method Scan(ps: seq<Poly>, subs0: map<nat, real>) returns (r: Round)
    requires AllProper(ps)
    ensures Scanned(ps, |ps|, subs0, r)
  {
    r := Round(subs0, [], [], map[]);
    for i := 0 to |ps|
      invariant Scanned(ps, i, subs0, r)
    {
      r := ScanPoly(ps, i, subs0, r);
    }
  }

  // ---------- applying the constants of a round ----------

  /** The first k keys. */
  function Firsts(keys: seq<nat>, k: nat): set<nat>
    requires k <= |keys|
  {
    set x | x in keys[..k]
  }

  lemma FirstsStep(keys: seq<nat>, k: nat)
    requires Distinct(keys) && k < |keys|
    ensures Firsts(keys, k + 1) == Firsts(keys, k) + {keys[k]} && keys[k] !in Firsts(keys, k)
  {
    assert keys[..k + 1] == keys[..k] + [keys[k]];
    assert forall i :: 0 <= i < k ==> keys[..k][i] == keys[i] && keys[i] != keys[k];
  }

  /** The values of the keys are those of the substitutions. */
  ghost predicate AgreesOn(keys: set<nat>, subs: map<nat, real>, m: Values) {
    forall x :: x in keys && x in subs ==> m(x) == subs[x]
  }

  /** The polynomial after the keys got their values. */
  ghost predicate Substituted(p: Poly, q: Poly, keys: set<nat>, subs: map<nat, real>) {
    && Proper(q) && Variables(q) - {UNDEF} == Variables(p) - keys - {UNDEF}
    && forall m: Values :: AgreesOn(keys, subs, m) ==> Eval(p, m) == Eval(q, m)
  }

  lemma SubstitutedMore(p: Poly, q: Poly, keys: set<nat>, subs: map<nat, real>, x: nat, q': Poly)
    requires Substituted(p, q, keys, subs) && x in subs && x != UNDEF && Replaced(q, x, subs[x], q')
    ensures Substituted(p, q', keys + {x}, subs)
  {
    hide Proper, Variables, Eval;
    assert Variables(q') - {UNDEF} == (Variables(q) - {UNDEF}) - {x};
    forall m: Values | AgreesOn(keys + {x}, subs, m) ensures Eval(p, m) == Eval(q', m) {
      assert AgreesOn(keys, subs, m);
      assert x in keys + {x} && m(x) == subs[x];
    }
  }

  /** A key that does not occur can be added. */
  lemma SubstitutedIdle(p: Poly, q: Poly, keys: set<nat>, subs: map<nat, real>, x: nat)
    requires Substituted(p, q, keys, subs) && x !in Variables(p)
    ensures Substituted(p, q, keys + {x}, subs)
  {
    hide Proper, Variables, Eval;
    forall m: Values | AgreesOn(keys + {x}, subs, m) ensures Eval(p, m) == Eval(q, m) {
      assert AgreesOn(keys, subs, m);
    }
  }

  /** The first k keys have been applied to all unsettled polynomials. */
  ghost predicate Applied(ps: seq<Poly>, qs: seq<Poly>, r: Round, k: nat) {
    |qs| == |ps| && k <= |r.newKeys| && forall j: nat :: j < |ps| ==> AppliedAt(ps, qs, r, k, j)
  }

  ghost predicate AppliedAt(ps: seq<Poly>, qs: seq<Poly>, r: Round, k: nat, j: nat)
    requires |qs| == |ps| && k <= |r.newKeys| && j < |ps|
  {
    if Settled(ps[j]) then qs[j] == ps[j] else Substituted(ps[j], qs[j], Firsts(r.newKeys, k), r.subs)
  }

  /** Key k has been applied to the first t polynomials of its list. */
  ghost predicate Applying(ps: seq<Poly>, qs: seq<Poly>, r: Round, k: nat, t: nat) {
    && |qs| == |ps| && k < |r.newKeys| && r.newKeys[k] in r.index && t <= |r.index[r.newKeys[k]]|
    && forall j: nat :: j < |ps| ==>
         AppliedAt(ps, qs, r, if j in r.index[r.newKeys[k]][..t]
                   || r.newKeys[k] !in Variables(ps[j]) then k + 1 else k, j)
  }

  /** What the scan says about a new key. */
  ghost predicate Found(ps: seq<Poly>, r: Round, x: nat) {
    && x in r.index && x in r.subs && x != UNDEF && Ascending(r.index[x])
    && (forall j :: j in r.index[x] ==> j < |ps|)
    && (forall j: nat :: j < |ps| ==> (j in r.index[x] <==> x in Variables(ps[j]) && !Settled(ps[j])))
  }

  lemma NewKeyFound(ps: seq<Poly>, subs0: map<nat, real>, r: Round, x: nat)
    requires Scanned(ps, |ps|, subs0, r) && x in r.newKeys
    ensures Found(ps, r, x)
  {
    hide Variables, Settled, Ascending, RootOf;
    assert Lists(r.index, |ps|);
    forall j: nat | j < |ps| ensures j in r.index[x] <==> x in Variables(ps[j]) && !Settled(ps[j]) {
      assert MemberOk(ps, r.index, x, j);
    }
  }

  lemma ApplyingStarts(ps: seq<Poly>, qs: seq<Poly>, r: Round, k: nat)
    requires Applied(ps, qs, r, k) && k < |r.newKeys| && Found(ps, r, r.newKeys[k]) && Distinct(r.newKeys)
    ensures Applying(ps, qs, r, k, 0)
  {
    var x := r.newKeys[k];
    assert r.index[x][..0] == [];
    FirstsStep(r.newKeys, k);
    hide Settled, Variables, Found, Firsts;
    forall j: nat | j < |ps| ensures x !in Variables(ps[j]) ==> AppliedAt(ps, qs, r, k + 1, j) {
      assert AppliedAt(ps, qs, r, k, j);
      if x !in Variables(ps[j]) && !Settled(ps[j]) { SubstitutedIdle(ps[j], qs[j], Firsts(r.newKeys, k), r.subs, x); }
    }
    hide AppliedAt;
  }

  lemma ApplyingEnds(ps: seq<Poly>, qs: seq<Poly>, r: Round, k: nat)
    requires k < |r.newKeys| && Found(ps, r, r.newKeys[k]) && Applying(ps, qs, r, k, |r.index[r.newKeys[k]]|)
    ensures Applied(ps, qs, r, k + 1)
  {
    var x := r.newKeys[k];
    assert r.index[x][..|r.index[x]|] == r.index[x];
    hide Variables;
    hide AppliedAt;
  }

  lemma ApplyingAt(ps: seq<Poly>, qs: seq<Poly>, r: Round, k: nat, t: nat)
    requires k < |r.newKeys| && Found(ps, r, r.newKeys[k]) && Applying(ps, qs, r, k, t) && t < |r.index[r.newKeys[k]]|
    requires Distinct(r.newKeys)
    ensures var (x, j) := (r.newKeys[k], r.index[r.newKeys[k]][t]);
            && j < |ps| == |qs| && !Settled(ps[j]) && x in r.subs && x != UNDEF && Proper(qs[j])
            && x in Variables(qs[j])
            && Substituted(ps[j], qs[j], Firsts(r.newKeys, k), r.subs)
  {
    var x, xs := r.newKeys[k], r.index[r.newKeys[k]];
    var j := xs[t];
    assert j in xs;
    assert j !in xs[..t] by { forall i | 0 <= i < t ensures xs[..t][i] != j {} }
    FirstsStep(r.newKeys, k);
    assert x in Variables(ps[j]) && !Settled(ps[j]) && AppliedAt(ps, qs, r, k, j);
    hide Proper, Variables, Settled, Firsts;
    assert x in Variables(ps[j]) - Firsts(r.newKeys, k) - {UNDEF};
    assert x in Variables(qs[j]) - {UNDEF};
  }

  lemma ApplyingStep(ps: seq<Poly>, qs: seq<Poly>, r: Round, k: nat, t: nat, q: Poly)
    requires k < |r.newKeys| && Found(ps, r, r.newKeys[k]) && Applying(ps, qs, r, k, t) && t < |r.index[r.newKeys[k]]|
    requires Distinct(r.newKeys)
    requires var (x, j) := (r.newKeys[k], r.index[r.newKeys[k]][t]);
             j < |qs| && x in r.subs && Replaced(qs[j], x, r.subs[x], q)
    ensures Applying(ps, qs[r.index[r.newKeys[k]][t] := q], r, k, t + 1)
  {
    ApplyingAt(ps, qs, r, k, t);
    var x, xs := r.newKeys[k], r.index[r.newKeys[k]];
    var i := xs[t];
    SubstitutedMore(ps[i], qs[i], Firsts(r.newKeys, k), r.subs, x, q);
    FirstsStep(r.newKeys, k);
    assert xs[..t + 1] == xs[..t] + [i];
    var qs' := qs[i := q];
    hide Substituted, Replaced, Variables, Firsts, Found, Settled;
    assert AppliedAt(ps, qs', r, k + 1, i);
    assert forall j: nat :: j < |ps| && j != i ==> (AppliedAt(ps, qs', r, k, j) <==> AppliedAt(ps, qs, r, k, j));
    var n := k + 1;
    assert forall j: nat :: j < |ps| && j != i ==> (AppliedAt(ps, qs', r, n, j) <==> AppliedAt(ps, qs, r, n, j));
    hide AppliedAt;
  }

  /** Gives the key its value in all polynomials of its list. */
  method ApplyKey(ps: seq<Poly>, qs0: seq<Poly>, r: Round, k: nat) returns (qs: seq<Poly>)
    requires k < |r.newKeys| && Found(ps, r, r.newKeys[k]) && Applied(ps, qs0, r, k) && Distinct(r.newKeys)
    ensures Applied(ps, qs, r, k + 1) && (r.index[r.newKeys[k]] == [] ==> qs == qs0)
  {
    qs := qs0;
    hide *;
    var x := r.newKeys[k];
    FoundIn(ps, r, x);
    ApplyingStarts(ps, qs, r, k);
    for t := 0 to |r.index[x]|
      invariant Applying(ps, qs, r, k, t) && (t == 0 ==> qs == qs0)
    {
      ApplyingAt(ps, qs, r, k, t);
      var i := r.index[x][t];
      var q := SubstituteConstant(qs[i], x, r.subs[x]);
      ApplyingStep(ps, qs, r, k, t, q);
      qs := qs[i := q];
    }
    ApplyingEnds(ps, qs, r, k);
  }

  lemma FoundIn(ps: seq<Poly>, r: Round, x: nat)
    requires Found(ps, r, x)
    ensures x in r.index && x in r.subs
  {
  }

  /** Gives all new keys their values; reports whether any polynomial changed. */
  method ApplySubstitutions(ps: seq<Poly>, ghost subs0: map<nat, real>, r: Round) returns (qs: seq<Poly>, changed: bool)
    requires Scanned(ps, |ps|, subs0, r)
    ensures Applied(ps, qs, r, |r.newKeys|)
    ensures !changed ==> qs == ps && forall x :: x in r.newKeys ==> x in r.index && r.index[x] == []
    ensures changed ==> exists x :: x in r.newKeys && x in r.index && r.index[x] != []
  {
    qs, changed := ps, false;
    AppliedStarts(ps, subs0, r);
    hide *;
    for k := 0 to |r.newKeys|
      invariant Applied(ps, qs, r, k) && (!changed ==> qs == ps)
      invariant changed <==> exists a :: 0 <= a < k && Listing(r, r.newKeys[a])
    {
      assert r.newKeys[k] in r.newKeys;
      NewKeyFound(ps, subs0, r, r.newKeys[k]);
      qs := ApplyKey(ps, qs, r, k);
      FoundIn(ps, r, r.newKeys[k]);
      ListingIs(r, r.newKeys[k]);
      changed := changed || |r.index[r.newKeys[k]]| > 0;
    }
    ListedNowhere(ps, subs0, r, changed);
  }

  ghost predicate Listing(r: Round, x: nat) {
    x in r.index && r.index[x] != []
  }

  lemma ListingIs(r: Round, x: nat)
    requires x in r.index
    ensures Listing(r, x) <==> |r.index[x]| > 0
  {
  }

  lemma ListedNowhere(ps: seq<Poly>, subs0: map<nat, real>, r: Round, changed: bool)
    requires Scanned(ps, |ps|, subs0, r)
    requires changed <==> exists a :: 0 <= a < |r.newKeys| && Listing(r, r.newKeys[a])
    ensures !changed ==> forall x :: x in r.newKeys ==> x in r.index && r.index[x] == []
    ensures changed ==> exists x :: x in r.newKeys && x in r.index && r.index[x] != []
  {
    forall x | x in r.newKeys ensures x in r.index && (!changed ==> r.index[x] == []) {
      var a :| 0 <= a < |r.newKeys| && r.newKeys[a] == x;
      assert Listing(r, r.newKeys[a]) ==> changed;
    }
    if changed {
      var a :| 0 <= a < |r.newKeys| && Listing(r, r.newKeys[a]);
      assert r.newKeys[a] in r.newKeys;
    }
  }

  lemma AppliedStarts(ps: seq<Poly>, subs0: map<nat, real>, r: Round)
    requires Scanned(ps, |ps|, subs0, r)
    ensures Applied(ps, ps, r, 0) && Distinct(r.newKeys)
  {
    assert r.newKeys[..0] == [] && Firsts(r.newKeys, 0) == {};
    forall j: nat | j < |ps| ensures AppliedAt(ps, ps, r, 0, j) {
      assert ps[j] in ps;
    }
  }

  // ---------- constants ----------

  /** The values of all keys are those of the substitutions. */
  ghost predicate Respects(subs: map<nat, real>, m: Values) {
    forall x :: x in subs ==> m(x) == subs[x]
  }

  ghost predicate Satisfiable(ps: seq<Poly>) {
    exists m: Values :: AllZero(ps, m)
  }

  /** The values solve the collected substitutions and the equations that are left. */
  ghost predicate Outcome(subs: map<nat, real>, kept: seq<Poly>, m: Values) {
    Respects(subs, m) && AllZero(kept, m)
  }

  /** What is left after the rounds so far. */
  ghost predicate Collected(input: seq<Poly>, subs: map<nat, real>, kept: seq<Poly>) {
    && AllProper(kept) && UNDEF !in subs && Unknowns(kept) !! subs.Keys
    && (forall m: Values :: AllZero(input, m) ==> Outcome(subs, kept, m))
    && (Satisfiable(input) ==> forall m: Values :: Outcome(subs, kept, m) ==> AllZero(input, m))
  }

  lemma UnknownIn(ps: seq<Poly>, j: nat, x: nat)
    requires j < |ps| && x in Variables(ps[j]) && x != UNDEF
    ensures x in Unknowns(ps)
  {
    assert ps[j] in ps;
  }

  /** A polynomial that stays has its old variables without the keys. */
  lemma AppliedVariables(ps: seq<Poly>, subs0: map<nat, real>, r: Round, qs: seq<Poly>, j: nat, x: nat)
    requires Scanned(ps, |ps|, subs0, r) && Applied(ps, qs, r, |r.newKeys|) && Unknowns(ps) !! subs0.Keys
    requires j < |ps| && !Settled(ps[j]) && x in Variables(qs[j]) && x != UNDEF
    ensures x in Unknowns(ps) && x !in r.subs
  {
    assert AppliedAt(ps, qs, r, |r.newKeys|, j);
    assert r.newKeys[..|r.newKeys|] == r.newKeys;
    assert x in Variables(qs[j]) - {UNDEF};
    hide Settled, Proper, Variables;
    UnknownIn(ps, j, x);
  }

  lemma AppliedEval(ps: seq<Poly>, r: Round, qs: seq<Poly>, j: nat, m: Values)
    requires Applied(ps, qs, r, |r.newKeys|) && j < |ps| && !Settled(ps[j]) && Respects(r.subs, m)
    ensures Proper(qs[j]) && Eval(qs[j], m) == Eval(ps[j], m)
  {
    assert AppliedAt(ps, qs, r, |r.newKeys|, j);
    hide Settled, Proper, Variables, Eval;
    assert AgreesOn(Firsts(r.newKeys, |r.newKeys|), r.subs, m);
  }

  /** Common zeros respect the new substitutions. */
  lemma ZerosRespect(ps: seq<Poly>, subs0: map<nat, real>, r: Round, m: Values)
    requires Scanned(ps, |ps|, subs0, r) && AllZero(ps, m) && Respects(subs0, m)
    ensures Respects(r.subs, m)
  {
    forall x | x in r.subs ensures m(x) == r.subs[x] {
      if x in r.newKeys {
        var j :| 0 <= j < |ps| && IsRoot(ps[j], x, r.subs[x]);
        assert ps[j] in ps;
        RootHolds(ps[j], m);
      }
    }
  }

  /** If the polynomials have a common zero, values that respect the substitutions make the settled ones zero. */
  lemma SettledZero(ps: seq<Poly>, subs0: map<nat, real>, r: Round, m0: Values, m: Values, j: nat)
    requires Scanned(ps, |ps|, subs0, r) && AllZero(ps, m0) && Respects(subs0, m0) && Respects(r.subs, m)
    requires j < |ps| && Settled(ps[j])
    ensures Eval(ps[j], m) == 0.0
  {
    ZerosRespect(ps, subs0, r, m0);
    assert ps[j] in ps;
    if Fixes(ps[j]) {
      RootHolds(ps[j], m0);
      RootHolds(ps[j], m);
      assert ps[j][0].v in r.subs;
    }
  }

  /** What a round does to the meaning. */
  lemma RoundMeaning(ps: seq<Poly>, subs0: map<nat, real>, r: Round, qs: seq<Poly>, rest: seq<Poly>, m: Values)
    requires Scanned(ps, |ps|, subs0, r) && Applied(ps, qs, r, |r.newKeys|)
    requires forall x :: x in rest <==> exists j :: 0 <= j < |qs| && j !in r.processed && qs[j] == x
    ensures Outcome(subs0, ps, m) ==> Outcome(r.subs, rest, m)
    ensures Outcome(r.subs, rest, m) && (exists m0: Values :: Outcome(subs0, ps, m0)) ==> Outcome(subs0, ps, m)
  {
    if Outcome(subs0, ps, m) {
      ZerosRespect(ps, subs0, r, m);
      forall x | x in rest ensures Eval(x, m) == 0.0 {
        var j :| 0 <= j < |qs| && j !in r.processed && qs[j] == x;
        AppliedEval(ps, r, qs, j, m);
        assert ps[j] in ps;
      }
    }
    if Outcome(r.subs, rest, m) && exists m0: Values :: Outcome(subs0, ps, m0) {
      var m0: Values :| Outcome(subs0, ps, m0);
      forall p | p in ps ensures Eval(p, m) == 0.0 {
        var j :| 0 <= j < |ps| && ps[j] == p;
        if Settled(p) {
          SettledZero(ps, subs0, r, m0, m, j);
        } else {
          AppliedEval(ps, r, qs, j, m);
          assert qs[j] in rest;
        }
      }
      assert Respects(subs0, m);
    }
  }

  /** A round keeps what has been collected. */
  lemma RoundCollected(input: seq<Poly>, ps: seq<Poly>, subs0: map<nat, real>, r: Round, qs: seq<Poly>, rest: seq<Poly>)
    requires Collected(input, subs0, ps) && Scanned(ps, |ps|, subs0, r) && Applied(ps, qs, r, |r.newKeys|)
    requires forall x :: x in rest <==> exists j :: 0 <= j < |qs| && j !in r.processed && qs[j] == x
    ensures Collected(input, r.subs, rest)
  {
    RoundProper(ps, subs0, r, qs, rest);
    RoundUnknowns(ps, subs0, r, qs, rest);
    NoUndef(ps, subs0, r);
    hide Scanned, Applied, AllZero, AllProper, Unknowns, Respects;
    forall m: Values
      ensures AllZero(input, m) ==> Outcome(r.subs, rest, m)
      ensures Satisfiable(input) && Outcome(r.subs, rest, m) ==> AllZero(input, m)
    {
      RoundMeaning(ps, subs0, r, qs, rest, m);
      if Satisfiable(input) {
        var m0: Values :| AllZero(input, m0);
        assert Outcome(subs0, ps, m0);
      }
    }
  }

  lemma NoUndef(ps: seq<Poly>, subs0: map<nat, real>, r: Round)
    requires Scanned(ps, |ps|, subs0, r) && UNDEF !in subs0
    ensures UNDEF !in r.subs
  {
  }

  lemma RoundProper(ps: seq<Poly>, subs0: map<nat, real>, r: Round, qs: seq<Poly>, rest: seq<Poly>)
    requires Scanned(ps, |ps|, subs0, r) && Applied(ps, qs, r, |r.newKeys|)
    requires forall x :: x in rest <==> exists j :: 0 <= j < |qs| && j !in r.processed && qs[j] == x
    ensures AllProper(rest)
  {
    forall x | x in rest ensures Proper(x) {
      var j :| 0 <= j < |qs| && j !in r.processed && qs[j] == x;
      assert AppliedAt(ps, qs, r, |r.newKeys|, j);
    }
  }

  lemma RoundUnknowns(ps: seq<Poly>, subs0: map<nat, real>, r: Round, qs: seq<Poly>, rest: seq<Poly>)
    requires Scanned(ps, |ps|, subs0, r) && Applied(ps, qs, r, |r.newKeys|) && Unknowns(ps) !! subs0.Keys
    requires forall x :: x in rest <==> exists j :: 0 <= j < |qs| && j !in r.processed && qs[j] == x
    ensures Unknowns(rest) <= Unknowns(ps) && Unknowns(rest) !! r.subs.Keys
  {
    forall x | x in Unknowns(rest) ensures x in Unknowns(ps) && x !in r.subs {
      var p :| p in rest && x in Variables(p) && x != UNDEF;
      var j :| 0 <= j < |qs| && j !in r.processed && qs[j] == p;
      AppliedVariables(ps, subs0, r, qs, j, x);
    }
  }

  /** If a polynomial changed, a variable is gone. */
  lemma RoundShrinks(ps: seq<Poly>, subs0: map<nat, real>, r: Round, qs: seq<Poly>, rest: seq<Poly>, x: nat)
    requires Scanned(ps, |ps|, subs0, r) && Applied(ps, qs, r, |r.newKeys|) && Unknowns(ps) !! subs0.Keys
    requires forall x :: x in rest <==> exists j :: 0 <= j < |qs| && j !in r.processed && qs[j] == x
    requires x in r.newKeys && x in r.index && r.index[x] != []
    ensures Unknowns(rest) < Unknowns(ps)
  {
    RoundUnknowns(ps, subs0, r, qs, rest);
    NewKeyFound(ps, subs0, r, x);
    var j := r.index[x][0];
    assert j in r.index[x];
    UnknownIn(ps, j, x);
    assert x in r.subs;
  }

  /** If no polynomial changed, none of those left is settled. */
  lemma RoundQuiet(ps: seq<Poly>, subs0: map<nat, real>, r: Round, rest: seq<Poly>)
    requires Scanned(ps, |ps|, subs0, r)
    requires forall x :: x in rest <==> exists j :: 0 <= j < |ps| && j !in r.processed && ps[j] == x
    ensures AllOpen(rest)
  {
  }

  /** Every polynomial still has a variable to solve for, or is a constant. */
  ghost predicate AllOpen(ps: seq<Poly>) {
    forall p :: p in ps ==> !Settled(p)
  }

  /** Equations that fix a variable each leave nothing. */
  ghost predicate UsedUp(input: seq<Poly>, kept: seq<Poly>) {
    (forall p :: p in input ==> Settled(p)) ==> kept == []
  }

  lemma RoundUsesUp(input: seq<Poly>, ps: seq<Poly>, subs0: map<nat, real>, r: Round, qs: seq<Poly>, rest: seq<Poly>)
    requires Scanned(ps, |ps|, subs0, r) && |qs| == |ps| && (ps == input || UsedUp(input, ps))
    requires forall x :: x in rest <==> exists j :: 0 <= j < |qs| && j !in r.processed && qs[j] == x
    ensures UsedUp(input, rest)
  {
    if forall p :: p in input ==> Settled(p) {
      assert forall j :: 0 <= j < |ps| ==> ps[j] in ps;
      assert forall x :: x !in rest;
      NoElements(rest);
    }
  }

  lemma NoElements(ps: seq<Poly>)
    requires forall x :: x !in ps
    ensures ps == []
  {
    assert |ps| == 0 || FirstOf(ps) in ps;
  }

  function FirstOf(ps: seq<Poly>): Poly {
    if ps == [] then [] else ps[0]
  }

  lemma CollectedParts(input: seq<Poly>, subs: map<nat, real>, kept: seq<Poly>)
    requires Collected(input, subs, kept)
    ensures AllProper(kept) && Unknowns(kept) !! subs.Keys
  {
  }

  lemma CollectedStarts(input: seq<Poly>)
    requires AllProper(input)
    ensures Collected(input, map[], input)
  {
  }

  lemma ProcessedWithin(ps: seq<Poly>, subs0: map<nat, real>, r: Round)
    requires Scanned(ps, |ps|, subs0, r)
    ensures Ascending(r.processed) && Within(r.processed, |ps|)
  {
    forall k | 0 <= k < |r.processed| ensures r.processed[k] < |ps| { assert r.processed[k] in r.processed; }
  }

  // ---------- what the guard drops ----------

  /** A removed equation whose variable had got another value before. */
  ghost predicate Contradicts(p: Poly, subs: map<nat, real>) {
    Fixes(p) && p[0].coeff != 0.0 && p[0].v in subs && Root(p) != subs[p[0].v]
  }

  ghost predicate Clash(removed: set<Poly>, subs: map<nat, real>) {
    exists p :: p in removed && Contradicts(p, subs)
  }

  /** The equations a round removes because they fix their variable. */
  ghost function Taken(ps: seq<Poly>, processed: seq<nat>): set<Poly> {
    set j | j in processed && j < |ps| && Fixes(ps[j]) :: ps[j]
  }

  /** Without a clash no solution is added; with one the equations have no solution. */
  ghost predicate Guarded(input: seq<Poly>, subs: map<nat, real>, kept: seq<Poly>, removed: set<Poly>) {
    && (forall p: Poly :: p in removed ==> Proper(p) && Fixes(p) && p[0].v in subs)
    && (Clash(removed, subs) ==> !Satisfiable(input))
    && (!Clash(removed, subs) ==> forall m: Values :: Outcome(subs, kept, m) ==> AllZero(input, m))
  }

  lemma GuardedStarts(input: seq<Poly>)
    ensures Guarded(input, map[], input, {})
  {
  }

  lemma Extends(ps: seq<Poly>, subs0: map<nat, real>, r: Round)
    requires Scanned(ps, |ps|, subs0, r)
    ensures forall x :: x in subs0 ==> x in r.subs && r.subs[x] == subs0[x]
  {
  }

  lemma TakenFacts(ps: seq<Poly>, subs0: map<nat, real>, r: Round)
    requires Scanned(ps, |ps|, subs0, r)
    ensures forall p :: p in Taken(ps, r.processed) <==> p in ps && Fixes(p)
    ensures forall p: Poly :: p in Taken(ps, r.processed) ==> Proper(p) && p[0].v in r.subs
  {
    hide Proper, Fixes;
    forall p | p in ps && Fixes(p) ensures p in Taken(ps, r.processed) {
      var j: nat :| j < |ps| && ps[j] == p;
      assert j in r.processed;
    }
  }

  /** A clash in a round leaves the equations without a solution. */
  lemma RoundClash(ps: seq<Poly>, subs0: map<nat, real>, r: Round, p: Poly, m: Values)
    requires Scanned(ps, |ps|, subs0, r) && p in ps && Contradicts(p, r.subs)
    ensures !Outcome(subs0, ps, m)
  {
    if Outcome(subs0, ps, m) {
      ZerosRespect(ps, subs0, r, m);
      RootHolds(p, m);
    }
  }

  /** Without a clash in the round, what satisfies its outcome satisfies what it started from. */
  lemma RoundBack(ps: seq<Poly>, subs0: map<nat, real>, r: Round, qs: seq<Poly>, rest: seq<Poly>, m: Values)
    requires Scanned(ps, |ps|, subs0, r) && Applied(ps, qs, r, |r.newKeys|)
    requires forall x :: x in rest <==> exists j :: 0 <= j < |qs| && j !in r.processed && qs[j] == x
    requires (forall p :: p in ps ==> !Contradicts(p, r.subs)) && Outcome(r.subs, rest, m)
    ensures Outcome(subs0, ps, m)
  {
    Extends(ps, subs0, r);
    forall p | p in ps ensures Eval(p, m) == 0.0 {
      var j :| 0 <= j < |ps| && ps[j] == p;
      if Fixes(p) {
        RootHolds(p, m);
      } else if p != [] {
        AppliedEval(ps, r, qs, j, m);
        assert qs[j] in rest;
      }
    }
  }

  /** A round keeps what is known about the equations removed so far. */
  lemma RoundGuarded(input: seq<Poly>, ps: seq<Poly>, subs0: map<nat, real>, r: Round, qs: seq<Poly>, rest: seq<Poly>,
                     removed: set<Poly>)
    requires Collected(input, subs0, ps) && Guarded(input, subs0, ps, removed)
    requires Scanned(ps, |ps|, subs0, r) && Applied(ps, qs, r, |r.newKeys|)
    requires forall x :: x in rest <==> exists j :: 0 <= j < |qs| && j !in r.processed && qs[j] == x
    ensures Guarded(input, r.subs, rest, removed + Taken(ps, r.processed))
  {
    hide Scanned, Applied, AllZero, AllProper, Unknowns, Proper, Respects, Taken, Fixes, Contradicts, Outcome;
    var removed' := removed + Taken(ps, r.processed);
    Extends(ps, subs0, r);
    TakenFacts(ps, subs0, r);
    ClashGrows(removed, Taken(ps, r.processed), subs0, r.subs);
    hide Clash;
    if Clash(removed', r.subs) && !Clash(removed, subs0) {
      var p :| p in Taken(ps, r.processed) && Contradicts(p, r.subs);
      forall m: Values ensures !AllZero(input, m) { RoundClash(ps, subs0, r, p, m); }
    }
    if !Clash(removed', r.subs) {
      forall p | p in ps ensures !Contradicts(p, r.subs) { ContradictionFixes(p, r.subs); }
      forall m: Values | Outcome(r.subs, rest, m) ensures AllZero(input, m) { RoundBack(ps, subs0, r, qs, rest, m); }
    }
  }

  lemma ContradictionFixes(p: Poly, subs: map<nat, real>)
    ensures Contradicts(p, subs) ==> Fixes(p)
  {
  }

  lemma ClashGrows(removed: set<Poly>, more: set<Poly>, subs0: map<nat, real>, subs: map<nat, real>)
    requires forall p: Poly :: p in removed ==> Fixes(p) && p[0].v in subs0
    requires forall x :: x in subs0 ==> x in subs && subs[x] == subs0[x]
    ensures Clash(removed + more, subs) <==> Clash(removed, subs0) || exists p :: p in more && Contradicts(p, subs)
  {
    forall p | p in removed ensures Contradicts(p, subs) <==> Contradicts(p, subs0) {}
    hide Contradicts, Fixes;
    if Clash(removed, subs0) {
      var p :| p in removed && Contradicts(p, subs0);
      assert p in removed + more;
    }
    if p :| p in more && Contradicts(p, subs) { assert p in removed + more; }
  }

  // ---------- where the equations went ----------

  /** What the values leave of an equation. */
  ghost predicate Residual(p: Poly, q: Poly, subs: map<nat, real>) {
    && Variables(q) - {UNDEF} <= Variables(p) && Variables(p) - {UNDEF} <= Variables(q) + subs.Keys
    && forall m: Values :: Respects(subs, m) ==> Eval(p, m) == Eval(q, m)
  }

  /** Every equation left something, and what is there was left by an equation. */
  ghost predicate Traced(input: seq<Poly>, subs: map<nat, real>, kept: seq<Poly>, removed: set<Poly>) {
    && (forall p :: p in input ==> exists q: Poly :: (q in kept || q in removed || q == []) && Residual(p, q, subs))
    && (forall q :: q in kept || q in removed ==> exists p :: p in input && Residual(p, q, subs))
  }

  lemma TracedStarts(input: seq<Poly>)
    ensures Traced(input, map[], input, {})
  {
    var none: map<nat, real> := map[];
    forall p | p in input ensures Residual(p, p, none) {}
    hide Residual;
  }

  lemma ResidualLater(p: Poly, q: Poly, subs0: map<nat, real>, subs: map<nat, real>)
    requires Residual(p, q, subs0) && forall x :: x in subs0 ==> x in subs && subs[x] == subs0[x]
    ensures Residual(p, q, subs)
  {
    hide Eval, Variables;
    forall m: Values | Respects(subs, m) ensures Eval(p, m) == Eval(q, m) { assert Respects(subs0, m); }
  }

  lemma ResidualThrough(p: Poly, q: Poly, q': Poly, keys: set<nat>, subs: map<nat, real>)
    requires Residual(p, q, subs) && keys <= subs.Keys && Variables(q') - {UNDEF} == Variables(q) - keys - {UNDEF}
    requires forall m: Values :: Respects(subs, m) ==> Eval(q, m) == Eval(q', m)
    ensures Residual(p, q', subs)
  {
    hide Eval, Variables, Respects;
    forall x | x in Variables(p) - {UNDEF} ensures x in Variables(q') + subs.Keys {
      if x in Variables(q) && x !in keys { assert x in Variables(q) - keys - {UNDEF}; }
    }
  }

  /** An equation that stays is replaced by what the new values leave of it. */
  lemma ResidualApplied(p: Poly, ps: seq<Poly>, subs0: map<nat, real>, r: Round, qs: seq<Poly>, j: nat)
    requires Scanned(ps, |ps|, subs0, r) && Applied(ps, qs, r, |r.newKeys|) && j < |ps| && !Settled(ps[j])
    requires Residual(p, ps[j], subs0)
    ensures Residual(p, qs[j], r.subs)
  {
    Extends(ps, subs0, r);
    ResidualLater(p, ps[j], subs0, r.subs);
    AppliedNames(ps, r, qs, j);
    NewKeysValued(ps, subs0, r);
    hide *;
    forall m: Values | Respects(r.subs, m) ensures Eval(ps[j], m) == Eval(qs[j], m) { AppliedEval(ps, r, qs, j, m); }
    ResidualThrough(p, ps[j], qs[j], Firsts(r.newKeys, |r.newKeys|), r.subs);
  }

  lemma AppliedNames(ps: seq<Poly>, r: Round, qs: seq<Poly>, j: nat)
    requires Applied(ps, qs, r, |r.newKeys|) && j < |ps| && !Settled(ps[j])
    ensures |qs| == |ps| && Variables(qs[j]) - {UNDEF} == Variables(ps[j]) - Firsts(r.newKeys, |r.newKeys|) - {UNDEF}
  {
    assert AppliedAt(ps, qs, r, |r.newKeys|, j);
    hide Variables, Firsts, Eval, Proper;
  }

  lemma NewKeysValued(ps: seq<Poly>, subs0: map<nat, real>, r: Round)
    requires Scanned(ps, |ps|, subs0, r)
    ensures Firsts(r.newKeys, |r.newKeys|) <= r.subs.Keys
  {
    assert r.newKeys[..|r.newKeys|] == r.newKeys;
  }

  lemma RoundTraced(input: seq<Poly>, ps: seq<Poly>, subs0: map<nat, real>, r: Round, qs: seq<Poly>, rest: seq<Poly>,
                    removed: set<Poly>)
    requires Traced(input, subs0, ps, removed) && Scanned(ps, |ps|, subs0, r) && Applied(ps, qs, r, |r.newKeys|)
    requires forall x :: x in rest <==> exists j :: 0 <= j < |qs| && j !in r.processed && qs[j] == x
    ensures Traced(input, r.subs, rest, removed + Taken(ps, r.processed))
  {
    var removed' := removed + Taken(ps, r.processed);
    Extends(ps, subs0, r);
    TakenFacts(ps, subs0, r);
    hide Residual, Taken;
    forall p | p in input ensures exists q: Poly :: (q in rest || q in removed' || q == []) && Residual(p, q, r.subs) {
      var q: Poly :| (q in ps || q in removed || q == []) && Residual(p, q, subs0);
      ResidualLater(p, q, subs0, r.subs);
      if q !in removed' && q != [] {
        var j :| 0 <= j < |ps| && ps[j] == q;
        ResidualApplied(p, ps, subs0, r, qs, j);
        assert qs[j] in rest;
      }
    }
    forall q | q in rest || q in removed' ensures exists p :: p in input && Residual(p, q, r.subs) {
      if q in rest {
        var j :| 0 <= j < |qs| && j !in r.processed && qs[j] == q;
        assert ps[j] in ps;
        var p :| p in input && Residual(p, ps[j], subs0);
        ResidualApplied(p, ps, subs0, r, qs, j);
      } else {
        var p :| p in input && Residual(p, q, subs0);
        ResidualLater(p, q, subs0, r.subs);
      }
    }
  }

  /** What the loop keeps. */
  ghost predicate Collecting(input: seq<Poly>, subs: map<nat, real>, kept: seq<Poly>, removed: set<Poly>) {
    && Collected(input, subs, kept) && Guarded(input, subs, kept, removed) && Traced(input, subs, kept, removed)
    && (kept == input || UsedUp(input, kept))
  }

  lemma CollectingAgain(input: seq<Poly>, subs: map<nat, real>, kept: seq<Poly>, removed: set<Poly>)
    requires Collected(input, subs, kept) && Guarded(input, subs, kept, removed)
    requires Traced(input, subs, kept, removed) && UsedUp(input, kept)
    ensures Collecting(input, subs, kept, removed)
  {
  }

  lemma CollectingParts(input: seq<Poly>, subs: map<nat, real>, kept: seq<Poly>, removed: set<Poly>)
    requires Collecting(input, subs, kept, removed)
    ensures Collected(input, subs, kept) && Guarded(input, subs, kept, removed) && Traced(input, subs, kept, removed)
    ensures AllProper(kept) && Unknowns(kept) !! subs.Keys && (kept == input || UsedUp(input, kept))
  {
    CollectedParts(input, subs, kept);
  }

  lemma CollectingStarts(input: seq<Poly>)
    requires AllProper(input)
    ensures Collecting(input, map[], input, {})
  {
    CollectedStarts(input);
    GuardedStarts(input);
    TracedStarts(input);
  }

  lemma CollectingRound(input: seq<Poly>, ps: seq<Poly>, subs0: map<nat, real>, r: Round, qs: seq<Poly>,
                        rest: seq<Poly>,
                        removed: set<Poly>)
    requires Collecting(input, subs0, ps, removed) && Scanned(ps, |ps|, subs0, r) && Applied(ps, qs, r, |r.newKeys|)
    requires forall x :: x in rest <==> exists j :: 0 <= j < |qs| && j !in r.processed && qs[j] == x
    ensures Collecting(input, r.subs, rest, removed + Taken(ps, r.processed)) && UsedUp(input, rest)
  {
    hide *;
    CollectingParts(input, subs0, ps, removed);
    SameLength(ps, qs, r);
    RoundCollected(input, ps, subs0, r, qs, rest);
    RoundGuarded(input, ps, subs0, r, qs, rest, removed);
    RoundTraced(input, ps, subs0, r, qs, rest, removed);
    RoundUsesUp(input, ps, subs0, r, qs, rest);
    CollectingAgain(input, r.subs, rest, removed + Taken(ps, r.processed));
  }

  /**
   Collects the variables that an equation fixes and propagates their values until no equation
   changes. The solutions of the equations satisfy what comes out. Nothing else does, unless an
   equation was removed although its variable had another value; then there is no solution.
   */
  method CollectConstantSubstitutions(input: seq<Poly>)
    returns (subs: map<nat, real>, kept: seq<Poly>, ghost removed: set<Poly>)
    requires AllProper(input)
    ensures Collected(input, subs, kept) && AllOpen(kept)
    ensures Guarded(input, subs, kept, removed) && Traced(input, subs, kept, removed)
    ensures UsedUp(input, kept)
  {
    hide *;
    subs, kept, removed := map[], input, {};
    CollectingStarts(input);
    while true
      invariant Collecting(input, subs, kept, removed)
      decreases Unknowns(kept)
    {
      CollectingParts(input, subs, kept, removed);
      var r := Scan(kept, subs);
      var qs, changed := ApplySubstitutions(kept, subs, r);
      ProcessedWithin(kept, subs, r);
      SameLength(kept, qs, r);
      var rest := EraseIndices(qs, r.processed);
      KeptMembers(qs, r.processed, rest);
      CollectingRound(input, kept, subs, r, qs, rest, removed);
      removed := removed + Taken(kept, r.processed);
      if !changed {
        RoundQuiet(kept, subs, r, rest);
        subs, kept := r.subs, rest;
        break;
      }
      ghost var x :| x in r.newKeys && x in r.index && r.index[x] != [];
      RoundShrinks(kept, subs, r, qs, rest, x);
      subs, kept := r.subs, rest;
    }
    CollectingParts(input, subs, kept, removed);
  }

  lemma SameLength(ps: seq<Poly>, qs: seq<Poly>, r: Round)
    requires Applied(ps, qs, r, |r.newKeys|)
    ensures |qs| == |ps|
  {
  }

  // ---------- when the solutions are kept ----------

  ghost predicate SameSolutions(input: seq<Poly>, subs: map<nat, real>, kept: seq<Poly>) {
    forall m: Values :: AllZero(input, m) <==> Outcome(subs, kept, m)
  }

  /** The collected values, and zero for all other variables. */
  function Valued(subs: map<nat, real>): Values {
    (x: nat) => if x in subs then subs[x] else 0.0
  }

  /** The values determine the equation, and it does not hold for them. */
  ghost predicate Violated(p: Poly, subs: map<nat, real>) {
    Variables(p) - {UNDEF} <= subs.Keys && Eval(p, Valued(subs)) != 0.0
  }

  /** Solutions of what is kept extend to the collected values. */
  lemma OutcomeExists(subs: map<nat, real>, kept: seq<Poly>, m: Values) returns (n: Values)
    requires AllZero(kept, m) && Unknowns(kept) !! subs.Keys
    ensures Outcome(subs, kept, n)
  {
    n := (x: nat) => if x in subs then subs[x] else m(x);
    forall p | p in kept ensures Eval(p, n) == 0.0 {
      forall x | x in Variables(p) && x != UNDEF ensures n(x) == m(x) { assert x in Unknowns(kept); }
      EvalAgree(p, m, n);
    }
  }

  /** If what is kept has a solution, a clash shows as an equation that the collected values violate. */
  lemma ClashOnInput(input: seq<Poly>, subs: map<nat, real>, kept: seq<Poly>, removed: set<Poly>)
    requires Collected(input, subs, kept) && Guarded(input, subs, kept, removed) && Traced(input, subs, kept, removed)
    requires Satisfiable(kept)
    ensures Clash(removed, subs) <==> exists p :: p in input && Violated(p, subs)
  {
    hide Eval, Variables, Fixes, Proper, AllProper, Collected;
    if Clash(removed, subs) {
      var q :| q in removed && Contradicts(q, subs);
      var p :| p in input && Residual(p, q, subs);
      ClashViolates(p, q, subs);
    }
    if p :| p in input && Violated(p, subs) {
      var q: Poly :| (q in kept || q in removed || q == []) && Residual(p, q, subs);
      if q in kept {
        CollectedParts(input, subs, kept);
        KeptHolds(p, q, subs, kept);
      } else {
        ViolatedClashes(p, q, subs);
      }
    }
  }

  lemma ClashViolates(p: Poly, q: Poly, subs: map<nat, real>)
    requires Residual(p, q, subs) && Contradicts(q, subs) && Proper(q)
    ensures Violated(p, subs)
  {
    FixedVariables(q);
    RootHolds(q, Valued(subs));
    hide Eval, Variables;
    assert Respects(subs, Valued(subs));
  }

  lemma ViolatedClashes(p: Poly, q: Poly, subs: map<nat, real>)
    requires Residual(p, q, subs) && Violated(p, subs)
    requires q == [] || (Proper(q) && Fixes(q) && q[0].v in subs)
    ensures q != [] && Contradicts(q, subs)
  {
    assert Respects(subs, Valued(subs));
    if q != [] { RootHolds(q, Valued(subs)); }
  }

  lemma UnknownsOf(kept: seq<Poly>, q: Poly)
    requires q in kept
    ensures Variables(q) - {UNDEF} <= Unknowns(kept)
  {
  }

  /** A kept equation that only mentions variables with values is a constant. */
  lemma KeptHolds(p: Poly, q: Poly, subs: map<nat, real>, kept: seq<Poly>)
    requires Residual(p, q, subs) && q in kept && Satisfiable(kept) && Unknowns(kept) !! subs.Keys
    ensures !Violated(p, subs)
  {
    var m: Values :| AllZero(kept, m);
    UnknownsOf(kept, q);
    hide Eval, Variables, Unknowns;
    assert Respects(subs, Valued(subs));
    if Variables(p) - {UNDEF} <= subs.Keys {
      assert Variables(q) - {UNDEF} <= subs.Keys * Unknowns(kept);
      EvalAgree(q, m, Valued(subs));
    }
  }

  /**
   What comes out has exactly the solutions of the equations if and only if no equation was
   removed against the value its variable had, or what is kept has no solution. The former can be
   read off the equations: none is determined by the collected values and false for them.
   */
  lemma SolutionsKept(input: seq<Poly>, subs: map<nat, real>, kept: seq<Poly>, removed: set<Poly>)
    requires Collected(input, subs, kept) && Guarded(input, subs, kept, removed) && Traced(input, subs, kept, removed)
    ensures SameSolutions(input, subs, kept) <==> !Clash(removed, subs) || !Satisfiable(kept)
    ensures SameSolutions(input, subs, kept)
       <==> (forall p :: p in input ==> !Violated(p, subs)) || !Satisfiable(kept)
  {
    if Satisfiable(kept) {
      ClashOnInput(input, subs, kept, removed);
      var m: Values :| AllZero(kept, m);
      CollectedParts(input, subs, kept);
      var n := OutcomeExists(subs, kept, m);
      hide AllZero, Outcome, Unknowns, AllProper, Respects, Traced, Clash, Violated;
      if Clash(removed, subs) { assert !AllZero(input, n); }
    }
  }

  /** The equations x = 0 and x - 5 = 0. */
  const CONTRADICTION: seq<Poly> := [[Monomial(1, 1.0)], [Monomial(1, 1.0), Monomial(UNDEF, -5.0)]]

  lemma ContradictionHasNoSolution(m: Values)
    ensures AllProper(CONTRADICTION) && (forall p :: p in CONTRADICTION ==> Settled(p)) && !AllZero(CONTRADICTION, m)
  {
    var p, q := [Monomial(1, 1.0)], [Monomial(1, 1.0), Monomial(UNDEF, -5.0)];
    assert CONTRADICTION[0] == p && CONTRADICTION[1] == q;
    assert p in CONTRADICTION && q in CONTRADICTION;
    assert Proper(p) && Proper(q) && Fixes(p) && Fixes(q);
    RootHolds(p, m);
    RootHolds(q, m);
  }

  /** The second equation is dropped because its variable already has a value: what comes out has a solution. */
  method DropContradiction() returns (subs: map<nat, real>, kept: seq<Poly>, ghost removed: set<Poly>)
    ensures !Satisfiable(CONTRADICTION) && exists m: Values :: Outcome(subs, kept, m)
    ensures Clash(removed, subs) && Satisfiable(kept)
  {
    forall m: Values ensures !AllZero(CONTRADICTION, m) { ContradictionHasNoSolution(m); }
    ContradictionHasNoSolution(_ => 0.0);
    subs, kept, removed := CollectConstantSubstitutions(CONTRADICTION);
    ghost var values := Valued(subs);
    assert Outcome(subs, kept, values);
    assert !AllZero(CONTRADICTION, values);
  }

  // ---------- solving for a variable ----------

  /** The equation in the form of a value for the variable. */
  ghost predicate SolvedFor(p: Poly, x: nat, val: Poly) {
    && Proper(val) && Variables(val) == Variables(p) - {x}
    && forall m: Values :: Eval(p, m) == 0.0 <==> ValueOf(m, x) == Eval(val, m)
  }

  /** Takes the variable out and divides by the negated coefficient. */
  method Solve(p: Poly, x: nat) returns (val: Poly)
    requires Proper(p) && x in Variables(p)
    ensures SolvedFor(p, x, val)
  {
    hide *;
    var coeff, rest := RemoveVar(p, x);
    WithoutIs(p, x);
    coeff := -coeff;
    val := rest;
    if coeff != 1.0 {
      val := DivideBy(rest, coeff);
      Quotient(rest, coeff, val);
    } else {
      NoQuotient(rest);
    }
    SolvedBy(p, x, val);
  }

  lemma Quotient(p: Poly, r: real, q: Poly)
    requires r != 0.0 && Proper(p)
    requires |q| == |p| && forall i :: 0 <= i < |p| ==> q[i] == Monomial(p[i].v, p[i].coeff / r)
    ensures Proper(q) && Variables(q) == Variables(p) && forall m: Values :: Eval(q, m) == Eval(p, m) / r
  {
    assert Divided(p, r, q);
    DividedProper(p, r, q);
    hide *;
    forall m: Values ensures Eval(q, m) == Eval(p, m) / r { DividedEval(p, r, q, m); }
  }

  lemma NoQuotient(p: Poly)
    ensures forall m: Values :: Eval(p, m) == Eval(p, m) / 1.0
  {
    hide Eval;
  }

  lemma SolvedBy(p: Poly, x: nat, val: Poly)
    requires Proper(p) && x in Variables(p) && CoeffOf(p, x) != 0.0
    requires Proper(val) && Variables(val) == Variables(Without(p, x)) == Variables(p) - {x}
    requires forall m: Values :: Eval(val, m) == Eval(Without(p, x), m) / -CoeffOf(p, x)
    ensures SolvedFor(p, x, val)
  {
    hide Proper, Variables, Eval, Without, CoeffOf;
    forall m: Values ensures Eval(p, m) == 0.0 <==> ValueOf(m, x) == Eval(val, m) {
      WithoutEval(p, x, m);
      assert Eval(val, m) == Eval(Without(p, x), m) / -CoeffOf(p, x);
      SolvedValue(CoeffOf(p, x), ValueOf(m, x), Eval(Without(p, x), m));
    }
  }

  lemma SolvedValue(c: real, x: real, y: real)
    requires c != 0.0
    ensures c * x + y == 0.0 <==> x == y / -c
  {
    assert (y / -c) * -c == y;
    if c * x + y == 0.0 { assert (x - y / -c) * c == 0.0; }
  }

  // ---------- single occurrences ----------

  /** The variable occurs in polynomial i and in no other. */
  ghost predicate OnlyIn(ps: seq<Poly>, x: nat, i: nat) {
    i < |ps| && x in Variables(ps[i]) && forall j :: 0 <= j < |ps| && x in Variables(ps[j]) ==> j == i
  }

  /** Every processed polynomial has been solved for a variable that occurs in no other. */
  ghost predicate Singles(ps: seq<Poly>, subs: map<nat, Poly>, owner: map<nat, nat>, processed: set<nat>) {
    && (forall x :: x in subs <==> x in owner)
    && (forall x :: x in owner ==> x != UNDEF && owner[x] in processed && OnlyIn(ps, x, owner[x]))
    && (forall x :: x in owner ==> SolvedFor(ps[owner[x]], x, subs[x]))
    && (forall x, y :: x in owner && y in owner && owner[x] == owner[y] ==> x == y)
    && (forall i :: i in processed ==> exists x :: x in owner && owner[x] == i)
  }

  /** The index over all polynomials, none of which is settled. */
  method IndexAll(ps: seq<Poly>) returns (index: Index)
    requires AllProper(ps) && AllOpen(ps)
    ensures IndexOk(ps, |ps|, index)
  {
    index := map[];
    hide *;
    IndexStarts(ps);
    for i := 0 to |ps|
      invariant IndexOk(ps, i, index)
    {
      OpenAt(ps, i);
      var index' := EnterPoly(ps, i, index);
      EnteredUnsettled(ps, i, index, index');
      index := index';
    }
  }

  lemma IndexStarts(ps: seq<Poly>)
    ensures IndexOk(ps, 0, map[])
  {
  }

  lemma OpenAt(ps: seq<Poly>, i: nat)
    requires AllOpen(ps) && i < |ps|
    ensures !Settled(ps[i])
  {
    assert ps[i] in ps;
  }

  /** A list of one index tells where the variable occurs. */
  lemma ListedOnce(ps: seq<Poly>, index: Index, x: nat)
    requires IndexOk(ps, |ps|, index) && AllOpen(ps) && x in index && x != UNDEF && |index[x]| == 1
    ensures OnlyIn(ps, x, index[x][0])
  {
    var i := index[x][0];
    assert i in index[x];
    forall j: nat | j < |ps| ensures x in Variables(ps[j]) <==> j == i {
      OpenAt(ps, j);
      assert MemberOk(ps, index, x, j);
      assert index[x] == [i];
    }
  }

  lemma OnlyListed(ps: seq<Poly>, index: Index, x: nat, i: nat)
    requires IndexOk(ps, |ps|, index) && AllOpen(ps) && x != UNDEF && OnlyIn(ps, x, i)
    ensures x in index && |index[x]| == 1 && index[x][0] == i
  {
    assert x in index;
    OpenAt(ps, i);
    assert MemberOk(ps, index, x, i);
    forall j: nat | j in index[x] ensures j == i {
      assert j < |ps|;
      assert MemberOk(ps, index, x, j);
    }
    hide Variables, MemberOk, OnlyIn;
    OneElement(index[x], i);
  }

  lemma OneElement(xs: seq<nat>, i: nat)
    requires Ascending(xs) && forall x :: x in xs <==> x == i
    ensures xs == [i]
  {
    assert i in xs;
    var k := |xs| - 1;
    assert xs[0] in xs && xs[k] in xs;
    assert k == 0;
  }

  /** Whoever has a variable of its own was processed. */
  ghost predicate OwnersDone(ps: seq<Poly>, processed: set<nat>) {
    forall x, i: nat :: x != UNDEF && OnlyIn(ps, x, i) ==> i in processed
  }

  lemma AllOwnersDone(ps: seq<Poly>, index: Index, processed: set<nat>)
    requires IndexOk(ps, |ps|, index) && AllOpen(ps)
    requires forall x :: x in index && x != UNDEF && |index[x]| == 1 ==> index[x][0] in processed
    ensures OwnersDone(ps, processed)
  {
    hide OnlyIn, IndexOk, AllOpen;
    forall x, i: nat | x != UNDEF && OnlyIn(ps, x, i) ensures i in processed { OnlyListed(ps, index, x, i); }
  }

  lemma SinglesStart(ps: seq<Poly>)
    ensures Singles(ps, map[], map[], {})
  {
  }

  lemma SinglesStep(ps: seq<Poly>, subs: map<nat, Poly>, owner: map<nat, nat>, processed: set<nat>, x: nat, i: nat,
                    val: Poly)
    requires Singles(ps, subs, owner, processed) && i !in processed && x != UNDEF && OnlyIn(ps, x, i)
      && SolvedFor(ps[i], x, val)
    ensures x !in subs && Singles(ps, subs[x := val], owner[x := i], processed + {i})
  {
    forall j | OnlyIn(ps, x, j) ensures j == i {}
    hide OnlyIn, SolvedFor;
    var owner' := owner[x := i];
    forall k | k in processed + {i} ensures exists y :: y in owner' && owner'[y] == k {
      if k == i {
        assert owner'[x] == i;
      } else {
        var y :| y in owner && owner[y] == k;
        assert owner'[y] == k;
      }
    }
  }

  /** The elements of a set, sorted. */
  method SortedList(s: set<nat>) returns (r: seq<nat>)
    ensures Ascending(r) && forall x :: x in r <==> x in s
  {
    r := [];
    var left := s;
    while left != {}
      invariant Ascending(r) && left <= s && forall x :: x in r <==> x in s - left
      decreases left
    {
      var x :| x in left;
      r := InsertSorted(r, x);
      left := left - {x};
    }
  }

  /**
   Solves every polynomial that has a variable of its own for one such variable, and removes it.
   */
  method CollectSingleEqualitySubstitutions(ps: seq<Poly>)
    returns (subs: map<nat, Poly>, kept: seq<Poly>, ghost owner: map<nat, nat>)
    requires AllProper(ps) && AllOpen(ps)
    ensures Singles(ps, subs, owner, owner.Values) && OwnersDone(ps, owner.Values)
    ensures forall p :: p in kept <==> exists j :: 0 <= j < |ps| && j !in owner.Values && ps[j] == p
    ensures forall m: Values :: AllZero(ps, m) <==> Satisfies(subs, m) && AllZero(kept, m)
    ensures subs.Keys !! Unknowns(kept) && forall x :: x in subs ==> Variables(subs[x]) !! subs.Keys
  {
    hide *;
    subs, kept, owner := TakeSingles(ps);
    forall m: Values ensures AllZero(ps, m) <==> Satisfies(subs, m) && AllZero(kept, m) {
      SinglesMeaning(ps, subs, owner, kept, m);
    }
    SinglesApart(ps, subs, owner, kept);
  }

  method TakeSingles(ps: seq<Poly>) returns (subs: map<nat, Poly>, kept: seq<Poly>, ghost owner: map<nat, nat>)
    requires AllProper(ps) && AllOpen(ps)
    ensures Singles(ps, subs, owner, owner.Values) && OwnersDone(ps, owner.Values)
    ensures forall p :: p in kept <==> exists j :: 0 <= j < |ps| && j !in owner.Values && ps[j] == p
  {
    var index := IndexAll(ps);
    var processed: set<nat>;
    subs, processed, owner := FindSingles(ps, index);
    var indices := SortedList(processed);
    ProcessedOwners(ps, subs, owner, processed, indices);
    kept := EraseIndices(ps, indices);
    KeptMembers(ps, indices, kept);
    assert forall j :: j in indices <==> j in owner.Values;
  }

  lemma ProcessedOwners(ps: seq<Poly>, subs: map<nat, Poly>, owner: map<nat, nat>, processed: set<nat>,
                        indices: seq<nat>)
    requires Singles(ps, subs, owner, processed) && forall x :: x in indices <==> x in processed
    ensures processed == owner.Values && Within(indices, |ps|)
  {
    forall i | i in processed ensures i in owner.Values && i < |ps| {
      var x :| x in owner && owner[x] == i;
      assert OnlyIn(ps, x, i);
    }
    forall k | 0 <= k < |indices| ensures indices[k] < |ps| { assert indices[k] in indices; }
  }

  method FindSingles(ps: seq<Poly>, index: Index)
    returns (subs: map<nat, Poly>, processed: set<nat>, ghost owner: map<nat, nat>)
    requires AllProper(ps) && AllOpen(ps) && IndexOk(ps, |ps|, index)
    ensures Singles(ps, subs, owner, processed) && OwnersDone(ps, processed)
  {
    hide *;
    subs, processed, owner := map[], {}, map[];
    SinglesStart(ps);
    var left := index.Keys;
    while left != {}
      invariant left <= index.Keys && Singles(ps, subs, owner, processed)
      invariant forall x :: x in index && x !in left && x != UNDEF && |index[x]| == 1 ==> index[x][0] in processed
      decreases left
    {
      var x :| x in left;
      left := left - {x};
      if |index[x]| == 1 && x != UNDEF {
        ListedOnce(ps, index, x);
        var i := index[x][0];
        OnlyInFacts(ps, x, i);
        if i !in processed {
          var val := Solve(ps[i], x);
          SinglesStep(ps, subs, owner, processed, x, i, val);
          subs, processed, owner := subs[x := val], processed + {i}, owner[x := i];
        }
      }
    }
    AllOwnersDone(ps, index, processed);
  }

  lemma OnlyInFacts(ps: seq<Poly>, x: nat, i: nat)
    requires OnlyIn(ps, x, i) && AllProper(ps)
    ensures i < |ps| && x in Variables(ps[i]) && Proper(ps[i])
  {
    assert ps[i] in ps;
  }

  /** The values of all variables of the map are those of their polynomials. */
  ghost predicate Satisfies(subs: map<nat, Poly>, m: Values) {
    forall x :: x in subs ==> ValueOf(m, x) == Eval(subs[x], m)
  }

  /** No variable that was solved for is left anywhere. */
  lemma SinglesApart(ps: seq<Poly>, subs: map<nat, Poly>, owner: map<nat, nat>, kept: seq<Poly>)
    requires Singles(ps, subs, owner, owner.Values)
    requires forall p :: p in kept <==> exists j :: 0 <= j < |ps| && j !in owner.Values && ps[j] == p
    ensures subs.Keys !! Unknowns(kept) && forall x :: x in subs ==> Variables(subs[x]) !! subs.Keys
  {
    hide Variables, Proper, Eval;
    forall x, p | x in subs && p in kept ensures x !in Variables(p) {
      var j :| 0 <= j < |ps| && j !in owner.Values && ps[j] == p;
      assert OnlyIn(ps, x, owner[x]);
    }
    forall x, y | x in subs && y in subs ensures y !in Variables(subs[x]) {
      assert OnlyIn(ps, x, owner[x]) && OnlyIn(ps, y, owner[y]) && SolvedFor(ps[owner[x]], x, subs[x]);
    }
  }

  /** Solved and remaining polynomials together have exactly the old solutions. */
  lemma SinglesMeaning(ps: seq<Poly>, subs: map<nat, Poly>, owner: map<nat, nat>, kept: seq<Poly>, m: Values)
    requires Singles(ps, subs, owner, owner.Values)
    requires forall p :: p in kept <==> exists j :: 0 <= j < |ps| && j !in owner.Values && ps[j] == p
    ensures AllZero(ps, m) <==> Satisfies(subs, m) && AllZero(kept, m)
  {
    hide OnlyIn, Proper, Variables, Eval;
    if AllZero(ps, m) {
      forall x | x in subs ensures ValueOf(m, x) == Eval(subs[x], m) {
        OnlyInRange(ps, x, owner[x]);
        assert ps[owner[x]] in ps;
      }
      assert forall p :: p in kept ==> p in ps;
    }
    if Satisfies(subs, m) && AllZero(kept, m) {
      forall p | p in ps ensures Eval(p, m) == 0.0 {
        var j :| 0 <= j < |ps| && ps[j] == p;
        if j in owner.Values {
          var x :| x in owner && owner[x] == j;
          assert SolvedFor(ps[j], x, subs[x]) && x in subs;
        } else {
          assert p in kept;
        }
      }
    }
  }

  lemma OnlyInRange(ps: seq<Poly>, x: nat, i: nat)
    requires OnlyIn(ps, x, i)
    ensures i < |ps|
  {
  }

  // ---------- the elimination ----------

  /** The constant as a polynomial. */
  function Constant(c: real): Poly {
    if c == 0.0 then [] else [Monomial(UNDEF, c)]
  }

  lemma ConstantIs(c: real)
    ensures Proper(Constant(c)) && Variables(Constant(c)) <= {UNDEF} && forall m: Values :: Eval(Constant(c), m) == c
  {
    forall m: Values ensures Eval(Constant(c), m) == c {
      if c != 0.0 { EvalOne(Monomial(UNDEF, c), m); }
    }
  }

  /** The first i polynomials have been solved for their first variables, where these had no value. */
  ghost predicate FirstSolved(kept: seq<Poly>, i: nat, base: map<nat, Poly>, out: map<nat, Poly>) {
    && i <= |kept| && (forall x :: x in base ==> x in out && out[x] == base[x])
    && (forall x :: x in out && x !in base ==> x != UNDEF && SolvedFirst(kept, i, x, out[x]))
  }

  ghost predicate SolvedFirst(kept: seq<Poly>, i: nat, x: nat, val: Poly)
    requires i <= |kept|
  {
    exists j :: 0 <= j < i && IsFirst(kept[j], x) && SolvedFor(kept[j], x, val)
  }

  ghost predicate IsFirst(p: Poly, x: nat) {
    p != [] && p[0].v == x
  }

  lemma FirstSolvedStep(kept: seq<Poly>, i: nat, base: map<nat, Poly>, out: map<nat, Poly>, out': map<nat, Poly>)
    requires i < |kept| && FirstSolved(kept, i, base, out)
    requires out' == out || exists x, val ::
      x !in out && x != UNDEF && IsFirst(kept[i], x) && SolvedFor(kept[i], x, val) && out' == out[x := val]
    ensures FirstSolved(kept, i + 1, base, out')
  {
    hide SolvedFor, IsFirst;
    forall x | x in out' && x !in base ensures x != UNDEF && SolvedFirst(kept, i + 1, x, out'[x]) {
      if x in out && out'[x] == out[x] { assert SolvedFirst(kept, i, x, out[x]); }
    }
  }

  /** The first i polynomials are constants or have a first variable with a value. */
  ghost predicate FirstsKnown(kept: seq<Poly>, i: nat, out: map<nat, Poly>) {
    i <= |kept| && forall j :: 0 <= j < i ==> kept[j] != [] && (kept[j][0].v == UNDEF || kept[j][0].v in out)
  }

  lemma FirstsKnownStart(kept: seq<Poly>, out: map<nat, Poly>)
    ensures FirstsKnown(kept, 0, out)
  {
  }

  lemma FirstsKnownStep(kept: seq<Poly>, i: nat, out: map<nat, Poly>, out': map<nat, Poly>)
    requires i < |kept| && FirstsKnown(kept, i, out) && out.Keys <= out'.Keys
    requires kept[i] != [] && (kept[i][0].v == UNDEF || kept[i][0].v in out')
    ensures FirstsKnown(kept, i + 1, out')
  {
  }

  lemma FirstOpen(ps: seq<Poly>, i: nat)
    requires AllProper(ps) && AllOpen(ps) && i < |ps|
    ensures ps[i] != [] && Proper(ps[i]) && ps[i][0].v in Variables(ps[i])
  {
    assert ps[i] in ps;
    assert ps[i][0] in ps[i];
  }

  /** Solves every polynomial for its first variable, unless that has a value already. */
  method SolveFirsts(kept: seq<Poly>, base: map<nat, Poly>) returns (out: map<nat, Poly>)
    requires AllProper(kept) && AllOpen(kept)
    ensures FirstSolved(kept, |kept|, base, out) && FirstsKnown(kept, |kept|, out)
  {
    out := base;
    assert FirstSolved(kept, 0, base, out);
    FirstsKnownStart(kept, out);
    hide *;
    for i := 0 to |kept|
      invariant FirstSolved(kept, i, base, out) && FirstsKnown(kept, i, out)
    {
      FirstOpen(kept, i);
      var x := kept[i][0].v;
      ghost var before := out;
      if x != UNDEF && x !in out {
        var val := Solve(kept[i], x);
        FirstIs(kept[i], x);
        out := out[x := val];
      }
      FirstSolvedStep(kept, i, base, before, out);
      FirstsKnownStep(kept, i, before, out);
    }
  }

  lemma FirstIs(p: Poly, x: nat)
    requires p != [] && p[0].v == x
    ensures IsFirst(p, x)
  {
  }

  /** Every entry of the map is a polynomial that the equations give to its variable. */
  ghost predicate Entails(equations: seq<Poly>, out: map<nat, Poly>) {
    && (forall x :: x in out ==> x != UNDEF && Proper(out[x]) && x !in Variables(out[x]))
    && forall m: Values :: AllZero(equations, m) ==> Satisfies(out, m)
  }

  /** Values of the map depend on variables of smaller rank only: the map has no cycle. */
  ghost predicate Triangular(out: map<nat, Poly>, rank: nat -> nat) {
    forall x, y :: x in out && y in Variables(out[x]) && y in out ==> rank(y) < rank(x)
  }

  /** Constants last, single occurrences first, and the others by their variable. */
  ghost function RankOf(consts: map<nat, real>, singles: map<nat, Poly>): nat -> nat {
    (x: nat) => if x in consts then 0 else if x in singles then UNDEF + 1 else if x < UNDEF then UNDEF - x else 0
  }

  /** The three kinds of entries, in terms of the equations left after the constants. */
  ghost predicate ThreeKinds(consts: map<nat, real>, ps: seq<Poly>, singles: map<nat, Poly>, owner: map<nat, nat>,
                             kept: seq<Poly>, out: map<nat, Poly>) {
    && AllProper(ps) && UNDEF !in consts && Unknowns(ps) !! consts.Keys && Singles(ps, singles, owner, owner.Values)
    && (forall p :: p in kept <==> exists j :: 0 <= j < |ps| && j !in owner.Values && ps[j] == p)
    && (forall x :: x in out ==> KindOf(consts, singles, kept, out, x))
  }

  ghost predicate KindOf(consts: map<nat, real>, singles: map<nat, Poly>, kept: seq<Poly>, out: map<nat, Poly>, x: nat)
    requires x in out
  {
    if x in consts then out[x] == Constant(consts[x])
    else if x in singles then out[x] == singles[x]
    else x != UNDEF && SolvedFirst(kept, |kept|, x, out[x])
  }

  lemma KeptIn(ps: seq<Poly>, owner: map<nat, nat>, kept: seq<Poly>, k: nat) returns (j: nat)
    requires forall p :: p in kept <==> exists j :: 0 <= j < |ps| && j !in owner.Values && ps[j] == p
    requires k < |kept|
    ensures j < |ps| && j !in owner.Values && ps[j] == kept[k]
  {
    assert kept[k] in kept;
    j :| 0 <= j < |ps| && j !in owner.Values && ps[j] == kept[k];
  }

  /** The variables of an entry's value come later. */
  lemma EntryRanked(consts: map<nat, real>, ps: seq<Poly>, singles: map<nat, Poly>, owner: map<nat, nat>,
                    kept: seq<Poly>, out: map<nat, Poly>, x: nat, y: nat)
    requires ThreeKinds(consts, ps, singles, owner, kept, out) && x in out && y in Variables(out[x]) && y in out
    ensures RankOf(consts, singles)(y) < RankOf(consts, singles)(x)
  {
    assert KindOf(consts, singles, kept, out, x) && KindOf(consts, singles, kept, out, y);
    if x in consts {
      ConstantIs(consts[x]);
      NotUndef(consts, ps, singles, owner, kept, out, y);
    } else if x in singles {
      SingleRanked(consts, ps, singles, owner, kept, out, x, y);
    } else {
      var k :| 0 <= k < |kept| && IsFirst(kept[k], x) && SolvedFor(kept[k], x, out[x]);
      var j := KeptIn(ps, owner, kept, k);
      FirstRanked(consts, ps, singles, owner, kept, out, x, y, j);
    }
  }

  lemma NotUndef(consts: map<nat, real>, ps: seq<Poly>, singles: map<nat, Poly>, owner: map<nat, nat>,
                 kept: seq<Poly>, out: map<nat, Poly>, y: nat)
    requires ThreeKinds(consts, ps, singles, owner, kept, out) && y in out
    ensures y != UNDEF
  {
    assert KindOf(consts, singles, kept, out, y);
  }

  lemma SingleRanked(consts: map<nat, real>, ps: seq<Poly>, singles: map<nat, Poly>, owner: map<nat, nat>,
                     kept: seq<Poly>, out: map<nat, Poly>, x: nat, y: nat)
    requires ThreeKinds(consts, ps, singles, owner, kept, out) && x in out && y in Variables(out[x]) && y in out
    requires x !in consts && x in singles && out[x] == singles[x]
    ensures RankOf(consts, singles)(y) < RankOf(consts, singles)(x)
  {
    NotUndef(consts, ps, singles, owner, kept, out, y);
    var j := owner[x];
    assert OnlyIn(ps, x, j) && SolvedFor(ps[j], x, singles[x]);
    UnknownIn(ps, j, y);
    assert y in singles ==> OnlyIn(ps, y, owner[y]);
  }

  lemma FirstRanked(consts: map<nat, real>, ps: seq<Poly>, singles: map<nat, Poly>, owner: map<nat, nat>,
                    kept: seq<Poly>, out: map<nat, Poly>, x: nat, y: nat, j: nat)
    requires ThreeKinds(consts, ps, singles, owner, kept, out) && x in out && y in Variables(out[x]) && y in out
    requires x !in consts && x !in singles && x != UNDEF
    requires j < |ps| && j !in owner.Values && IsFirst(ps[j], x) && SolvedFor(ps[j], x, out[x])
    ensures RankOf(consts, singles)(y) < RankOf(consts, singles)(x)
  {
    NotUndef(consts, ps, singles, owner, kept, out, y);
    UnknownIn(ps, j, y);
    assert y in singles ==> OnlyIn(ps, y, owner[y]);
    assert ps[j] in ps;
    LaterVariable(ps[j], x, y);
  }

  lemma LaterVariable(p: Poly, x: nat, y: nat)
    requires Proper(p) && IsFirst(p, x) && y in Variables(p) && y != x && y != UNDEF
    ensures x < y < UNDEF
  {
    var z :| z in p && z.v == y;
    var k :| 0 <= k < |p| && p[k] == z;
  }

  lemma EntryProper(consts: map<nat, real>, ps: seq<Poly>, singles: map<nat, Poly>, owner: map<nat, nat>,
                    kept: seq<Poly>, out: map<nat, Poly>, x: nat)
    requires ThreeKinds(consts, ps, singles, owner, kept, out) && x in out
    ensures x != UNDEF && Proper(out[x]) && x !in Variables(out[x])
  {
    NotUndef(consts, ps, singles, owner, kept, out, x);
    assert KindOf(consts, singles, kept, out, x);
    if x in consts { ConstantIs(consts[x]); }
    hide Proper, Variables;
  }

  lemma EntryHolds(consts: map<nat, real>, ps: seq<Poly>, singles: map<nat, Poly>, owner: map<nat, nat>,
                   kept: seq<Poly>, out: map<nat, Poly>, x: nat, m: Values)
    requires ThreeKinds(consts, ps, singles, owner, kept, out) && x in out && Outcome(consts, ps, m)
    ensures ValueOf(m, x) == Eval(out[x], m)
  {
    NotUndef(consts, ps, singles, owner, kept, out, x);
    assert KindOf(consts, singles, kept, out, x);
    if x in consts {
      ConstantIs(consts[x]);
    } else {
      SinglesMeaning(ps, singles, owner, kept, m);
      if x !in singles {
        var k :| 0 <= k < |kept| && IsFirst(kept[k], x) && SolvedFor(kept[k], x, out[x]);
        assert kept[k] in kept;
      }
    }
  }

  lemma Eliminated(equations: seq<Poly>, consts: map<nat, real>, ps: seq<Poly>, singles: map<nat, Poly>,
                   owner: map<nat, nat>,
                   kept: seq<Poly>, out: map<nat, Poly>)
    requires Collected(equations, consts, ps) && ThreeKinds(consts, ps, singles, owner, kept, out)
    ensures Entails(equations, out) && Triangular(out, RankOf(consts, singles))
  {
    hide ThreeKinds, Outcome, AllZero, Proper, Variables, RankOf, Unknowns, AllProper;
    forall x | x in out ensures x != UNDEF && Proper(out[x]) && x !in Variables(out[x]) {
      EntryProper(consts, ps, singles, owner, kept, out, x);
    }
    forall m: Values | AllZero(equations, m) ensures Satisfies(out, m) {
      forall x | x in out ensures ValueOf(m, x) == Eval(out[x], m) {
        EntryHolds(consts, ps, singles, owner, kept, out, x, m);
      }
    }
    forall x, y | x in out && y in Variables(out[x]) && y in out
      ensures RankOf(consts, singles)(y) < RankOf(consts, singles)(x)
    {
      EntryRanked(consts, ps, singles, owner, kept, out, x, y);
    }
  }

  /** Every equation with a variable mentions one that has a value. */
  ghost predicate Covers(equations: seq<Poly>, keys: set<nat>) {
    forall p :: p in equations && Variables(p) - {UNDEF} != {} ==> Variables(p) * keys != {}
  }

  /** A polynomial of those left after the constants mentions a variable with a value. */
  lemma LeftCovered(ps: seq<Poly>, singles: map<nat, Poly>, owner: map<nat, nat>, kept: seq<Poly>,
                    out: map<nat, Poly>, q: Poly)
    requires AllProper(ps) && Singles(ps, singles, owner, owner.Values) && singles.Keys <= out.Keys && q in ps
    requires forall p :: p in kept <==> exists j :: 0 <= j < |ps| && j !in owner.Values && ps[j] == p
    requires FirstsKnown(kept, |kept|, out) && Variables(q) - {UNDEF} != {}
    ensures exists x :: x != UNDEF && x in Variables(q) && x in out
  {
    var j :| 0 <= j < |ps| && ps[j] == q;
    if j in owner.Values {
      var x :| x in owner && owner[x] == j;
      assert OnlyIn(ps, x, j) && x in Variables(q);
    } else {
      assert q in kept;
      var k :| 0 <= k < |kept| && kept[k] == q;
      assert q[0] in q && q[0].v in Variables(q);
      if q[0].v == UNDEF { OnlyUndef(q); }
    }
  }

  lemma OnlyUndef(q: Poly)
    requires Proper(q) && q != [] && q[0].v == UNDEF
    ensures Variables(q) - {UNDEF} == {}
  {
    var k := |q| - 1;
    assert q[k].v <= UNDEF;
    assert k == 0 && q == [q[0]];
  }

  /** An equation that left q after the constants. */
  lemma EquationCovered(p: Poly, q: Poly, consts: map<nat, real>, ps: seq<Poly>, removed: set<Poly>,
                        singles: map<nat, Poly>, owner: map<nat, nat>, kept: seq<Poly>, out: map<nat, Poly>)
    requires (q in ps || q in removed || q == []) && Residual(p, q, consts) && Variables(p) - {UNDEF} != {}
    requires forall r: Poly :: r in removed ==> Fixes(r) && r[0].v in consts
    requires AllProper(ps) && Singles(ps, singles, owner, owner.Values) && consts.Keys + singles.Keys <= out.Keys
    requires forall p :: p in kept <==> exists j :: 0 <= j < |ps| && j !in owner.Values && ps[j] == p
    requires FirstsKnown(kept, |kept|, out)
    ensures Variables(p) * out.Keys != {}
  {
    hide Singles, FirstsKnown, AllProper, Proper, Eval;
    if q !in ps { RemovedMentions(p, q, consts); }
    if x :| x in Variables(p) && x in consts {
      assert x in Variables(p) * out.Keys;
    } else {
      LeftCovered(ps, singles, owner, kept, out, q);
      var x :| x != UNDEF && x in Variables(q) && x in out;
      assert x in Variables(p) * out.Keys;
    }
  }

  lemma RemovedMentions(p: Poly, q: Poly, consts: map<nat, real>)
    requires Residual(p, q, consts) && (q == [] || (Fixes(q) && q[0].v in consts)) && Variables(p) - {UNDEF} != {}
    ensures exists x :: x in Variables(p) && x in consts
  {
    if q == [] {
      var x :| x in Variables(p) - {UNDEF};
      assert x in consts;
    } else {
      assert q[0] in q && q[0].v in Variables(q) - {UNDEF};
    }
  }

  lemma AllCovered(equations: seq<Poly>, consts: map<nat, real>, ps: seq<Poly>, removed: set<Poly>,
                   singles: map<nat, Poly>, owner: map<nat, nat>, kept: seq<Poly>, out: map<nat, Poly>)
    requires Traced(equations, consts, ps, removed) && Guarded(equations, consts, ps, removed) && AllProper(ps)
    requires Singles(ps, singles, owner, owner.Values) && consts.Keys + singles.Keys <= out.Keys
    requires forall p :: p in kept <==> exists j :: 0 <= j < |ps| && j !in owner.Values && ps[j] == p
    requires FirstsKnown(kept, |kept|, out)
    ensures Covers(equations, out.Keys)
  {
    hide Singles, FirstsKnown, AllProper, Proper, Satisfiable, Outcome, AllZero, Eval;
    forall p | p in equations && Variables(p) - {UNDEF} != {} ensures Variables(p) * out.Keys != {} {
      var q: Poly :| (q in ps || q in removed || q == []) && Residual(p, q, consts);
      EquationCovered(p, q, consts, ps, removed, singles, owner, kept, out);
    }
  }

  /**
   Eliminates variables by linear equations. Every value in the map follows from the equations,
   the map has no cycle, and every equation with a variable mentions one that has a value.
   */
  method ArithmeticElimination(equations: seq<Poly>) returns (out: map<nat, Poly>, ghost rank: nat -> nat)
    requires AllProper(equations)
    ensures Entails(equations, out) && Triangular(out, rank) && Covers(equations, out.Keys)
  {
    hide *;
    var consts, ps;
    ghost var removed;
    consts, ps, removed := CollectConstantSubstitutions(equations);
    CollectedParts(equations, consts, ps);
    var base := InsertConstants(consts);
    var singles, kept;
    ghost var owner;
    singles, kept, owner := CollectSingleEqualitySubstitutions(ps);
    SubOpen(ps, owner, kept);
    SinglesNew(equations, consts, ps, singles, owner, base);
    base := base + singles;
    out := SolveFirsts(kept, base);
    Kinds(equations, consts, ps, singles, owner, kept, base, out);
    Eliminated(equations, consts, ps, singles, owner, kept, out);
    KeysKept(kept, base, out);
    AllCovered(equations, consts, ps, removed, singles, owner, kept, out);
    rank := RankOf(consts, singles);
  }

  lemma KeysKept(kept: seq<Poly>, base: map<nat, Poly>, out: map<nat, Poly>)
    requires FirstSolved(kept, |kept|, base, out)
    ensures base.Keys <= out.Keys
  {
  }

  method InsertConstants(consts: map<nat, real>) returns (base: map<nat, Poly>)
    ensures base.Keys == consts.Keys && forall x :: x in consts ==> base[x] == Constant(consts[x])
  {
    base := map x | x in consts :: Constant(consts[x]);
  }

  /** No variable is inserted twice. */
  lemma SinglesNew(equations: seq<Poly>, consts: map<nat, real>, ps: seq<Poly>, singles: map<nat, Poly>,
                   owner: map<nat, nat>,
                   base: map<nat, Poly>)
    requires Collected(equations, consts, ps) && Singles(ps, singles, owner, owner.Values) && base.Keys == consts.Keys
    ensures base.Keys !! singles.Keys
  {
    forall x | x in singles ensures x !in base {
      assert OnlyIn(ps, x, owner[x]);
      UnknownIn(ps, owner[x], x);
    }
  }

  lemma SubOpen(ps: seq<Poly>, owner: map<nat, nat>, kept: seq<Poly>)
    requires AllProper(ps) && AllOpen(ps)
    requires forall p :: p in kept <==> exists j :: 0 <= j < |ps| && j !in owner.Values && ps[j] == p
    ensures AllProper(kept) && AllOpen(kept)
  {
    hide Proper, Settled;
    assert forall p :: p in kept ==> p in ps;
  }

  lemma Kinds(equations: seq<Poly>, consts: map<nat, real>, ps: seq<Poly>, singles: map<nat, Poly>,
              owner: map<nat, nat>,
              kept: seq<Poly>, base: map<nat, Poly>, out: map<nat, Poly>)
    requires Collected(equations, consts, ps) && Singles(ps, singles, owner, owner.Values)
      && base.Keys == consts.Keys + singles.Keys
    requires consts.Keys !! singles.Keys && FirstSolved(kept, |kept|, base, out)
    requires forall x :: x in base ==> base[x] == if x in consts then Constant(consts[x]) else singles[x]
    requires forall p :: p in kept <==> exists j :: 0 <= j < |ps| && j !in owner.Values && ps[j] == p
    ensures ThreeKinds(consts, ps, singles, owner, kept, out)
  {
    hide Singles, SolvedFirst, Constant, AllZero, Outcome, Unknowns, AllProper;
    forall x | x in out ensures KindOf(consts, singles, kept, out, x) {
    }
  }

  // ---------- a map without cycles can be solved ----------

  /** The values with the map's variables of rank below k set. */
  ghost function Extended(out: map<nat, Poly>, rank: nat -> nat, m: Values, k: nat): Values {
    if k == 0 then m
    else
      var n := Extended(out, rank, m, k - 1);
      (x: nat) => if x in out && rank(x) == k - 1 then Eval(out[x], n) else n(x)
  }

  lemma {:induction false} ExtendedStays(out: map<nat, Poly>, rank: nat -> nat, m: Values, k: nat, l: nat, x: nat)
    requires k <= l && (x !in out || rank(x) < k)
    ensures Extended(out, rank, m, l)(x) == Extended(out, rank, m, k)(x)
    decreases l
  {
    if k < l { ExtendedStays(out, rank, m, k, l - 1, x); }
  }

  /** Whatever the other variables are, the map's variables can be given values that satisfy it. */
  lemma TriangularSolvable(out: map<nat, Poly>, rank: nat -> nat, m: Values, k: nat)
    requires Triangular(out, rank) && forall x :: x in out ==> x != UNDEF && rank(x) < k
    ensures Satisfies(out, Extended(out, rank, m, k)) && forall x: nat :: x !in out ==>
      Extended(out, rank, m, k)(x) == m(x)
  {
    hide Eval, Variables, Extended;
    forall x: nat | x !in out ensures Extended(out, rank, m, k)(x) == m(x) {
      ExtendedStays(out, rank, m, 0, k, x);
      ExtendedNone(out, rank, m);
    }
    forall x | x in out ensures ValueOf(Extended(out, rank, m, k), x) == Eval(out[x], Extended(out, rank, m, k)) {
      ExtendedValue(out, rank, m, k, x);
    }
  }

  lemma ExtendedNone(out: map<nat, Poly>, rank: nat -> nat, m: Values)
    ensures Extended(out, rank, m, 0) == m
  {
  }

  lemma ExtendedSets(out: map<nat, Poly>, rank: nat -> nat, m: Values, x: nat)
    requires x in out
    ensures Extended(out, rank, m, rank(x) + 1)(x) == Eval(out[x], Extended(out, rank, m, rank(x)))
  {
  }

  lemma ExtendedValue(out: map<nat, Poly>, rank: nat -> nat, m: Values, k: nat, x: nat)
    requires Triangular(out, rank) && x in out && x != UNDEF && rank(x) < k
    ensures Extended(out, rank, m, k)(x) == Eval(out[x], Extended(out, rank, m, k))
  {
    hide Eval, Variables, Extended;
    var r := rank(x);
    ExtendedSets(out, rank, m, x);
    ExtendedStays(out, rank, m, r + 1, k, x);
    forall v | v in Variables(out[x]) && v != UNDEF
      ensures Extended(out, rank, m, r)(v) == Extended(out, rank, m, k)(v)
    {
      ExtendedStays(out, rank, m, r, k, v);
    }
    EvalAgree(out[x], Extended(out, rank, m, r), Extended(out, rank, m, k));
  }
}
