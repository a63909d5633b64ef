/**
 Substitutions of terms for variables: the bottom-up rewriting of Substitutor and the
 closure of a substitution map under itself.
 */
module Substitution {
  import opened Sequences
  import opened Terms

  /** A map that remembers the order in which its keys were inserted. */
  datatype SubstMap = SubstMap(keys: seq<Term>, m: map<Term, Term>)

  ghost predicate ValidMap(s: SubstMap) {
    Distinct(s.keys) && forall k :: k in s.keys <==> k in s.m
  }

  const EmptySubst := SubstMap([], map[])

  function Insert(s: SubstMap, k: Term, t: Term): SubstMap {
    SubstMap(s.keys + [k], s.m[k := t])
  }

  lemma InsertValid(s: SubstMap, k: Term, t: Term)
    requires ValidMap(s) && k !in s.m
    ensures ValidMap(Insert(s, k, t))
  {
  }

  // ---------- rewriting ----------

  /** The image of a rebuilt term under the map, or the term itself. */
  function Lookup(t: Term, m: map<Term, Term>): Term {
    if t in m then m[t] else t
  }

  /** Rewrites the arguments first, rebuilds the term if one changed, then looks it up. */
  function Rewrite(t: Term, m: map<Term, Term>, rank: Order): Term {
    if t.Var? then Lookup(t, m)
    else
      var args := seq(|Args(t)|, i requires 0 <= i < |Args(t)| => Rewrite(Args(t)[i], m, rank));
      Lookup(if args == Args(t) then t else Rebuild(t, args, rank), m)
  }

  function RewriteArgs(t: Term, m: map<Term, Term>, rank: Order): (args: seq<Term>)
    ensures |args| == |Args(t)|
    ensures forall i :: 0 <= i < |args| ==> args[i] == Rewrite(Args(t)[i], m, rank)
  {
    seq(|Args(t)|, i requires 0 <= i < |Args(t)| => Rewrite(Args(t)[i], m, rank))
  }

  lemma RewriteUnfold(t: Term, m: map<Term, Term>, rank: Order)
    requires !t.Var?
    ensures var args := RewriteArgs(t, m, rank);
            Rewrite(t, m, rank) == Lookup(if args == Args(t) then t else Rebuild(t, args, rank), m)
  {
    assert RewriteArgs(t, m, rank)
        == seq(|Args(t)|, i requires 0 <= i < |Args(t)| => Rewrite(Args(t)[i], m, rank));
  }

  /** Keys are variables; targets are well formed and of the sort of their key. */
  ghost predicate GoodSubst(m: map<Term, Term>) {
    forall k :: k in m ==> k.Var? && WellFormed(m[k]) && SortOf(m[k]) == SortOf(k)
  }

  /** The equations k = m[k] hold in a model. */
  ghost predicate Equations(m: map<Term, Term>, mod: Model) {
    forall k :: k in m ==> Eval(k, mod) == Eval(m[k], mod)
  }

  /** A ranking of the keys that decreases from a key to every key in its target. */
  ghost predicate Ranked(m: map<Term, Term>, depth: map<Term, nat>) {
    && (forall k :: k in m ==> k in depth)
    && (forall k, v :: k in m && v in Vars(m[k]) && v in m ==> depth[v] < depth[k])
  }

  /** Every key in t has depth below b. */
  ghost predicate Below(t: Term, m: map<Term, Term>, depth: map<Term, nat>, b: int) {
    forall v :: v in Vars(t) && v in m ==> v in depth && depth[v] < b
  }

  lemma LookupProperties(r: Term, m: map<Term, Term>, depth: map<Term, nat>, b: int, xs: set<Term>)
    requires GoodSubst(m) && Ranked(m, depth) && WellFormed(r)
    requires Below(r, m, depth, b) && Vars(r) <= xs
    requires forall k :: k in m ==> Vars(m[k]) <= xs
    ensures WellFormed(Lookup(r, m)) && SortOf(Lookup(r, m)) == SortOf(r)
    ensures Below(Lookup(r, m), m, depth, b) && Vars(Lookup(r, m)) <= xs
  {
    if r in m { assert r in Vars(r); }
  }

  /** Rewriting keeps sorts and lowers the depth of every key that remains. */
  lemma {:induction false} RewriteShape(
      t: Term, m: map<Term, Term>, rank: Order, depth: map<Term, nat>, b: int, xs: set<Term>)
    requires WellFormed(t) && GoodSubst(m) && Ranked(m, depth)
    requires Below(t, m, depth, b) && Vars(t) <= xs
    requires forall k :: k in m ==> Vars(m[k]) <= xs
    ensures WellFormed(Rewrite(t, m, rank)) && SortOf(Rewrite(t, m, rank)) == SortOf(t)
    ensures Below(Rewrite(t, m, rank), m, depth, b - 1) && Vars(Rewrite(t, m, rank)) <= xs
  {
    if t.Var? {
      assert t in Vars(t);
    } else {
      RewriteUnfold(t, m, rank);
      var args := RewriteArgs(t, m, rank);
      hide Rewrite, Rebuild, GoodSubst, Ranked, SortOf;
      forall i | 0 <= i < |args|
        ensures WellFormed(args[i]) && SortOf(args[i]) == SortOf(Args(t)[i])
        ensures Below(args[i], m, depth, b - 1) && Vars(args[i]) <= xs
      {
        VarsArgSubset(t, i);
        RewriteShape(Args(t)[i], m, rank, depth, b, xs);
      }
      RebuiltShape(t, args, m, rank, depth, b - 1, xs);
      LookupProperties(if args == Args(t) then t else Rebuild(t, args, rank), m, depth, b - 1, xs);
    }
  }

  lemma RebuiltShape(
      t: Term, args: seq<Term>, m: map<Term, Term>, rank: Order, depth: map<Term, nat>, b: int, xs: set<Term>)
    requires WellFormed(t) && !t.Var? && |args| == |Args(t)|
    requires forall i :: 0 <= i < |args| ==> WellFormed(args[i]) && SortOf(args[i]) == SortOf(Args(t)[i])
    requires forall i :: 0 <= i < |args| ==> Below(args[i], m, depth, b) && Vars(args[i]) <= xs
    ensures var r := if args == Args(t) then t else Rebuild(t, args, rank);
            WellFormed(r) && SortOf(r) == SortOf(t) && Below(r, m, depth, b) && Vars(r) <= xs
  {
    hide WellFormed, Rebuild, SortOf, Vars, Eval;
    RebuildMeaning(t, args, rank, AnyModel);
    VarsOfArgs(t);
    var r := if args == Args(t) then t else Rebuild(t, args, rank);
    assert Vars(r) <= VarsOfAll(args);
    forall v | v in Vars(r) ensures v in xs && (v in m ==> v in depth && depth[v] < b) {
      var i :| 0 <= i < |args| && v in Vars(args[i]);
      assert Below(args[i], m, depth, b);
    }
  }

  /** Under the equations of the keys it meets, rewriting keeps the value of a term. */
  lemma {:induction false} RewriteMeaning(
      t: Term, m: map<Term, Term>, rank: Order, depth: map<Term, nat>, b: int, mod: Model)
    requires WellFormed(t) && GoodSubst(m) && Ranked(m, depth) && Below(t, m, depth, b)
    requires forall k :: k in m && depth[k] < b ==> Eval(k, mod) == Eval(m[k], mod)
    ensures Eval(Rewrite(t, m, rank), mod) == Eval(t, mod)
  {
    if t.Var? {
      assert t in Vars(t);
    } else {
      RewriteUnfold(t, m, rank);
      var args := RewriteArgs(t, m, rank);
      var xs := Vars(t) + (set k, v | k in m && v in Vars(m[k]) :: v);
      hide Rewrite, Rebuild, SortOf, WellFormed, RewriteArgs, Ranked;
      forall i | 0 <= i < |args|
        ensures WellFormed(args[i]) && SortOf(args[i]) == SortOf(Args(t)[i])
        ensures Below(args[i], m, depth, b - 1) && Vars(args[i]) <= xs && Eval(args[i], mod) == Eval(Args(t)[i], mod)
      {
        VarsArgSubset(t, i);
        RewriteShape(Args(t)[i], m, rank, depth, b, xs);
        RewriteMeaning(Args(t)[i], m, rank, depth, b, mod);
      }
      var r := if args == Args(t) then t else Rebuild(t, args, rank);
      RebuiltShape(t, args, m, rank, depth, b - 1, xs);
      RebuildMeaning(t, args, rank, mod);
      if r in m { assert r in Vars(r); }
    }
  }

  /** A term without keys is left alone. */
  lemma {:induction false} RewriteIdentity(t: Term, m: map<Term, Term>, rank: Order)
    requires GoodSubst(m) && Vars(t) !! m.Keys
    ensures Rewrite(t, m, rank) == t
  {
    if t.Var? {
      assert t in Vars(t);
    } else {
      RewriteUnfold(t, m, rank);
      forall i | 0 <= i < |Args(t)| ensures Rewrite(Args(t)[i], m, rank) == Args(t)[i] {
        VarsArgSubset(t, i);
        RewriteIdentity(Args(t)[i], m, rank);
      }
      assert RewriteArgs(t, m, rank) == Args(t);
    }
  }

  lemma Deepest(s: set<Term>, depth: map<Term, nat>) returns (x: Term)
    requires s != {} && forall v :: v in s ==> v in depth
    ensures x in s && forall v :: v in s ==> depth[v] <= depth[x]
  {
    x :| x in s;
    var rest := s - {x};
    if rest != {} {
      var y := Deepest(rest, depth);
      assert s == rest + {x};
      if depth[y] > depth[x] { x := y; }
    }
  }

  /** The variables a rewritten term may have. */
  ghost function Reachable(t: Term, m: map<Term, Term>): (xs: set<Term>)
    ensures Vars(t) <= xs && forall k :: k in m ==> Vars(m[k]) <= xs
  {
    Vars(t) + (set k, v | k in m && v in Vars(m[k]) :: v)
  }

  /** A key of greatest depth in a term does not survive the rewriting. */
  lemma DeepestGoes(t: Term, m: map<Term, Term>, rank: Order, depth: map<Term, nat>, x: Term)
    requires WellFormed(t) && GoodSubst(m) && Ranked(m, depth)
    requires x in Vars(t) && x in m && forall v :: v in Vars(t) && v in m ==> depth[v] <= depth[x]
    ensures x !in Vars(Rewrite(t, m, rank))
  {
    hide Vars, WellFormed, GoodSubst, Rewrite;
    RewriteShape(t, m, rank, depth, depth[x] + 1, Reachable(t, m));
  }

  /** Rewriting changes a term exactly when a key occurs in it. */
  lemma RewriteChanges(t: Term, m: map<Term, Term>, rank: Order, depth: map<Term, nat>)
    requires WellFormed(t) && GoodSubst(m) && Ranked(m, depth)
    ensures Rewrite(t, m, rank) == t <==> Vars(t) !! m.Keys
  {
    hide Vars, WellFormed, GoodSubst, Rewrite;
    if Vars(t) !! m.Keys {
      RewriteIdentity(t, m, rank);
    } else {
      var y :| y in Vars(t) && y in m.Keys;
      assert y in Vars(t) * m.Keys;
      var x := Deepest(Vars(t) * m.Keys, depth);
      assert forall v :: v in Vars(t) && v in m ==> v in Vars(t) * m.Keys;
      DeepestGoes(t, m, rank, depth, x);
    }
  }

  // ---------- closing a substitution map ----------

  /** No key occurs in a target. */
  ghost predicate Closed(m: map<Term, Term>) {
    forall k, v :: k in m && v in Vars(m[k]) ==> v !in m
  }

  function Sum(bs: seq<nat>): nat {
    if bs == [] then 0 else bs[0] + Sum(bs[1..])
  }

  lemma {:induction false} SumDecreases(bs: seq<nat>, i: nat)
    requires i < |bs| && bs[i] > 0
    ensures Sum(bs[i := (bs[i] - 1) as nat]) + 1 == Sum(bs)
  {
    var cs := bs[i := (bs[i] - 1) as nat];
    if i == 0 {
      assert cs[1..] == bs[1..];
    } else {
      SumDecreases(bs[1..], i - 1);
      assert cs[1..] == bs[1..][i - 1 := (bs[i] - 1) as nat];
    }
  }

  /** Equations of a map with one target rewritten by the map itself have the same models. */
  lemma RewriteOneTarget(m: map<Term, Term>, k: Term, rank: Order, depth: map<Term, nat>, mod: Model)
    requires GoodSubst(m) && Ranked(m, depth) && k in m
    ensures Equations(m[k := Rewrite(m[k], m, rank)], mod) <==> Equations(m, mod)
  {
    var n := m[k := Rewrite(m[k], m, rank)];
    if Equations(n, mod) {
      forall j | j in m && depth[j] < depth[k] ensures Eval(j, mod) == Eval(m[j], mod) {
        assert n[j] == m[j];
      }
      RewriteMeaning(m[k], m, rank, depth, depth[k], mod);
      forall j | j in m ensures Eval(j, mod) == Eval(m[j], mod) {
        assert j in n;
      }
    }
    if Equations(m, mod) {
      RewriteMeaning(m[k], m, rank, depth, depth[k], mod);
    }
  }

  /** What the closure keeps: the key list, good targets over the variables xs, the ranking. */
  ghost predicate Closing(s: SubstMap, s0: SubstMap, depth: map<Term, nat>, xs: set<Term>) {
    && ValidMap(s) && s.keys == s0.keys && s.m.Keys == s0.m.Keys
    && GoodSubst(s.m) && Ranked(s.m, depth)
    && (forall k :: k in s.m ==> Vars(s.m[k]) <= xs)
    && (forall mod: Model :: Equations(s.m, mod) <==> Equations(s0.m, mod))
  }

  /** For each key a bound on the depth of the keys its target may still contain. */
  ghost predicate Bounded(s: SubstMap, depth: map<Term, nat>, bs: seq<nat>) {
    |bs| == |s.keys| && forall i :: 0 <= i < |bs| ==> s.keys[i] in s.m && Below(s.m[s.keys[i]], s.m, depth, bs[i])
  }

  function RewriteTarget(s: SubstMap, i: nat, rank: Order): SubstMap
    requires i < |s.keys| && s.keys[i] in s.m
  {
    s.(m := s.m[s.keys[i] := Rewrite(s.m[s.keys[i]], s.m, rank)])
  }

  lemma CloseOne(s: SubstMap, s0: SubstMap, i: nat, rank: Order, depth: map<Term, nat>, xs: set<Term>)
    requires Closing(s, s0, depth, xs) && i < |s.keys| && s.keys[i] in s.m
    ensures Closing(RewriteTarget(s, i, rank), s0, depth, xs)
  {
    var k := s.keys[i];
    var t := Rewrite(s.m[k], s.m, rank);
    RewriteShape(s.m[k], s.m, rank, depth, depth[k], xs);
    var n := s.m[k := t];
    forall mod: Model ensures Equations(n, mod) <==> Equations(s0.m, mod) {
      RewriteOneTarget(s.m, k, rank, depth, mod);
    }
    assert n.Keys == s.m.Keys;
  }

  lemma TightenOne(s: SubstMap, i: nat, rank: Order, depth: map<Term, nat>, xs: set<Term>, bs: seq<nat>)
    requires Closing(s, s, depth, xs) && Bounded(s, depth, bs) && i < |s.keys| && s.keys[i] in s.m
    requires !(Vars(s.m[s.keys[i]]) !! s.m.Keys)
    ensures bs[i] > 0
    ensures Bounded(RewriteTarget(s, i, rank), depth, bs[i := (bs[i] - 1) as nat])
  {
    var k := s.keys[i];
    var v :| v in Vars(s.m[k]) && v in s.m;
    assert Below(s.m[k], s.m, depth, bs[i]);
    RewriteShape(s.m[k], s.m, rank, depth, bs[i], xs);
    TightenBounds(s, i, Rewrite(s.m[k], s.m, rank), depth, bs);
  }

  lemma TightenBounds(s: SubstMap, i: nat, t: Term, depth: map<Term, nat>, bs: seq<nat>)
    requires ValidMap(s) && Bounded(s, depth, bs) && i < |s.keys| && s.keys[i] in s.m
    requires bs[i] > 0 && Below(t, s.m, depth, bs[i] - 1)
    ensures Bounded(s.(m := s.m[s.keys[i] := t]), depth, bs[i := (bs[i] - 1) as nat])
  {
    hide Vars;
    var n := s.m[s.keys[i] := t];
    assert n.Keys == s.m.Keys;
    forall j | 0 <= j < |bs|
      ensures s.keys[j] in n && Below(n[s.keys[j]], n, depth, bs[i := (bs[i] - 1) as nat][j])
    {
      assert Below(s.m[s.keys[j]], s.m, depth, bs[j]);
      assert j != i ==> s.keys[j] != s.keys[i];
    }
  }

  /** Targets marked unchanged contain no key. */
  ghost predicate Settled(s: SubstMap, notChanged: seq<bool>) {
    |notChanged| == |s.keys|
    && forall i :: 0 <= i < |s.keys| && notChanged[i] ==> s.keys[i] in s.m && Vars(s.m[s.keys[i]]) !! s.m.Keys
  }

  lemma SettledAfter(s: SubstMap, i: nat, rank: Order, notChanged: seq<bool>)
    requires ValidMap(s) && Settled(s, notChanged) && i < |s.keys| && s.keys[i] in s.m && !notChanged[i]
    ensures Settled(RewriteTarget(s, i, rank), notChanged)
  {
    var r := RewriteTarget(s, i, rank);
    assert r.m.Keys == s.m.Keys;
  }

  /** Rewrites one target unless it is marked; marks it when rewriting leaves it alone. */
  method CloseTarget(s0: SubstMap, i: nat, notChanged0: seq<bool>, rank: Order,
                     ghost depth: map<Term, nat>, ghost xs: set<Term>, ghost bs0: seq<nat>)
    returns (s: SubstMap, notChanged: seq<bool>, changed: bool, ghost bs: seq<nat>)
    requires Closing(s0, s0, depth, xs) && Bounded(s0, depth, bs0) && Settled(s0, notChanged0)
    requires i < |s0.keys| && s0.keys[i] in s0.m
    ensures Closing(s, s0, depth, xs) && Bounded(s, depth, bs) && Settled(s, notChanged)
    ensures if changed then Sum(bs) < Sum(bs0) else bs == bs0 && notChanged[i]
    ensures s == if notChanged0[i] then s0 else RewriteTarget(s0, i, rank)
    ensures forall j :: 0 <= j < |notChanged0| && notChanged0[j] ==> notChanged[j]
  {
    s, notChanged, changed, bs := s0, notChanged0, false, bs0;
    if notChanged[i] { return; }
    var oldVal := s.m[s.keys[i]];
    var newVal := Rewrite(oldVal, s.m, rank);
    RewriteChanges(oldVal, s.m, rank, depth);
    CloseOne(s, s0, i, rank, depth, xs);
    if oldVal != newVal {
      TightenOne(s, i, rank, depth, xs, bs);
      SettledAfter(s, i, rank, notChanged);
      SumDecreases(bs, i);
      changed := true;
      s := s.(m := s.m[s.keys[i] := newVal]);
      bs := bs[i := (bs[i] - 1) as nat];
    } else {
      notChanged := notChanged[i := true];
      assert s0.m[s0.keys[i] := newVal] == s0.m;
    }
  }

  lemma ClosingTransitive(s: SubstMap, s1: SubstMap, s0: SubstMap, depth: map<Term, nat>, xs: set<Term>)
    requires Closing(s, s1, depth, xs) && Closing(s1, s0, depth, xs)
    ensures Closing(s, s0, depth, xs) && Closing(s, s, depth, xs)
  {
  }

  /** One pass over the keys; changed tells whether a target was rewritten. */
  method ClosurePass(s0: SubstMap, notChanged0: seq<bool>, rank: Order,
                     ghost depth: map<Term, nat>, ghost xs: set<Term>, ghost bs0: seq<nat>)
    returns (s: SubstMap, notChanged: seq<bool>, changed: bool, ghost bs: seq<nat>)
    requires Closing(s0, s0, depth, xs) && Bounded(s0, depth, bs0) && Settled(s0, notChanged0)
    ensures Closing(s, s0, depth, xs) && Bounded(s, depth, bs) && Settled(s, notChanged)
    ensures if changed then Sum(bs) < Sum(bs0) else bs == bs0
    ensures !changed ==> forall i :: 0 <= i < |notChanged| ==> notChanged[i]
  {
    hide Bounded, GoodSubst, Ranked, Equations, Below;
    s, notChanged, changed, bs := s0, notChanged0, false, bs0;
    for i := 0 to |s0.keys|
      invariant Closing(s, s0, depth, xs) && Bounded(s, depth, bs) && Settled(s, notChanged)
      invariant if changed then Sum(bs) < Sum(bs0) else bs == bs0
      invariant !changed ==> forall j :: 0 <= j < i ==> notChanged[j]
    {
      ClosingTransitive(s, s0, s0, depth, xs);
      var c;
      ghost var was := s;
      s, notChanged, c, bs := CloseTarget(s, i, notChanged, rank, depth, xs, bs);
      ClosingTransitive(s, was, s0, depth, xs);
      changed := changed || c;
    }
  }

  /** At first a target may contain the keys ranked below its own key. */
  ghost function InitialBounds(s: SubstMap, depth: map<Term, nat>): (bs: seq<nat>)
    requires ValidMap(s) && Ranked(s.m, depth)
    ensures Bounded(s, depth, bs)
  {
    seq(|s.keys|, i requires 0 <= i < |s.keys| => depth[s.keys[i]])
  }

  /**
   Rewrites every target by the map until nothing changes. A target that did not change in
   one pass contains no key and is skipped from then on.
   */
  method TransitiveClosure(s0: SubstMap, rank: Order, ghost depth: map<Term, nat>, ghost xs: set<Term>)
    returns (s: SubstMap)
    requires Closing(s0, s0, depth, xs)
    ensures Closing(s, s0, depth, xs)
    ensures Closed(s.m)
  {
    hide GoodSubst, Ranked, Equations, Bounded, Vars;
    s := s0;
    var changed := true;
    var notChanged := seq(|s.keys|, _ => false);
    ghost var bs := InitialBounds(s, depth);
    while changed
      invariant Closing(s, s0, depth, xs) && Bounded(s, depth, bs) && Settled(s, notChanged)
      invariant !changed ==> forall i :: 0 <= i < |notChanged| ==> notChanged[i]
      decreases Sum(bs), changed
    {
      ghost var was := s;
      ClosingTransitive(s, s0, s0, depth, xs);
      s, notChanged, changed, bs := ClosurePass(s, notChanged, rank, depth, xs, bs);
      ClosingTransitive(s, was, s0, depth, xs);
    }
    forall k, v | k in s.m && v in Vars(s.m[k]) ensures v !in s.m {
      assert k in s.keys;
    }
  }
}
