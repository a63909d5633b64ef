/**
 How often the terms of a formula are arguments, as far as Boolean operators reach.
 */
module IncomingEdges {
  import opened Sequences
  import opened Terms
  import opened Facts
  import opened NestedBooleans

  // ---------- incoming edges ----------

  /** What is below a term as far as Boolean operators reach. */
  function OperatorArgs(t: Term): (r: seq<Term>)
    ensures forall i :: 0 <= i < |r| ==> r[i] < t
  {
    if BooleanOperator(t) then Args(t) else []
  }

  function Skeleton(t: Term): set<Term> {
    {t} + set i, x | 0 <= i < |OperatorArgs(t)| && x in Skeleton(OperatorArgs(t)[i]) :: x
  }

  /** The argument positions of the terms in ts, by what they hold. */
  ghost function Edges(ts: seq<Term>): multiset<Term> {
    if ts == [] then multiset{} else Edges(ts[..|ts| - 1]) + multiset(OperatorArgs(ts[|ts| - 1]))
  }

  lemma {:induction false} SkeletonNested(t: Term, u: Term)
    requires u in Skeleton(t)
    ensures Skeleton(u) <= Skeleton(t) && Size(u) <= Size(t)
  {
    if u != t {
      var i :| 0 <= i < |OperatorArgs(t)| && u in Skeleton(OperatorArgs(t)[i]);
      SkeletonNested(OperatorArgs(t)[i], u);
      ArgSmaller(t, |Args(t)|, i);
      assert Skeleton(OperatorArgs(t)[i]) <= Skeleton(t);
    }
  }

  lemma SkeletonArg(t: Term, u: Term, i: nat)
    requires u in Skeleton(t) && i < |OperatorArgs(u)|
    ensures OperatorArgs(u)[i] in Skeleton(t) && Size(OperatorArgs(u)[i]) < Size(u)
  {
    SkeletonNested(t, u);
    ArgSmaller(u, |Args(u)|, i);
    assert OperatorArgs(u)[i] in Skeleton(OperatorArgs(u)[i]);
  }

  function Count(counts: map<Term, nat>, t: Term): nat {
    if t in counts then counts[t] else 0
  }

  function RootEdge(root: Term, t: Term): nat {
    if t == root then 1 else 0
  }

  /** Every edge seen is counted or waits on the stack; the root waits once on its own. */
  ghost predicate Tally(root: Term, queue: seq<Term>, counts: map<Term, nat>, expanded: seq<Term>) {
    forall t :: Count(counts, t) + multiset(queue)[t] == Edges(expanded)[t] + RootEdge(root, t)
  }

  /** A place of the stack whose term waits for its arguments. */
  ghost predicate Waits(queue: seq<Term>, k: int, counts: map<Term, nat>, expanded: seq<Term>) {
    0 <= k < |queue| && queue[k] in expanded && queue[k] !in counts && queue[k] !in queue[k + 1..]
  }

  /** What is above a waiting term is smaller, and its arguments are counted or above. */
  ghost predicate WaitsWell(queue: seq<Term>, k: int, counts: map<Term, nat>) {
    && 0 <= k < |queue|
    && (forall j :: k < j < |queue| ==> Size(queue[j]) < Size(queue[k]))
    && (forall a :: a in OperatorArgs(queue[k]) ==> a in counts || a in queue[k + 1..])
  }

  /** Counted operators have been expanded, and their arguments are counted. */
  ghost predicate CountedBelow(counts: map<Term, nat>, expanded: seq<Term>) {
    && (forall t :: t in counts && BooleanOperator(t) ==> t in expanded)
    && (forall t, a :: t in counts && a in OperatorArgs(t) ==> a in counts)
  }

  lemma CountedNext(counts: map<Term, nat>, expanded: seq<Term>, t: Term, n: nat)
    requires CountedBelow(counts, expanded)
    requires t in counts || ((BooleanOperator(t) ==> t in expanded) && forall a :: a in OperatorArgs(t) ==> a in counts)
    ensures CountedBelow(counts[t := n], expanded)
  {
    hide BooleanOperator, OperatorArgs;
  }

  ghost predicate Visiting(root: Term, queue: seq<Term>, counts: map<Term, nat>, expanded: seq<Term>) {
    && Distinct(expanded) && (forall t :: t in expanded ==> BooleanOperator(t) && t in Skeleton(root))
    && (forall t :: t in queue || t in counts ==> t in Skeleton(root))
    && (root in queue || root in counts)
    && CountedBelow(counts, expanded)
    && (forall t :: t in expanded ==> t in counts || t in queue)
    && (forall k :: Waits(queue, k, counts, expanded) ==> WaitsWell(queue, k, counts))
  }

  lemma VisitingStarts(root: Term)
    ensures Visiting(root, [root], map[], []) && Tally(root, [root], map[], [])
  {
  }

  /** The top is counted once more and leaves the stack. */
  lemma VisitingPop(root: Term, queue: seq<Term>, counts: map<Term, nat>, expanded: seq<Term>)
    requires Visiting(root, queue, counts, expanded) && queue != []
    requires var t := queue[|queue| - 1];
             t in counts || ((BooleanOperator(t) ==> t in expanded) && forall a :: a in OperatorArgs(t) ==> a in counts)
    ensures var (n, t) := (|queue| - 1, queue[|queue| - 1]);
            Visiting(root, queue[..n], counts[t := Count(counts, t) + 1], expanded)
  {
    var n, t := |queue| - 1, queue[|queue| - 1];
    var rest, counts' := queue[..n], counts[t := Count(counts, t) + 1];
    assert t in queue && forall x :: x in queue ==> x in rest || x == t;
    hide Skeleton, OperatorArgs, Size, Args, BooleanOperator, Count;
    hide Waits, WaitsWell;
    CountedNext(counts, expanded, t, Count(counts, t) + 1);
    hide CountedBelow;
    forall k | Waits(rest, k, counts', expanded) ensures WaitsWell(rest, k, counts') {
      PopWaits(queue, counts, expanded, k);
    }
  }

  lemma PopWaits(queue: seq<Term>, counts: map<Term, nat>, expanded: seq<Term>, k: int)
    requires queue != [] && forall j :: Waits(queue, j, counts, expanded) ==> WaitsWell(queue, j, counts)
    requires var t := queue[|queue| - 1];
             Waits(queue[..|queue| - 1], k, counts[t := Count(counts, t) + 1], expanded)
    ensures WaitsWell(queue[..|queue| - 1], k, counts[queue[|queue| - 1] := Count(counts, queue[|queue| - 1]) + 1])
  {
    hide Skeleton, OperatorArgs, Size, Args, BooleanOperator, Count;
    var n, t := |queue| - 1, queue[|queue| - 1];
    assert queue[k + 1..] == queue[..n][k + 1..] + [t];
    assert Waits(queue, k, counts, expanded);
  }

  lemma TallyPop(root: Term, queue: seq<Term>, counts: map<Term, nat>, expanded: seq<Term>)
    requires Tally(root, queue, counts, expanded) && queue != []
    ensures var (n, t) := (|queue| - 1, queue[|queue| - 1]);
            Tally(root, queue[..n], counts[t := Count(counts, t) + 1], expanded)
  {
    var n, t := |queue| - 1, queue[|queue| - 1];
    assert queue == queue[..n] + [t];
  }

  lemma {:induction false} LastPlace(queue: seq<Term>, t: Term) returns (p: nat)
    requires t in queue
    ensures p < |queue| && queue[p] == t && t !in queue[p + 1..]
  {
    var n := |queue| - 1;
    if queue[n] == t {
      p := n;
    } else {
      p := LastPlace(queue[..n], t);
      assert queue[p + 1..] == queue[..n][p + 1..] + [queue[n]];
    }
  }

  /** An uncounted argument of the top has not been expanded. */
  lemma NotOpened(root: Term, queue: seq<Term>, counts: map<Term, nat>, expanded: seq<Term>, i: nat)
    requires Visiting(root, queue, counts, expanded) && queue != []
    requires var t := queue[|queue| - 1]; i < |OperatorArgs(t)| && OperatorArgs(t)[i] !in counts
    ensures OperatorArgs(queue[|queue| - 1])[i] !in expanded
  {
    var t := queue[|queue| - 1];
    var a := OperatorArgs(t)[i];
    assert t in queue;
    SkeletonArg(root, t, i);
    hide Skeleton, OperatorArgs, Size, Args, BooleanOperator;
    if a in expanded {
      var p := LastPlace(queue, a);
      TopSmaller(queue, counts, expanded, p);
    }
  }

  lemma TopSmaller(queue: seq<Term>, counts: map<Term, nat>, expanded: seq<Term>, p: nat)
    requires forall k :: Waits(queue, k, counts, expanded) ==> WaitsWell(queue, k, counts)
    requires p < |queue| && queue[p] in expanded && queue[p] !in counts && queue[p] !in queue[p + 1..]
    ensures Size(queue[|queue| - 1]) <= Size(queue[p])
  {
    hide Size, OperatorArgs;
    assert Waits(queue, p, counts, expanded);
  }

  /** The arguments of the top are pushed, or counted once more if they have been. */
  ghost predicate Opens(queue: seq<Term>, counts: map<Term, nat>, n: nat, more: seq<Term>, counts': map<Term, nat>)
    requires queue != [] && n <= |OperatorArgs(queue[|queue| - 1])|
  {
    var args := OperatorArgs(queue[|queue| - 1]);
    && queue <= more && counts'.Keys == counts.Keys
    && Pushed(args, n, counts, more[|queue|..])
    && AddsEdges(queue, counts, args[..n], more, counts')
  }

  ghost predicate Pushed(args: seq<Term>, n: nat, counts: map<Term, nat>, tail: seq<Term>)
    requires n <= |args|
  {
    && (forall q :: q in tail ==> q in args && q !in counts)
    && (forall i :: 0 <= i < n ==> args[i] in counts || args[i] in tail)
  }

  lemma PushedNext(args: seq<Term>, n: nat, counts: map<Term, nat>, tail: seq<Term>)
    requires n < |args| && Pushed(args, n, counts, tail)
    ensures Pushed(args, n + 1, counts, if args[n] in counts then tail else tail + [args[n]])
  {
    if args[n] !in counts {
      forall i | 0 <= i < n + 1 ensures args[i] in counts || args[i] in tail + [args[n]] {
        assert (tail + [args[n]])[|tail|] == args[n];
      }
    }
  }

  ghost predicate AddsEdges(queue: seq<Term>, counts: map<Term, nat>, args: seq<Term>, more: seq<Term>,
                            counts': map<Term, nat>) {
    forall x :: Count(counts', x) + multiset(more)[x] == Count(counts, x) + multiset(queue)[x] + multiset(args)[x]
  }

  lemma AddsEdge(queue: seq<Term>, counts: map<Term, nat>, args: seq<Term>, more: seq<Term>, counts': map<Term, nat>,
                 a: Term)
    requires AddsEdges(queue, counts, args, more, counts')
    ensures if a in counts' then AddsEdges(queue, counts, args + [a], more, counts'[a := counts'[a] + 1])
            else AddsEdges(queue, counts, args + [a], more + [a], counts')
  {
    hide Count;
    forall x
      ensures multiset(args + [a])[x] == multiset(args)[x] + multiset([a])[x]
      ensures multiset(more + [a])[x] == multiset(more)[x] + multiset([a])[x]
      ensures a in counts' ==> Count(counts'[a := counts'[a] + 1], x) == Count(counts', x) + multiset([a])[x]
    {
      if a in counts' { CountMore(counts', a, x); }
    }
  }

  lemma OpensNext(queue: seq<Term>, counts: map<Term, nat>, n: nat, more: seq<Term>, counts': map<Term, nat>)
    requires queue != [] && n < |OperatorArgs(queue[|queue| - 1])| && Opens(queue, counts, n, more, counts')
    ensures var a := OperatorArgs(queue[|queue| - 1])[n];
            if a in counts' then Opens(queue, counts, n + 1, more, counts'[a := counts'[a] + 1])
            else Opens(queue, counts, n + 1, more + [a], counts')
  {
    hide OperatorArgs, Count, AddsEdges, Pushed;
    var args := OperatorArgs(queue[|queue| - 1]);
    var a := args[n];
    assert args[..n + 1] == args[..n] + [a];
    assert (more + [a])[|queue|..] == more[|queue|..] + [a];
    PushedNext(args, n, counts, more[|queue|..]);
    AddsEdge(queue, counts, args[..n], more, counts', a);
  }

  lemma CountMore(counts: map<Term, nat>, a: Term, x: Term)
    requires a in counts
    ensures Count(counts[a := counts[a] + 1], x) == Count(counts, x) + multiset([a])[x]
  {
  }

  /** Opening the top. */
  lemma VisitingOpen(root: Term, queue: seq<Term>, counts: map<Term, nat>, expanded: seq<Term>, more: seq<Term>,
                     counts': map<Term, nat>)
    requires Visiting(root, queue, counts, expanded) && queue != []
    requires var t := queue[|queue| - 1];
             && BooleanOperator(t) && t !in expanded && t !in counts
             && Opens(queue, counts, |OperatorArgs(t)|, more, counts')
    ensures Visiting(root, more, counts', expanded + [queue[|queue| - 1]])
  {
    hide Skeleton, OperatorArgs, Size, Args, BooleanOperator, Count, Waits, WaitsWell;
    var n, t := |queue| - 1, queue[|queue| - 1];
    var args, expanded' := OperatorArgs(t), expanded + [t];
    assert t in queue;
    DistinctPush(expanded, t);
    forall a | a in args ensures a in Skeleton(root) && Size(a) < Size(t) && (a !in counts ==> a !in expanded') {
      var i :| 0 <= i < |args| && args[i] == a;
      SkeletonArg(root, t, i);
      if a !in counts { NotOpened(root, queue, counts, expanded, i); }
    }
    forall k | Waits(more, k, counts', expanded') ensures WaitsWell(more, k, counts') {
      OpenWaits(root, queue, counts, expanded, more, counts', k);
    }
    forall q | q in more ensures q in Skeleton(root) {
      if q !in queue { InRest(queue, more, q); }
    }
    forall q | q in queue ensures q in more { StillIn(queue, more, q); }
  }

  lemma StillIn(queue: seq<Term>, more: seq<Term>, q: Term)
    requires queue <= more && q in queue
    ensures q in more
  {
  }

  lemma InRest(queue: seq<Term>, more: seq<Term>, q: Term)
    requires queue <= more && q in more && q !in queue
    ensures q in more[|queue|..]
  {
    assert more == queue + more[|queue|..];
  }

  lemma OpenWaits(root: Term, queue: seq<Term>, counts: map<Term, nat>, expanded: seq<Term>, more: seq<Term>,
                  counts': map<Term, nat>, k: int)
    requires Visiting(root, queue, counts, expanded) && queue != []
    requires var t := queue[|queue| - 1];
             && Opens(queue, counts, |OperatorArgs(t)|, more, counts')
             && (forall a :: a in OperatorArgs(t) ==> Size(a) < Size(t) && (a !in counts ==> a !in expanded + [t]))
    requires Waits(more, k, counts', expanded + [queue[|queue| - 1]])
    ensures WaitsWell(more, k, counts')
  {
    hide Skeleton, OperatorArgs, Size, Args, BooleanOperator, Count;
    var n, t := |queue| - 1, queue[|queue| - 1];
    InMore(queue, more, k);
    forall j | n < j < |more| ensures Size(more[j]) < Size(t) { InMore(queue, more, j); }
    if k < n {
      BelowTop(queue, counts, expanded, more, k);
      forall a | a in OperatorArgs(more[k]) ensures a in counts' || a in more[k + 1..] {
        if a in queue[k + 1..] { StillIn(queue[k + 1..], more[k + 1..], a); }
      }
    } else {
      forall a | a in OperatorArgs(t) ensures a in counts' || a in more[k + 1..] {
        var i :| 0 <= i < |OperatorArgs(t)| && OperatorArgs(t)[i] == a;
      }
    }
  }

  lemma InMore(queue: seq<Term>, more: seq<Term>, k: int)
    requires |queue| <= |more|
    ensures |queue| <= k < |more| ==> more[k] in more[|queue|..]
  {
    if |queue| <= k < |more| { assert more[|queue|..][k - |queue|] == more[k]; }
  }

  lemma BelowTop(queue: seq<Term>, counts: map<Term, nat>, expanded: seq<Term>, more: seq<Term>, k: int)
    requires queue <= more && 0 <= k < |queue| - 1
    requires forall j :: Waits(queue, j, counts, expanded) ==> WaitsWell(queue, j, counts)
    requires more[k] in expanded + [queue[|queue| - 1]] && more[k] !in counts && more[k] !in more[k + 1..]
    ensures queue[k + 1..] <= more[k + 1..] && more[k] == queue[k] && WaitsWell(queue, k, counts)
  {
    hide OperatorArgs, Size;
    var n := |queue| - 1;
    assert more[k + 1..][n - k - 1] == queue[n];
    assert queue[k + 1..] <= more[k + 1..];
    assert Waits(queue, k, counts, expanded);
  }

  lemma TallyOpen(root: Term, queue: seq<Term>, counts: map<Term, nat>, expanded: seq<Term>, more: seq<Term>,
                  counts': map<Term, nat>)
    requires Tally(root, queue, counts, expanded) && queue != []
    requires Opens(queue, counts, |OperatorArgs(queue[|queue| - 1])|, more, counts')
    ensures Tally(root, more, counts', expanded + [queue[|queue| - 1]])
  {
    hide *;
    var t := queue[|queue| - 1];
    var args, expanded' := OperatorArgs(t), expanded + [t];
    OpensAdds(queue, counts, more, counts');
    EdgesPush(expanded, t);
    forall x: Term ensures Count(counts', x) + multiset(more)[x] == Edges(expanded')[x] + RootEdge(root, x) {
      AddsAt(queue, counts, args, more, counts', x);
      TallyAt(root, queue, counts, expanded, x);
    }
    TallyAgain(root, more, counts', expanded');
  }

  lemma OpensAdds(queue: seq<Term>, counts: map<Term, nat>, more: seq<Term>, counts': map<Term, nat>)
    requires queue != [] && Opens(queue, counts, |OperatorArgs(queue[|queue| - 1])|, more, counts')
    ensures AddsEdges(queue, counts, OperatorArgs(queue[|queue| - 1]), more, counts')
  {
    var args := OperatorArgs(queue[|queue| - 1]);
    assert args[..|args|] == args;
  }

  lemma AddsAt(queue: seq<Term>, counts: map<Term, nat>, args: seq<Term>, more: seq<Term>, counts': map<Term, nat>,
               x: Term)
    requires AddsEdges(queue, counts, args, more, counts')
    ensures Count(counts', x) + multiset(more)[x] == Count(counts, x) + multiset(queue)[x] + multiset(args)[x]
  {
  }

  lemma TallyAt(root: Term, queue: seq<Term>, counts: map<Term, nat>, expanded: seq<Term>, x: Term)
    requires Tally(root, queue, counts, expanded)
    ensures Count(counts, x) + multiset(queue)[x] == Edges(expanded)[x] + RootEdge(root, x)
  {
  }

  lemma TallyAgain(root: Term, queue: seq<Term>, counts: map<Term, nat>, expanded: seq<Term>)
    requires forall x: Term :: Count(counts, x) + multiset(queue)[x] == Edges(expanded)[x] + RootEdge(root, x)
    ensures Tally(root, queue, counts, expanded)
  {
  }

  lemma EdgesPush(ts: seq<Term>, t: Term)
    ensures Edges(ts + [t]) == Edges(ts) + multiset(OperatorArgs(t))
  {
    assert (ts + [t])[..|ts|] == ts;
  }

  /** An expanded top has all its arguments counted. */
  lemma OpenedTop(root: Term, queue: seq<Term>, counts: map<Term, nat>, expanded: seq<Term>)
    requires Visiting(root, queue, counts, expanded) && queue != []
    requires queue[|queue| - 1] in expanded && queue[|queue| - 1] !in counts
    ensures forall a :: a in OperatorArgs(queue[|queue| - 1]) ==> a in counts
  {
    var n := |queue| - 1;
    assert queue[n + 1..] == [];
    assert Waits(queue, n, counts, expanded);
  }

  lemma {:induction false} AllCounted(t: Term, counts: map<Term, nat>, u: Term)
    requires t in counts && u in Skeleton(t) && forall x, a :: x in counts && a in OperatorArgs(x) ==> a in counts
    ensures u in counts
  {
    if u != t {
      var i :| 0 <= i < |OperatorArgs(t)| && u in Skeleton(OperatorArgs(t)[i]);
      assert OperatorArgs(t)[i] in OperatorArgs(t);
      AllCounted(OperatorArgs(t)[i], counts, u);
    }
  }

  lemma {:induction false} EdgeHeld(ts: seq<Term>, x: Term)
    ensures Edges(ts)[x] > 0 ==> exists t :: t in ts && x in OperatorArgs(t)
  {
    if ts != [] {
      EdgeHeld(ts[..|ts| - 1], x);
      if x in OperatorArgs(ts[|ts| - 1]) { assert ts[|ts| - 1] in ts; }
    }
  }

  /** No edge leads to the root. */
  lemma RootFree(root: Term, expanded: seq<Term>)
    requires forall t :: t in expanded ==> t in Skeleton(root)
    ensures Edges(expanded)[root] == 0
  {
    EdgeHeld(expanded, root);
    if Edges(expanded)[root] > 0 {
      var t :| t in expanded && root in OperatorArgs(t);
      var i :| 0 <= i < |OperatorArgs(t)| && OperatorArgs(t)[i] == root;
      SkeletonArg(root, t, i);
      SkeletonNested(root, t);
      assert false;
    }
  }

  lemma Visited(root: Term, counts: map<Term, nat>, expanded: seq<Term>)
    requires Visiting(root, [], counts, expanded) && Tally(root, [], counts, expanded)
    ensures AllEdges(root, expanded) && counts.Keys == Skeleton(root)
    ensures forall t :: t in counts ==> counts[t] == if t == root then 1 else Edges(expanded)[t]
  {
    assert root in counts;
    forall t | t in Skeleton(root) ensures t in counts { AllCounted(root, counts, t); }
    RootFree(root, expanded);
    hide Skeleton, OperatorArgs;
  }

  /** The Boolean operators of a formula, each once. */
  ghost predicate AllEdges(root: Term, expanded: seq<Term>) {
    Distinct(expanded) && forall t :: t in expanded <==> t in Skeleton(root) && BooleanOperator(t)
  }

  lemma OpensNothing(queue: seq<Term>, counts: map<Term, nat>)
    requires queue != []
    ensures Opens(queue, counts, 0, queue, counts)
  {
    hide OperatorArgs, Count;
    assert queue[|queue|..] == [] && OperatorArgs(queue[|queue| - 1])[..0] == [];
  }

  /** Pushes the arguments of the top that are not counted and counts the others. */
  method OpenTop(queue: seq<Term>, counts: map<Term, nat>) returns (more: seq<Term>, counts': map<Term, nat>)
    requires queue != []
    ensures Opens(queue, counts, |OperatorArgs(queue[|queue| - 1])|, more, counts')
  {
    hide *;
    var args := OperatorArgs(queue[|queue| - 1]);
    more, counts' := queue, counts;
    OpensNothing(queue, counts);
    for i := 0 to |args|
      invariant Opens(queue, counts, i, more, counts')
    {
      OpensNext(queue, counts, i, more, counts');
      if args[i] in counts' {
        counts' := counts'[args[i] := counts'[args[i]] + 1];
      } else {
        more := more + [args[i]];
      }
    }
  }

  lemma VisitingTop(root: Term, queue: seq<Term>, counts: map<Term, nat>, expanded: seq<Term>)
    requires Visiting(root, queue, counts, expanded) && queue != []
    ensures queue[|queue| - 1] in Skeleton(root)
  {
    assert queue[|queue| - 1] in queue;
  }

  /** Nothing was pushed: all arguments are counted. */
  lemma NothingPushed(queue: seq<Term>, counts: map<Term, nat>, counts': map<Term, nat>)
    requires queue != [] && Opens(queue, counts, |OperatorArgs(queue[|queue| - 1])|, queue, counts')
    ensures counts'.Keys == counts.Keys && forall a :: a in OperatorArgs(queue[|queue| - 1]) ==> a in counts'
  {
    hide OperatorArgs;
    assert queue[|queue|..] == [];
    forall a | a in OperatorArgs(queue[|queue| - 1]) ensures a in counts' {
      var i :| 0 <= i < |OperatorArgs(queue[|queue| - 1])| && OperatorArgs(queue[|queue| - 1])[i] == a;
    }
  }

  lemma AtomArgs(t: Term)
    ensures !BooleanOperator(t) ==> OperatorArgs(t) == []
  {
  }

  /** How many argument positions hold a term; the root is counted once. */
  method ComputeIncomingEdges(root: Term) returns (counts: map<Term, nat>, ghost expanded: seq<Term>)
    ensures AllEdges(root, expanded) && counts.Keys == Skeleton(root)
    ensures forall t :: t in counts ==> counts[t] == if t == root then 1 else Edges(expanded)[t]
  {
    hide *;
    counts, expanded := map[], [];
    var done: set<Term>, queue := {}, [root];
    VisitingStarts(root);
    while |queue| != 0
      invariant Visiting(root, queue, counts, expanded) && Tally(root, queue, counts, expanded)
      invariant forall t :: t in done <==> t in expanded
      decreases Skeleton(root) - done, |queue|
    {
      var current := queue[|queue| - 1];
      VisitingTop(root, queue, counts, expanded);
      if current !in counts && BooleanOperator(current) && current !in done {
        var more, counts' := OpenTop(queue, counts);
        VisitingOpen(root, queue, counts, expanded, more, counts');
        TallyOpen(root, queue, counts, expanded, more, counts');
        done, expanded := done + {current}, expanded + [current];
        if more != queue {
          queue, counts := more, counts';
          continue;
        }
        NothingPushed(queue, counts, counts');
        counts := counts';
      } else if current !in counts {
        AtomArgs(current);
        if BooleanOperator(current) { OpenedTop(root, queue, counts, expanded); }
      }
      VisitingPop(root, queue, counts, expanded);
      TallyPop(root, queue, counts, expanded);
      counts := counts[current := Count(counts, current) + 1];
      queue := queue[..|queue| - 1];
    }
    Visited(root, counts, expanded);
  }
}
