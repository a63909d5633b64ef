/**
 SubstLoopBreaker: removes from a substitution map one key of every dependency loop, until
 no loop is left. The dependency graph is kept in an arena of nodes that the search marks
 in place.
 */
module LoopBreaker {
  import opened Sequences
  import opened Terms
  import Substitution
  import opened TarjanSearch

  /** The variables of a target: as terms, as node references once processed, or swiped. */
  datatype TargetVars = Swiped | Unprocessed(vars: seq<Term>) | Processed(refs: seq<nat>)

  datatype SubstNode = SubstNode(tr: Term, children: TargetVars, mark: Mark)

  // ---------- variables of a target, each once ----------

  function AppendNew(xs: seq<Term>, ys: seq<Term>): (r: seq<Term>)
    ensures forall v :: v in r <==> v in xs || v in ys
    decreases |ys|
  {
    if ys == [] then xs
    else if ys[0] in xs then AppendNew(xs, ys[1..])
    else AppendNew(xs + [ys[0]], ys[1..])
  }

  function VarSeqFrom(t: Term, i: nat): (r: seq<Term>)
    requires i <= |Args(t)|
    ensures forall v :: v in r <==> exists j :: i <= j < |Args(t)| && v in Vars(Args(t)[j])
    decreases t, |Args(t)| - i
  {
    if i == |Args(t)| then []
    else
      var head := if Args(t)[i].Var? then [Args(t)[i]] else VarSeqFrom(Args(t)[i], 0);
      assert forall v :: v in head <==> v in Vars(Args(t)[i]);
      AppendNew(head, VarSeqFrom(t, i + 1))
  }

  function VarSeq(t: Term): (r: seq<Term>)
    ensures forall v :: v in r <==> v in Vars(t)
  {
    if t.Var? then [t] else VarSeqFrom(t, 0)
  }

  // ---------- the graph in the arena ----------

  function Refs(c: TargetVars): seq<nat> {
    if c.Processed? then c.refs else []
  }

  function GraphOf(nodes: seq<SubstNode>): (g: Graph)
    ensures |g| == |nodes| && forall i :: 0 <= i < |g| ==> g[i] == Refs(nodes[i].children)
  {
    seq(|nodes|, i requires 0 <= i < |nodes| => Refs(nodes[i].children))
  }

  function MarksOf(nodes: seq<SubstNode>): (r: seq<Mark>)
    ensures |r| == |nodes| && forall i :: 0 <= i < |r| ==> r[i] == nodes[i].mark
  {
    seq(|nodes|, i requires 0 <= i < |nodes| => nodes[i].mark)
  }

  /** Two arenas that differ in their marks only. */
  ghost predicate SameNodes(a: seq<SubstNode>, b: seq<SubstNode>) {
    |a| == |b| && forall i :: 0 <= i < |a| ==> a[i].tr == b[i].tr && a[i].children == b[i].children
  }

  lemma SameNodesSelf(a: seq<SubstNode>)
    ensures SameNodes(a, a)
  {
  }

  lemma SameNodesOn(a: seq<SubstNode>, b: seq<SubstNode>, c: seq<SubstNode>)
    requires SameNodes(a, b) && SameNodes(b, c)
    ensures SameNodes(a, c)
  {
  }

  lemma CompleteNothing(marks: seq<Mark>, all: seq<nat>)
    ensures CompleteMarks(marks, all[|all|..]) == marks
  {
    assert all[|all|..] == [];
  }

  ghost function Popped(s: Search): Search
    requires |s.tarjan| > 0 && Last(s.tarjan) < |s.marks|
  {
    var w := Last(s.tarjan);
    s.(tarjan := s.tarjan[..|s.tarjan| - 1], marks := s.marks[w := s.marks[w].(status := Complete)])
  }

  /** While a component is popped: what is off the stack is complete and listed, newest first. */
  ghost predicate Popping(scc: seq<nat>, p: nat, n: nat, start: Search, now: Search) {
    var k := |now.tarjan|;
    && PopAt(start, p, n) && p <= k <= |start.tarjan|
    && now == Search(CompleteMarks(start.marks, start.tarjan[k..]), start.control, start.tarjan[..k], start.index)
    && NewestFirst(scc, start.tarjan, k)
  }

  ghost predicate PopAt(s: Search, p: nat, n: nat) {
    && p < |s.tarjan| && s.tarjan[p] == n && (forall i :: p < i < |s.tarjan| ==> s.tarjan[i] != n)
    && (forall i :: 0 <= i < |s.tarjan| ==> s.tarjan[i] < |s.marks|)
  }

  ghost predicate NewestFirst(scc: seq<nat>, all: seq<nat>, k: nat) {
    k + |scc| == |all| && forall i :: 0 <= i < |scc| ==> scc[i] == all[|all| - 1 - i]
  }

  lemma PoppingStarts(start: Search, p: nat, n: nat)
    requires PopAt(start, p, n)
    ensures Popping([], p, n, start, start) && |start.tarjan| > p
  {
    CompleteNothing(start.marks, start.tarjan);
    assert start.tarjan[..|start.tarjan|] == start.tarjan;
  }

  lemma PoppingParts(scc: seq<nat>, p: nat, n: nat, start: Search, now: Search)
    requires Popping(scc, p, n, start, now) && |now.tarjan| > p
    ensures |now.tarjan| > 0 && Last(now.tarjan) < |now.marks|
  {
  }

  lemma PoppingStep(scc: seq<nat>, p: nat, n: nat, start: Search, now: Search)
    requires Popping(scc, p, n, start, now) && |now.tarjan| > p
    requires |now.tarjan| > 0 && Last(now.tarjan) < |now.marks|
    ensures var (w, next) := (Last(now.tarjan), Popped(now));
            Popping(scc + [w], p, n, start, next) && |next.tarjan| + 1 == |now.tarjan|
              && (w == n <==> |next.tarjan| == p)
  {
    var k := |now.tarjan| - 1;
    assert start.tarjan[..k + 1][..k] == start.tarjan[..k];
    hide CompleteMarks, NewestFirst;
    CompleteOneMore(start.marks, start.tarjan, k);
    NewestPush(scc, start.tarjan, k);
  }

  lemma NewestPush(scc: seq<nat>, all: seq<nat>, k: nat)
    requires k < |all| && NewestFirst(scc, all, k + 1)
    ensures NewestFirst(scc + [all[k]], all, k)
  {
  }

  lemma PoppingDone(scc: seq<nat>, p: nat, n: nat, start: Search, now: Search)
    requires Popping(scc, p, n, start, now) && |now.tarjan| == p
    ensures p <= |start.tarjan| && now == CompleteFrom(start, p) && |scc| == |start.tarjan| - p
    ensures forall i :: 0 <= i < |scc| ==> scc[i] == start.tarjan[|start.tarjan| - 1 - i]
  {
  }

  /** Completing one more node of the Tarjan stack, from the top down. */
  lemma CompleteOneMore(marks: seq<Mark>, all: seq<nat>, k: nat)
    requires k < |all| && all[k] < |marks|
    ensures var ms := CompleteMarks(marks, all[k + 1..]);
            ms[all[k] := ms[all[k]].(status := Complete)] == CompleteMarks(marks, all[k..])
  {
    assert all[k..] == [all[k]] + all[k + 1..];
  }

  lemma SameNodesGraph(a: seq<SubstNode>, b: seq<SubstNode>)
    requires SameNodes(a, b)
    ensures GraphOf(a) == GraphOf(b)
  {
  }

  class SubstNodeAllocator {
    var nodes: seq<SubstNode>
    var sourceToRef: map<Term, nat>

    constructor ()
      ensures nodes == [] && sourceToRef == map[]
    {
      nodes := [];
      sourceToRef := map[];
    }

    /** The node of a source term, created over the variables of its target if it is new. */
    method Alloc(tr: Term, target: Option<Term>) returns (sid: nat)
      modifies this
      ensures old(tr in sourceToRef) ==>
        nodes == old(nodes) && sourceToRef == old(sourceToRef) && sid == sourceToRef[tr]
      ensures old(tr !in sourceToRef) ==>
                && sid == |old(nodes)| && sourceToRef == old(sourceToRef)[tr := sid]
                && nodes == old(nodes) + [SubstNode(tr,
                    Unprocessed(if target.Some? then VarSeq(target.value) else []), Fresh)]
    {
      if tr in sourceToRef { return sourceToRef[tr]; }
      sid := |nodes|;
      var vars := if target.Some? then VarSeq(target.value) else [];
      nodes := nodes + [SubstNode(tr, Unprocessed(vars), Fresh)];
      sourceToRef := sourceToRef[tr := sid];
    }

    method SetChildren(n: nat, c: TargetVars)
      requires n < |nodes|
      modifies this`nodes
      ensures nodes == old(nodes)[n := old(nodes)[n].(children := c)]
    {
      nodes := nodes[n := nodes[n].(children := c)];
    }

    method SetMark(n: nat, m: Mark)
      requires n < |nodes|
      modifies this`nodes
      ensures nodes == old(nodes)[n := old(nodes)[n].(mark := m)]
      ensures SameNodes(nodes, old(nodes)) && MarksOf(nodes) == MarksOf(old(nodes))[n := m]
    {
      nodes := nodes[n := nodes[n].(mark := m)];
    }

    method ClearTarjan()
      modifies this`nodes
      ensures SameNodes(nodes, old(nodes))
      ensures forall i :: 0 <= i < |nodes| ==> nodes[i].mark == Fresh
    {
      for i := 0 to |nodes|
        invariant SameNodes(nodes, old(nodes))
        invariant forall j :: 0 <= j < i ==> nodes[j].mark == Fresh
      {
        nodes := nodes[i := nodes[i].(mark := Fresh)];
      }
    }
  }

  // ---------- the search ----------

  /** The child edges the search has not moved past yet. */
  ghost function Pending(g: Graph, s: Search): set<(nat, nat)> {
    set n: nat, k: nat | n < |g| && Proc(s, n) <= k < |g[n]| :: (n, k)
  }

  lemma AdvancePending(g: Graph, s: Search, t: Search, c: nat)
    requires AtChild(g, s, c)
    requires forall n: nat :: Proc(t, n) == if n == Last(s.control) then Proc(s, n) + 1 else Proc(s, n)
    ensures Pending(g, t) < Pending(g, s)
  {
    var n := Last(s.control);
    assert (n, Proc(s, n)) in Pending(g, s) && (n, Proc(s, n)) !in Pending(g, t);
  }

  /** A reported loop: the first and the last node have children and reach each other. */
  ghost predicate IsLoop(g: Graph, loop: seq<nat>) {
    && |loop| > 1 && Last(loop) < |g| && OnCycle(g, Last(loop)) && |g[Last(loop)]| > 0
    && loop[0] < |g| && loop[0] != Last(loop) && |g[loop[0]]| > 0
    && Reaches(g, loop[0], Last(loop)) && Reaches(g, Last(loop), loop[0])
  }

  /** No loop begins where one ends. */
  ghost predicate Apart(loops: seq<seq<nat>>) {
    forall i, j :: 0 <= i < |loops| && 0 <= j < |loops| && loops[i] != [] && loops[j] != [] ==>
      Last(loops[i]) != loops[j][0]
  }

  /** The ends of the loops were completed after the first and before the second point in time. */
  ghost predicate Between(loops: seq<seq<nat>>, done0: seq<nat>, done: seq<nat>) {
    forall i :: 0 <= i < |loops| ==>
      loops[i] != [] && loops[i][0] in done && Last(loops[i]) in done && loops[i][0] !in done0
        && Last(loops[i]) !in done0
  }

  lemma LaterLoops(loops: seq<seq<nat>>, found: seq<seq<nat>>, done0: seq<nat>, done1: seq<nat>, done2: seq<nat>)
    requires done0 <= done1 <= done2 && Apart(loops) && Apart(found)
    requires Between(loops, done0, done1) && Between(found, done1, done2)
    ensures Apart(loops + found) && Between(loops + found, done0, done2)
  {
    assert forall x :: x in done0 ==> x in done1;
    assert forall x :: x in done1 ==> x in done2;
    forall i | 0 <= i < |loops + found|
      ensures (loops + found)[i] == if i < |loops| then loops[i] else found[i - |loops|] {}
  }

  ghost predicate AreLoops(g: Graph, loops: seq<seq<nat>>) {
    forall i :: 0 <= i < |loops| ==> IsLoop(g, loops[i])
  }

  /** Where the search goes from child c of the top of the control stack, by the child's status. */
  ghost function StepFrom(s: Search, c: nat): Search
    requires s.control != [] && Last(s.control) < |s.marks| && c < |s.marks|
  {
    match Status(s, c)
    case Unseen => TarjanSearch.AddNode(Advance(s), c)
    case InStack => TarjanSearch.UpdateLowLink(Advance(s), Last(s.control), Index(s, c))
    case Complete => Advance(s)
  }

  lemma StepKeeps(g: Graph, s: Search, c: nat, done: seq<nat>, clean: bool)
    requires Inv(g, s, done, clean) && AtChild(g, s, c)
    ensures c < |g| && c < |s.marks| && Last(s.control) < |s.marks|
    ensures Inv(g, StepFrom(s, c), done, clean) && Pending(g, StepFrom(s, c)) < Pending(g, s)
    ensures s.tarjan <= StepFrom(s, c).tarjan
    ensures Status(Advance(s), c) == Status(s, c) && Index(Advance(s), c) == Index(s, c)
  {
    var n := Last(s.control);
    assert c < |g| && c != n;
    AdvanceEffects(s);
    assert SameMark(s, Advance(s), c);
    StepPending(g, s, c);
    hide Stacks, Statuses, LowLinks, Connected, ChildrenHandled, ChildrenFirst;
    match Status(s, c)
    case Unseen => VisitKeeps(g, s, c, done, clean);
    case InStack => BackEdgeKeeps(g, s, c, done, clean);
    case Complete => SkipKeeps(g, s, c, done, clean);
  }

  lemma StepTight(g: Graph, s: Search, c: nat, done: seq<nat>, clean: bool)
    requires Inv(g, s, done, clean) && Tight(g, s, done) && AtChild(g, s, c)
    requires c < |g| && c < |s.marks| && Last(s.control) < |s.marks|
    ensures Tight(g, StepFrom(s, c), done)
  {
    AdvanceEffects(s);
    hide Stacks, Statuses, LowLinks, Connected, Tight, ChildrenHandled, ChildrenFirst;
    match Status(s, c)
    case Unseen => VisitTight(g, s, c, done);
    case InStack => BackEdgeTight(g, s, c, done);
    case Complete => SkipTight(g, s, c, done);
  }

  lemma StepPending(g: Graph, s: Search, c: nat)
    requires AtChild(g, s, c) && c < |g| && c != Last(s.control)
    ensures Pending(g, StepFrom(s, c)) < Pending(g, s)
    ensures s.tarjan <= StepFrom(s, c).tarjan
  {
    AdvanceEffects(s);
    VisitEffects(s, c);
    LowerEffects(Advance(s), Last(s.control), Index(s, c));
    AdvancePending(g, s, StepFrom(s, c), c);
  }

  /** What popping the top of the control stack leads to; p is the position of the top. */
  ghost function FinishFrom(s: Search, p: nat): Search
    requires s.control != [] && p < |s.tarjan| && forall i :: 0 <= i < |s.control| ==> s.control[i] < |s.marks|
  {
    if Low(s, Last(s.control)) == Index(s, Last(s.control)) then CompleteFrom(PopControl(s), p) else PopControl(s)
  }

  lemma InvParts(g: Graph, s: Search, done: seq<nat>, clean: bool)
    requires Inv(g, s, done, clean)
    ensures ValidGraph(g) && Stacks(g, s) && Statuses(g, s, done) && LowLinks(g, s) && Connected(g, s)
  {
  }

  /** Facts about the stacks at the head of the search loop. */
  lemma SearchFacts(g: Graph, s: Search, done: seq<nat>, clean: bool)
    requires Inv(g, s, done, clean)
    ensures |s.marks| == |g| && (s.control == [] ==> s.tarjan == [])
    ensures forall i :: 0 <= i < |s.control| ==> s.control[i] < |s.marks|
    ensures forall i :: 0 <= i < |s.tarjan| ==> s.tarjan[i] < |s.marks|
    ensures s.control != [] ==> Last(s.control) in s.tarjan && Proc(s, Last(s.control)) <= |g[Last(s.control)]|
    ensures forall i, j :: 0 <= i < j < |s.tarjan| ==> s.tarjan[i] != s.tarjan[j]
  {
    ControlInRange(g, s);
    forall i | 0 <= i < |s.tarjan| ensures s.tarjan[i] < |s.marks| {
      assert s.tarjan[i] in s.tarjan;
    }
    if s.control != [] { assert Last(s.control) in s.control; }
    forall i, j | 0 <= i < j < |s.tarjan| ensures s.tarjan[i] != s.tarjan[j] {
      assert Index(s, s.tarjan[i]) < Index(s, s.tarjan[j]);
    }
  }

  lemma FinishFromKeeps(g: Graph, s: Search, p: nat, done: seq<nat>, clean: bool)
    requires Inv(g, s, done, clean) && AtEnd(g, s) && p < |s.tarjan| && s.tarjan[p] == Last(s.control)
    ensures forall i :: 0 <= i < |s.control| ==> s.control[i] < |s.marks|
    ensures var root := Low(s, Last(s.control)) == Index(s, Last(s.control));
            && Inv(g, FinishFrom(s, p), if root then done + s.tarjan[p..] else done,
                   clean && (root ==> |s.tarjan[p..]| == 1))
            && (root && |s.tarjan[p..]| > 1 ==> IsLoop(g, s.tarjan[p..]))
  {
    hide Stacks, Statuses, Connected, ChildrenHandled, ChildrenFirst, PopControl, CompleteFrom, IsLoop, LowLinks;
    ControlInRange(g, s);
    var n := Last(s.control);
    if Low(s, n) == Index(s, n) {
      RootPop(g, s, p);
      ComponentKeeps(g, s, p, done, clean);
      if |s.tarjan[p..]| > 1 { LoopFound(g, s, p, done); }
    } else {
      LowAtMostIndex(g, s, n);
      FinishKeeps(g, s, done, clean);
    }
  }

  /** The loops are whole components. */
  ghost predicate AreComponents(g: Graph, loops: seq<seq<nat>>) {
    forall i :: 0 <= i < |loops| ==> IsComponent(g, loops[i])
  }

  ghost predicate InSome(loops: seq<seq<nat>>, n: nat) {
    exists i :: 0 <= i < |loops| && n in loops[i]
  }

  /** Every node on a cycle that was completed after the first and before the second point in time is in a loop. */
  ghost predicate Grouped(g: Graph, loops: seq<seq<nat>>, done0: seq<nat>, done: seq<nat>) {
    AreComponents(g, loops) && forall n :: n in done && n !in done0 && OnCycle(g, n) ==> InSome(loops, n)
  }

  lemma NothingGrouped(g: Graph, done: seq<nat>)
    ensures Grouped(g, [], done, done) && AreLoops(g, [])
  {
  }

  lemma LaterGrouped(g: Graph, loops: seq<seq<nat>>, found: seq<seq<nat>>, done0: seq<nat>, done1: seq<nat>,
                     done2: seq<nat>)
    requires Grouped(g, loops, done0, done1) && Grouped(g, found, done1, done2)
    ensures Grouped(g, loops + found, done0, done2)
    ensures AreLoops(g, loops) && AreLoops(g, found) ==> AreLoops(g, loops + found)
  {
    hide OnCycle, IsComponent, IsLoop;
    var all := loops + found;
    forall i | 0 <= i < |all| ensures all[i] == if i < |loops| then loops[i] else found[i - |loops|] {}
    forall n | n in done2 && n !in done0 && OnCycle(g, n) ensures InSome(all, n) {
      if n in done1 {
        var i :| 0 <= i < |loops| && n in loops[i];
        assert n in all[i];
      } else {
        var i :| 0 <= i < |found| && n in found[i];
        assert n in all[|loops| + i];
      }
    }
  }

  /** Popping a component reports it exactly if it is on a cycle. */
  lemma FinishFromTight(g: Graph, s: Search, p: nat, done: seq<nat>, clean: bool)
    requires Inv(g, s, done, clean) && Tight(g, s, done) && Once(s, done) && AtEnd(g, s)
    requires p < |s.tarjan| && s.tarjan[p] == Last(s.control)
    requires forall i :: 0 <= i < |s.control| ==> s.control[i] < |s.marks|
    ensures var root := Low(s, Last(s.control)) == Index(s, Last(s.control));
            var done' := if root then done + s.tarjan[p..] else done;
            && Tight(g, FinishFrom(s, p), done')
            && Grouped(g, if root && |s.tarjan[p..]| > 1 then [s.tarjan[p..]] else [], done, done')
  {
    hide Stacks, Statuses, Connected, Tight, Once, PopControl, CompleteFrom, LowLinks, Grouped;
    var n := Last(s.control);
    if Low(s, n) == Index(s, n) {
      RootPop(g, s, p);
      ComponentTight(g, s, p, done);
      OncePopped(g, s, p, done);
      if n !in done || |s.tarjan[p..]| > 1 { PoppedOne(s.tarjan[p..], n, done); PoppedComponent(g, s, p, done); }
      PoppedGrouped(g, s.tarjan[p..], n, done);
    } else {
      assert n in s.control;
      LowAtMostIndex(g, s, n);
      FinishTight(g, s, done);
      NothingGrouped(g, done);
    }
  }

  lemma PoppedOne(xs: seq<nat>, n: nat, done: seq<nat>)
    requires xs != [] && xs[0] == n && (n !in done || |xs| > 1)
    requires |xs| > 1 ==> forall x :: x in xs ==> x !in done
    ensures forall x :: x in xs ==> x !in done
  {
  }

  lemma PoppedGrouped(g: Graph, xs: seq<nat>, n: nat, done: seq<nat>)
    requires xs != [] && xs[0] == n && (n !in done || |xs| > 1 ==> IsComponent(g, xs))
    ensures Grouped(g, if |xs| > 1 then [xs] else [], done, done + xs)
  {
    hide OnCycle, IsComponent;
    if |xs| > 1 {
      forall x | x in xs ensures InSome([xs], x) { assert x in [xs][0]; }
    } else {
      assert xs == [n];
      if n !in done { AloneNoCycle(g, n); }
    }
  }

  lemma LowAtMostIndex(g: Graph, s: Search, n: nat)
    requires Stacks(g, s) && LowLinks(g, s) && n in s.control
    ensures Low(s, n) <= Index(s, n)
  {
    assert n in s.tarjan;
  }

  lemma LoopFound(g: Graph, s: Search, p: nat, done: seq<nat>)
    requires ValidGraph(g) && Stacks(g, s) && LowLinks(g, s) && Connected(g, s) && RootAt(g, s, p)
    requires |s.tarjan[p..]| > 1
    ensures IsLoop(g, s.tarjan[p..])
  {
    hide OnCycle;
    ComponentIsLoop(g, s, p, done);
    assert Last(s.tarjan[p..]) == Last(s.tarjan);
  }

  lemma FinishEffects(g: Graph, s: Search, p: nat)
    requires s.control != [] && p < |s.tarjan| && forall i :: 0 <= i < |s.control| ==> s.control[i] < |s.marks|
    ensures var t := FinishFrom(s, p);
            && |t.control| + 1 == |s.control| && |t.marks| == |s.marks|
            && (forall n: nat :: Proc(t, n) == Proc(s, n))
            && t.tarjan == (if Low(s, Last(s.control)) == Index(s, Last(s.control)) then s.tarjan[..p] else s.tarjan)
            && Pending(g, t) == Pending(g, s)
    ensures forall n :: n in s.tarjan ==> n in s.tarjan[..p] || n in s.tarjan[p..]
  {
    assert s.tarjan == s.tarjan[..p] + s.tarjan[p..];
  }

  lemma NoLoops(done0: seq<nat>, done: seq<nat>)
    ensures Apart([]) && Between([], done0, done)
  {
  }

  lemma StepOnce(g: Graph, s: Search, c: nat, done: seq<nat>, clean: bool)
    requires Inv(g, s, done, clean) && Once(s, done) && AtChild(g, s, c) && c < |s.marks| && Last(s.control) < |s.marks|
    ensures Once(StepFrom(s, c), done)
  {
    NoneDone(g, s, c, done);
    AdvanceEffects(s);
    if Status(s, c) == Unseen { assert c < |g| && c !in done; }
  }

  lemma FinishOnce(g: Graph, s: Search, p: nat, done: seq<nat>, clean: bool)
    requires Inv(g, s, done, clean) && Once(s, done) && AtEnd(g, s) && p < |s.tarjan| && s.tarjan[p] == Last(s.control)
    requires forall i :: 0 <= i < |s.control| ==> s.control[i] < |s.marks|
    ensures var root := Low(s, Last(s.control)) == Index(s, Last(s.control));
            var done' := if root then done + s.tarjan[p..] else done;
            && Once(FinishFrom(s, p), done')
            && (root && |s.tarjan[p..]| > 1 ==> Apart([s.tarjan[p..]]) && Between([s.tarjan[p..]], done, done'))
  {
    OncePopped(g, s, p, done);
    FinishEffects(g, s, p);
    hide *;
    var t := FinishFrom(s, p);
    if Low(s, Last(s.control)) == Index(s, Last(s.control)) {
      OncePrefix(t, s.tarjan[..p], done + s.tarjan[p..]);
      if |s.tarjan[p..]| > 1 { OneLoop(s.tarjan[p..], done); }
    } else {
      OnceSame(s, t, done);
    }
  }

  lemma OncePrefix(t: Search, rest: seq<nat>, done: seq<nat>)
    requires t.tarjan == rest && forall n :: n in rest ==> n !in done
    ensures Once(t, done)
  {
  }

  lemma OnceSame(s: Search, t: Search, done: seq<nat>)
    requires t.tarjan == s.tarjan && Once(s, done)
    ensures Once(t, done)
  {
  }

  lemma OneLoop(l: seq<nat>, done: seq<nat>)
    requires |l| > 1 && l[0] != Last(l) && forall n :: n in l ==> n !in done
    ensures Apart([l]) && Between([l], done, done + l)
  {
    assert l[0] in l && Last(l) in l;
  }

  lemma NothingTight(g: Graph, s: Search)
    requires s.tarjan == []
    ensures Tight(g, s, [])
  {
  }

  /** Every node on a cycle that a start node reaches is in a loop. */
  ghost predicate AllFound(g: Graph, starts: seq<nat>, loops: seq<seq<nat>>) {
    forall s, n: nat :: s in starts && Reaches(g, s, n) && OnCycle(g, n) ==> InSome(loops, n)
  }

  lemma GroupedAll(g: Graph, t: Search, loops: seq<seq<nat>>, order: seq<nat>, starts: seq<nat>)
    requires Tight(g, t, order) && Grouped(g, loops, [], order) && forall s :: s in starts ==> s in order
    ensures AreComponents(g, loops) && AllFound(g, starts, loops)
  {
    hide OnCycle, Reaches;
    forall s, n: nat | s in starts && Reaches(g, s, n) && OnCycle(g, n) ensures InSome(loops, n) {
      ClosedReaches(g, order, s, n);
    }
  }

  class TarjanAlgorithm {
    const sna: SubstNodeAllocator
    var controlStack: seq<nat>
    var tarjanStack: seq<nat>
    var index: nat

    constructor (sna: SubstNodeAllocator)
      ensures this.sna == sna && controlStack == [] && tarjanStack == [] && index == 0
    {
      this.sna := sna;
      controlStack, tarjanStack, index := [], [], 0;
    }

    ghost function State(): Search
      reads this, sna
    {
      Search(MarksOf(sna.nodes), controlStack, tarjanStack, index)
    }

    method AddNode(n: nat)
      requires n < |sna.nodes|
      modifies this, sna`nodes
      ensures SameNodes(sna.nodes, old(sna.nodes))
      ensures State() == TarjanSearch.AddNode(old(State()), n)
    {
      var m := sna.nodes[n].mark;
      sna.SetMark(n, Mark(m.procChild, index, index, InStack));
      index := index + 1;
      controlStack := controlStack + [n];
      tarjanStack := tarjanStack + [n];
    }

    /** The next child of the top of the control stack, if one is left. */
    method GetNextChild() returns (c: Option<nat>)
      requires controlStack != [] && Last(controlStack) < |sna.nodes|
      modifies sna`nodes
      ensures SameNodes(sna.nodes, old(sna.nodes))
      ensures var n, g := Last(controlStack), GraphOf(old(sna.nodes));
              var p := Proc(old(State()), n);
              if p < |g[n]| then c == Some(g[n][p]) && State() == Advance(old(State()))
              else c == None && State() == old(State())
    {
      var n := Last(controlStack);
      var m := sna.nodes[n].mark;
      var refs := Refs(sna.nodes[n].children);
      if m.procChild < |refs| {
        sna.SetMark(n, m.(procChild := m.procChild + 1));
        return Some(refs[m.procChild]);
      }
      return None;
    }

    method UpdateLowLink(n: nat, i: int)
      requires n < |sna.nodes|
      modifies sna`nodes
      ensures SameNodes(sna.nodes, old(sna.nodes))
      ensures State() == TarjanSearch.UpdateLowLink(old(State()), n, i)
    {
      var m := sna.nodes[n].mark;
      sna.SetMark(n, m.(lowlink := if m.lowlink < i then m.lowlink else i));
    }

    /** Pops the component down to n off the Tarjan stack; its nodes come out newest first. */
    method PopScc(n: nat, ghost p: nat) returns (scc: seq<nat>)
      requires p < |tarjanStack| && tarjanStack[p] == n
      requires forall i :: p < i < |tarjanStack| ==> tarjanStack[i] != n
      requires forall i :: 0 <= i < |tarjanStack| ==> tarjanStack[i] < |sna.nodes|
      modifies this`tarjanStack, sna`nodes
      ensures SameNodes(sna.nodes, old(sna.nodes))
      ensures State() == CompleteFrom(old(State()), p)
      ensures |scc| == |old(tarjanStack)| - p
      ensures forall i :: 0 <= i < |scc| ==> scc[i] == old(tarjanStack)[|old(tarjanStack)| - 1 - i]
    {
      scc := [];
      ghost var start := State();
      assert start.tarjan == tarjanStack && |start.marks| == |sna.nodes|;
      PoppingStarts(start, p, n);
      hide *;
      SameNodesSelf(sna.nodes);
      while true
        invariant SameNodes(sna.nodes, old(sna.nodes))
        invariant Popping(scc, p, n, start, State()) && |State().tarjan| > p
        decreases |State().tarjan|
      {
        PoppingParts(scc, p, n, start, State());
        ghost var now, was := State(), sna.nodes;
        var w := PopNode();
        SameNodesOn(sna.nodes, was, old(sna.nodes));
        PoppingStep(scc, p, n, start, now);
        scc := scc + [w];
        if w == n { break; }
      }
      PoppingDone(scc, p, n, start, State());
    }

    method PopNode() returns (w: nat)
      requires |State().tarjan| > 0 && Last(State().tarjan) < |State().marks|
      modifies this`tarjanStack, sna`nodes
      ensures w == Last(old(State()).tarjan) && State() == Popped(old(State())) && SameNodes(sna.nodes, old(sna.nodes))
    {
      w := tarjanStack[|tarjanStack| - 1];
      tarjanStack := tarjanStack[..|tarjanStack| - 1];
      sna.SetMark(w, sna.nodes[w].mark.(status := Complete));
    }

    /** Moves to child c of the top of the control stack, which getNextChild just returned. */
    method Step(c: nat, ghost s: Search)
      requires s.control != [] && Last(s.control) < |s.marks| && c < |s.marks|
      requires State() == Advance(s)
      requires Status(Advance(s), c) == Status(s, c) && Index(Advance(s), c) == Index(s, c)
      modifies this, sna`nodes
      ensures SameNodes(sna.nodes, old(sna.nodes))
      ensures State() == StepFrom(s, c)
    {
      var n := Last(controlStack);
      if sna.nodes[c].mark.status == Unseen {
        AddNode(c);
      } else if sna.nodes[c].mark.status == InStack {
        UpdateLowLink(n, sna.nodes[c].mark.index);
      }
    }

    /** Takes the finished top off the control stack; completes its component if it is the root. */
    method Finish(ghost p: nat) returns (loops: seq<seq<nat>>)
      requires controlStack != [] && p < |tarjanStack| && tarjanStack[p] == Last(controlStack)
      requires forall i :: 0 <= i < |controlStack| ==> controlStack[i] < |sna.nodes|
      requires forall i :: 0 <= i < |tarjanStack| ==> tarjanStack[i] < |sna.nodes|
      requires forall i :: p < i < |tarjanStack| ==> tarjanStack[i] != Last(controlStack)
      modifies this, sna`nodes
      ensures SameNodes(sna.nodes, old(sna.nodes))
      ensures State() == FinishFrom(old(State()), p)
      ensures loops == if Low(old(State()), Last(old(controlStack))) == Index(old(State()), Last(old(controlStack)))
                            && |old(tarjanStack)[p..]| > 1
                       then [old(tarjanStack)[p..]] else []
    {
      hide CompleteFrom;
      var n := Last(controlStack);
      var low, idx := sna.nodes[n].mark.lowlink, sna.nodes[n].mark.index;
      controlStack := controlStack[..|controlStack| - 1];
      if |controlStack| > 0 {
        UpdateLowLink(Last(controlStack), low);
      }
      loops := [];
      if low == idx {
        loops := PopLoop(n, p);
      }
    }

    /** Pops a component; one of several nodes is a loop, listed oldest first. */
    method PopLoop(n: nat, ghost p: nat) returns (loops: seq<seq<nat>>)
      requires p < |tarjanStack| && tarjanStack[p] == n
      requires forall i :: p < i < |tarjanStack| ==> tarjanStack[i] != n
      requires forall i :: 0 <= i < |tarjanStack| ==> tarjanStack[i] < |sna.nodes|
      modifies this`tarjanStack, sna`nodes
      ensures SameNodes(sna.nodes, old(sna.nodes))
      ensures State() == CompleteFrom(old(State()), p)
      ensures loops == if |old(tarjanStack)[p..]| > 1 then [old(tarjanStack)[p..]] else []
    {
      hide *;
      loops := [];
      var scc := PopScc(n, p);
      if |scc| > 1 {
        var loop := ReverseOf(scc);
        assert loop == old(tarjanStack)[p..];
        loops := [loop];
      }
    }

    /** One round of the search loop: to the next child, or back from a finished node. */
    method Round(ghost g: Graph, ghost done0: seq<nat>, ghost clean: bool)
      returns (found: seq<seq<nat>>, ghost done: seq<nat>)
      requires g == GraphOf(sna.nodes) && Inv(g, State(), done0, clean) && Once(State(), done0) && controlStack != []
      requires Tight(g, State(), done0)
      modifies this, sna`nodes
      ensures SameNodes(sna.nodes, old(sna.nodes))
      ensures Inv(g, State(), done, clean && found == []) && AreLoops(g, found)
      ensures Once(State(), done) && Apart(found) && Between(found, done0, done)
      ensures Tight(g, State(), done) && Grouped(g, found, done0, done)
      ensures done0 <= done && forall n :: n in old(tarjanStack) ==> n in tarjanStack || n in done
      ensures Pending(g, State()) < Pending(g, old(State()))
           || (Pending(g, State()) == Pending(g, old(State())) && |controlStack| < |old(controlStack)|)
    {
      hide Inv, IsLoop, StepFrom, FinishFrom, Pending, Index, Low, Proc, Status, Advance, Once, Apart, Between;
      hide Tight, Grouped;
      ghost var s := State();
      SearchFacts(g, s, done0, clean);
      NoLoops(done0, done0);
      NothingGrouped(g, done0);
      found, done := [], done0;
      var c := GetNextChild();
      if c.Some? {
        StepKeeps(g, s, c.value, done, clean);
        StepOnce(g, s, c.value, done, clean);
        StepTight(g, s, c.value, done, clean);
        Step(c.value, s);
      } else {
        ghost var p :| 0 <= p < |tarjanStack| && tarjanStack[p] == Last(controlStack);
        FinishFromKeeps(g, s, p, done, clean);
        FinishEffects(g, s, p);
        FinishOnce(g, s, p, done, clean);
        FinishFromTight(g, s, p, done, clean);
        found := Finish(p);
        done := if Low(s, Last(s.control)) == Index(s, Last(s.control)) then done + s.tarjan[p..] else done;
        NoLoops(done0, done);
      }
    }

    /**
     Searches from one node. Every node of the stack is completed; the invariant is clean
     while no loop was found.
     */
    method GetLoops(startNode: nat, ghost done0: seq<nat>, ghost clean0: bool)
      returns (loops: seq<seq<nat>>, ghost done: seq<nat>)
      requires Inv(GraphOf(sna.nodes), State(), done0, clean0) && Tight(GraphOf(sna.nodes), State(), done0)
      requires controlStack == [] && tarjanStack == [] && startNode < |sna.nodes|
      modifies this, sna`nodes
      ensures SameNodes(sna.nodes, old(sna.nodes))
      ensures controlStack == [] && tarjanStack == []
      ensures Inv(GraphOf(sna.nodes), State(), done, clean0 && loops == [])
      ensures done0 <= done && startNode in done
      ensures Tight(GraphOf(sna.nodes), State(), done) && Grouped(GraphOf(sna.nodes), loops, done0, done)
      ensures AreLoops(GraphOf(sna.nodes), loops) && Apart(loops) && Between(loops, done0, done)
    {
      hide Inv, IsLoop, Apart, Between, Tight, Grouped, Pending, AreLoops;
      ghost var g := GraphOf(sna.nodes);
      NoLoops(done0, done0);
      NothingGrouped(g, done0);
      InvParts(g, State(), done0, clean0);
      StartTight(g, State(), startNode, done0);
      StartKeeps(g, State(), startNode, done0, clean0);
      AddNode(startNode);
      SameNodesGraph(sna.nodes, old(sna.nodes));
      assert tarjanStack == [startNode];
      loops, done := [], done0;
      while |controlStack| > 0
        invariant SameNodes(sna.nodes, old(sna.nodes)) && GraphOf(sna.nodes) == g
        invariant Inv(g, State(), done, clean0 && loops == []) && AreLoops(g, loops)
        invariant Once(State(), done) && Apart(loops) && Between(loops, done0, done)
        invariant Tight(g, State(), done) && Grouped(g, loops, done0, done)
        invariant done0 <= done && (startNode in done || startNode in tarjanStack)
        decreases Pending(g, State()), |controlStack|
      {
        var found;
        ghost var before := done;
        found, done := Round(g, done, clean0 && loops == []);
        LaterLoops(loops, found, done0, before, done);
        LaterGrouped(g, loops, found, done0, before, done);
        loops := loops + found;
        SameNodesGraph(sna.nodes, old(sna.nodes));
      }
      SearchFacts(g, State(), done, clean0 && loops == []);
    }
  }

  method ReverseOf(s: seq<nat>) returns (r: seq<nat>)
    ensures |r| == |s| && forall i :: 0 <= i < |r| ==> r[i] == s[|s| - 1 - i]
  {
    r := [];
    for i := |s| downto 0
      invariant |r| == |s| - i
      invariant forall j :: 0 <= j < |r| ==> r[j] == s[|s| - 1 - j]
    {
      r := r + [s[i]];
    }
  }

  // ---------- dependency loops of a substitution map ----------

  ghost predicate DependsClosed(m: map<Term, Term>, xs: set<Term>) {
    forall k, v :: k in xs && k in m && v in Vars(m[k]) ==> v in xs
  }

  /** Term b occurs in the target of a, or in the target of a key that occurs there, and so on. */
  ghost predicate Depends(m: map<Term, Term>, a: Term, b: Term) {
    forall xs: set<Term> :: a in xs && DependsClosed(m, xs) ==> b in xs
  }

  /** Key k depends on another term that depends on k. */
  ghost predicate InLoop(m: map<Term, Term>, k: Term) {
    exists j :: j != k && Depends(m, k, j) && Depends(m, j, k)
  }

  /** Two terms that depend on each other. */
  ghost predicate Mutual(m: map<Term, Term>, a: Term, b: Term) {
    a != b && Depends(m, a, b) && Depends(m, b, a)
  }

  /** The key is on a loop with one of the keys that stay. */
  ghost predicate SharesLoop(m: map<Term, Term>, r: map<Term, Term>, k: Term) {
    exists j :: j in r && Mutual(m, k, j)
  }

  lemma MutualChain(m: map<Term, Term>, a: Term, b: Term, c: Term)
    requires Mutual(m, a, b) && Mutual(m, b, c) && a != c
    ensures Mutual(m, a, c)
  {
  }

  /** The substitutions that are switched on. */
  datatype Assignments = Assignments(keys: seq<Term>, m: map<Term, PtAsgn>)

  function Enabled(a: Assignments): map<Term, Term> {
    map k | k in a.m && a.m[k].sgn :: a.m[k].tr
  }

  ghost predicate ValidAssignments(a: Assignments) {
    && Sequences.Distinct(a.keys) && (forall k :: k in a.keys <==> k in a.m)
    && (forall k :: k in a.m ==> k.Var?)
    && (forall k :: k in Enabled(a) ==> k !in Vars(Enabled(a)[k]))
  }

  /** The arena holds one node per term; key nodes list the variables of their target. */
  ghost predicate Arena(nodes: seq<SubstNode>, src: map<Term, nat>, m: map<Term, Term>) {
    && (forall t :: t in src ==> src[t] < |nodes| && nodes[src[t]].tr == t)
    && (forall i :: 0 <= i < |nodes| ==> nodes[i].tr in src && src[nodes[i].tr] == i && nodes[i].mark == Fresh)
    && (forall k :: k in m ==> k in src)
  }

  /** The variables node i stands for: those of its target, or none. */
  function TargetVarsOf(m: map<Term, Term>, t: Term): (r: seq<Term>)
    ensures forall v :: v in r <==> t in m && v in Vars(m[t])
  {
    if t in m then VarSeq(m[t]) else []
  }

  ghost predicate Describes(nodes: seq<SubstNode>, m: map<Term, Term>, c: TargetVars, t: Term) {
    match c
    case Swiped => true
    case Unprocessed(vs) => vs == TargetVarsOf(m, t)
    case Processed(refs) =>
      |refs| == |TargetVarsOf(m, t)|
      && forall j :: 0 <= j < |refs| ==> refs[j] < |nodes| && nodes[refs[j]].tr == TargetVarsOf(m, t)[j]
  }

  /** Every child list describes the variables of the node's target. */
  ghost predicate Faithful(nodes: seq<SubstNode>, m: map<Term, Term>) {
    forall i :: 0 <= i < |nodes| ==> Describes(nodes, m, nodes[i].children, nodes[i].tr)
  }

  lemma FaithfulGraph(nodes: seq<SubstNode>, src: map<Term, nat>, m: map<Term, Term>)
    requires Arena(nodes, src, m) && Faithful(nodes, m)
    requires forall k :: k in m ==> k !in Vars(m[k])
    ensures ValidGraph(GraphOf(nodes))
    ensures forall n, k :: 0 <= n < |nodes| && 0 <= k < |GraphOf(nodes)[n]| ==>
              nodes[n].tr in m && nodes[GraphOf(nodes)[n][k]].tr in Vars(m[nodes[n].tr])
  {
    var g := GraphOf(nodes);
    forall n, k | 0 <= n < |g| && 0 <= k < |g[n]|
      ensures g[n][k] < |g| && nodes[n].tr in m && nodes[g[n][k]].tr in Vars(m[nodes[n].tr]) && g[n][k] != n
    {
      assert Describes(nodes, m, nodes[n].children, nodes[n].tr);
      assert nodes[g[n][k]].tr == TargetVarsOf(m, nodes[n].tr)[k];
      assert TargetVarsOf(m, nodes[n].tr)[k] in TargetVarsOf(m, nodes[n].tr);
    }
  }

  /** Reachability in the arena is dependency of terms. */
  lemma ReachesDepends(nodes: seq<SubstNode>, src: map<Term, nat>, m: map<Term, Term>, u: nat, v: nat)
    requires Arena(nodes, src, m) && Faithful(nodes, m) && u < |nodes| && v < |nodes|
    requires forall k :: k in m ==> k !in Vars(m[k])
    requires Reaches(GraphOf(nodes), u, v)
    ensures Depends(m, nodes[u].tr, nodes[v].tr)
  {
    FaithfulGraph(nodes, src, m);
    var g := GraphOf(nodes);
    forall xs: set<Term> | nodes[u].tr in xs && DependsClosed(m, xs) ensures nodes[v].tr in xs {
      var ns := set n: nat | n < |nodes| && nodes[n].tr in xs;
      assert ClosedIn(g, ns);
    }
  }

  lemma CycleIsLoop(nodes: seq<SubstNode>, src: map<Term, nat>, m: map<Term, Term>, v: nat)
    requires Arena(nodes, src, m) && Faithful(nodes, m) && v < |nodes|
    requires forall k :: k in m ==> k !in Vars(m[k])
    requires OnCycle(GraphOf(nodes), v)
    ensures InLoop(m, nodes[v].tr)
  {
    var w: nat :| w < |nodes| && w != v && Reaches(GraphOf(nodes), v, w) && Reaches(GraphOf(nodes), w, v);
    ReachesDepends(nodes, src, m, v, w);
    ReachesDepends(nodes, src, m, w, v);
    assert nodes[w].tr != nodes[v].tr;
  }

  // ---------- building the graph ----------

  /** Node i lies in every closed set that contains the roots. */
  ghost predicate Covered(nodes: seq<SubstNode>, roots: seq<nat>, i: nat) {
    forall xs: set<nat> :: (forall r :: r in roots ==> r in xs) && ClosedIn(GraphOf(nodes), xs) ==> i in xs
  }

  /** The arena grew, or an unprocessed node got its references. */
  ghost predicate Grown(a: seq<SubstNode>, b: seq<SubstNode>) {
    |a| <= |b| && forall i :: 0 <= i < |a| ==>
      b[i].tr == a[i].tr && (b[i].children == a[i].children || a[i].children.Unprocessed?)
  }

  lemma GrownCovered(a: seq<SubstNode>, b: seq<SubstNode>, roots: seq<nat>, more: seq<nat>, i: nat)
    requires Grown(a, b) && Covered(a, roots, i) && forall r :: r in roots ==> r in more
    ensures Covered(b, more, i)
  {
    forall xs: set<nat> | (forall r :: r in more ==> r in xs) && ClosedIn(GraphOf(b), xs) ensures i in xs {
      assert ClosedIn(GraphOf(a), xs) by {
        forall n, k | n in xs && n < |a| && 0 <= k < |GraphOf(a)[n]| ensures GraphOf(a)[n][k] in xs {
          assert GraphOf(b)[n] == GraphOf(a)[n];
        }
      }
    }
  }

  lemma ChildCovered(nodes: seq<SubstNode>, roots: seq<nat>, n: nat, k: nat)
    requires n < |nodes| && Covered(nodes, roots, n) && k < |Refs(nodes[n].children)|
    ensures Covered(nodes, roots, Refs(nodes[n].children)[k])
  {
    forall xs: set<nat> | (forall r :: r in roots ==> r in xs) && ClosedIn(GraphOf(nodes), xs)
      ensures Refs(nodes[n].children)[k] in xs
    {
      assert GraphOf(nodes)[n][k] in xs;
    }
  }

  /** Nodes are processed exactly when their term has been seen. */
  ghost predicate SeenProcessed(nodes: seq<SubstNode>, seen: set<Term>) {
    forall i :: 0 <= i < |nodes| ==>
      !nodes[i].children.Swiped? && (nodes[i].tr in seen <==> nodes[i].children.Processed?)
  }

  /** Seen and queued nodes hang below the roots; every other node belongs to a key. */
  ghost predicate Traversed(nodes: seq<SubstNode>, m: map<Term, Term>, seen: set<Term>, roots: seq<nat>,
                            queue: seq<nat>) {
    && (forall q :: q in queue ==> q < |nodes|) && (forall r :: r in roots ==> r < |nodes|)
    && (forall i: nat :: i < |nodes| && (nodes[i].tr in seen || i in queue) ==> Covered(nodes, roots, i))
    && (forall i: nat :: i < |nodes| && nodes[i].tr !in m ==> nodes[i].tr in seen || i in queue)
  }

  ghost function Universe(m: map<Term, Term>): set<Term> {
    m.Keys + (set k, v | k in m && v in Vars(m[k]) :: v)
  }

  lemma AllocArena(nodes: seq<SubstNode>, src: map<Term, nat>, m: map<Term, Term>, t: Term, c: TargetVars)
    requires Arena(nodes, src, m) && t !in src
    ensures Arena(nodes + [SubstNode(t, c, Fresh)], src[t := |nodes|], m)
  {
  }

  lemma AllocFaithful(a: seq<SubstNode>, t: Term, c: TargetVars, m: map<Term, Term>)
    requires Faithful(a, m) && c == Unprocessed(TargetVarsOf(m, t))
    ensures Faithful(a + [SubstNode(t, c, Fresh)], m)
  {
    var b := a + [SubstNode(t, c, Fresh)];
    forall i | 0 <= i < |b| ensures Describes(b, m, b[i].children, b[i].tr) {
      if i < |a| { assert Describes(a, m, a[i].children, a[i].tr); }
    }
  }

  lemma ProcessedFaithful(a: seq<SubstNode>, n: nat, refs: seq<nat>, m: map<Term, Term>)
    requires Faithful(a, m) && n < |a| && a[n].children.Unprocessed? && |refs| == |a[n].children.vars|
    requires forall j :: 0 <= j < |refs| ==> refs[j] < |a| && a[refs[j]].tr == a[n].children.vars[j]
    ensures Faithful(a[n := a[n].(children := Processed(refs))], m)
  {
    hide TargetVarsOf;
    var b := a[n := a[n].(children := Processed(refs))];
    forall i | 0 <= i < |b| ensures Describes(b, m, b[i].children, b[i].tr) {
      assert Describes(a, m, a[i].children, a[i].tr);
      SameTermsDescribe(a, b, m, a[i].children, a[i].tr);
      if i == n {
        assert Describes(b, m, Processed(refs), a[n].tr);
      }
    }
  }

  lemma SameTermsDescribe(a: seq<SubstNode>, b: seq<SubstNode>, m: map<Term, Term>, c: TargetVars, t: Term)
    requires Describes(a, m, c, t) && |a| == |b| && forall i :: 0 <= i < |a| ==> a[i].tr == b[i].tr
    ensures Describes(b, m, c, t)
  {
    hide TargetVarsOf;
  }

  lemma SetChildrenArena(a: seq<SubstNode>, src: map<Term, nat>, m: map<Term, Term>, n: nat, c: TargetVars)
    requires Arena(a, src, m) && n < |a|
    ensures Arena(a[n := a[n].(children := c)], src, m)
  {
  }

  /** A leaf for a variable that is no key. */
  predicate IsLeaf(node: SubstNode, m: map<Term, Term>) {
    node.children == Unprocessed([]) && node.tr !in m
  }

  /** What processing node n with children refs does to the arena. */
  ghost predicate ProcessedInto(a: seq<SubstNode>, b: seq<SubstNode>, n: nat, refs: seq<nat>, m: map<Term, Term>) {
    && n < |a| <= |b| && a[n].children.Unprocessed? && (forall r :: r in refs ==> r < |b|)
    && b[..|a|] == a[n := a[n].(children := Processed(refs))]
    && (forall i: nat :: |a| <= i < |b| ==> i in refs && IsLeaf(b[i], m) && b[i].tr in a[n].children.vars)
  }

  lemma ProcessGrows(a: seq<SubstNode>, b: seq<SubstNode>, n: nat, refs: seq<nat>, m: map<Term, Term>)
    requires ProcessedInto(a, b, n, refs, m)
    ensures Grown(a, b) && b[n].children == Processed(refs) && b[n].tr == a[n].tr
    ensures forall i :: 0 <= i < |a| && i != n ==> b[i] == a[i]
  {
    forall i | 0 <= i < |a| ensures b[i] == (if i == n then a[n].(children := Processed(refs)) else a[i]) {
      assert b[i] == b[..|a|][i];
    }
  }

  /** Processing a newly seen covered node keeps the traversal going. */
  lemma ProcessTraversed(
      a: seq<SubstNode>, src: map<Term, nat>, b: seq<SubstNode>, n: nat, refs: seq<nat>, m: map<Term, Term>,
      seen: set<Term>, roots: seq<nat>, queue: seq<nat>)
    requires Arena(a, src, m)
    requires ProcessedInto(a, b, n, refs, m) && Traversed(a, m, seen, roots, queue) && Covered(a, roots, n)
    ensures Traversed(b, m, seen + {a[n].tr}, roots, queue + refs)
  {
    hide Covered;
    ProcessGrows(a, b, n, refs, m);
    forall i: nat | i < |a| && Covered(a, roots, i) ensures Covered(b, roots, i) {
      GrownCovered(a, b, roots, roots, i);
    }
    forall r | r in refs ensures Covered(b, roots, r) {
      var k :| 0 <= k < |refs| && refs[k] == r;
      ChildCovered(b, roots, n, k);
    }
    forall i: nat | i < |b| && (b[i].tr in seen + {a[n].tr} || i in queue + refs) ensures Covered(b, roots, i) {
      if i >= |a| {
        assert i in refs;
      } else if i !in refs {
        assert a[i].tr == a[n].tr ==> i == n;
        assert Covered(a, roots, i);
      }
    }
  }

  /** Nodes added to the arena are for terms that had none. */
  ghost predicate NewTerms(a: seq<SubstNode>, b: seq<SubstNode>, src: map<Term, nat>, src': map<Term, nat>) {
    && src.Keys <= src'.Keys
    && forall i: nat :: |a| <= i < |b| ==> b[i].tr !in src
  }

  /** The arena while the graph is being built. */
  ghost predicate Building(nodes: seq<SubstNode>, src: map<Term, nat>, m: map<Term, Term>, seen: set<Term>) {
    && Arena(nodes, src, m) && Faithful(nodes, m) && SeenProcessed(nodes, seen)
    && seen <= src.Keys && InUniverse(nodes, m)
  }

  ghost predicate InUniverse(nodes: seq<SubstNode>, m: map<Term, Term>) {
    forall i :: 0 <= i < |nodes| ==> nodes[i].tr in Universe(m)
  }

  lemma GrownTransitive(a: seq<SubstNode>, b: seq<SubstNode>, c: seq<SubstNode>)
    requires Grown(a, b) && Grown(b, c)
    ensures Grown(a, c)
  {
  }

  lemma ProcessBuilding(
      a: seq<SubstNode>, src: map<Term, nat>, b: seq<SubstNode>, src': map<Term, nat>,
      n: nat, refs: seq<nat>, m: map<Term, Term>, seen: set<Term>)
    requires Building(a, src, m, seen) && ProcessedInto(a, b, n, refs, m)
    requires Arena(b, src', m) && Faithful(b, m) && NewTerms(a, b, src, src')
    ensures Building(b, src', m, seen + {a[n].tr})
  {
    ProcessGrows(a, b, n, refs, m);
    assert Describes(a, m, a[n].children, a[n].tr);
    assert a[n].tr in src;
    forall i: nat | i < |b|
      ensures b[i].tr in Universe(m) && !b[i].children.Swiped?
      ensures b[i].tr in seen + {a[n].tr} <==> b[i].children.Processed?
    {
      if i < |a| {
        assert a[i].tr == a[n].tr ==> i == n;
        assert b[i].tr == a[i].tr;
      }
    }
  }

  lemma DropQueued(nodes: seq<SubstNode>, m: map<Term, Term>, seen: set<Term>, roots: seq<nat>, n: nat,
                   queue: seq<nat>, rest: seq<nat>)
    requires Traversed(nodes, m, seen, roots, queue) && n < |nodes| && nodes[n].tr in seen
    requires forall q :: q in rest ==> q in queue
    requires forall q :: q in queue ==> q == n || q in rest
    ensures Traversed(nodes, m, seen, roots, rest)
  {
    hide Covered;
  }

  lemma AddRoot(nodes: seq<SubstNode>, m: map<Term, Term>, seen: set<Term>, roots: seq<nat>, r: nat)
    requires Traversed(nodes, m, seen, roots, []) && r < |nodes|
    requires forall i: nat :: i < |nodes| && i != r ==> nodes[i].tr != nodes[r].tr
    ensures Traversed(nodes, m, seen, roots + [r], [r])
  {
    forall i: nat | i < |nodes| && Covered(nodes, roots, i) ensures Covered(nodes, roots + [r], i) {
      GrownCovered(nodes, nodes, roots, roots + [r], i);
    }
    assert Covered(nodes, roots + [r], r) by { assert r in roots + [r]; }
  }

  // ---------- finding and breaking loops ----------

  ghost predicate AllFresh(nodes: seq<SubstNode>) {
    forall i :: 0 <= i < |nodes| ==> nodes[i].mark == Fresh
  }

  lemma FreshInv(nodes: seq<SubstNode>)
    requires ValidGraph(GraphOf(nodes)) && AllFresh(nodes)
    ensures Inv(GraphOf(nodes), Search(MarksOf(nodes), [], [], 0), [], true)
  {
  }

  lemma CleanOrder(g: Graph, s: Search, done: seq<nat>)
    requires Inv(g, s, done, true)
    ensures ChildrenFirst(g, done) && forall n :: n in done ==> n < |g|
  {
  }

  /** All nodes, each after its children. */
  ghost predicate CompleteOrder(g: Graph, order: seq<nat>) {
    && ChildrenFirst(g, order) && (forall n :: n in order ==> n < |g|)
    && (forall n: nat :: n < |g| ==> n in order)
  }

  lemma OrderComplete(g: Graph, order: seq<nat>, starts: seq<nat>)
    requires ChildrenFirst(g, order) && (forall n :: n in order ==> n < |g|)
    requires Covers(g, starts) && forall s :: s in starts ==> s in order
    ensures CompleteOrder(g, order)
  {
    var xs := set n: nat | n in order;
    forall n, k | n in xs && n < |g| && 0 <= k < |g[n]| ensures g[n][k] in xs {
      var i :| 0 <= i < |order| && order[i] == n;
      assert g[order[i]][k] in order[..i];
    }
    assert (forall s :: s in starts ==> s in xs) && ClosedIn(g, xs);
    forall n: nat | n < |g| ensures n in order { assert n in xs; }
  }

  /** Taking the children of a node away and making them start nodes keeps everything covered. */
  lemma SwipeCovers(a: seq<SubstNode>, b: seq<SubstNode>, n: nat, starts: seq<nat>)
    requires n < |a| && b == a[n := a[n].(children := Swiped)] && Covers(GraphOf(a), starts)
    ensures Covers(GraphOf(b), starts + Refs(a[n].children))
  {
    forall xs: set<nat> | (forall s :: s in starts + Refs(a[n].children) ==> s in xs) && ClosedIn(GraphOf(b), xs)
      ensures forall i: nat :: i < |b| ==> i in xs
    {
      assert ClosedIn(GraphOf(a), xs) by {
        forall i, k | i in xs && i < |a| && 0 <= k < |GraphOf(a)[i]| ensures GraphOf(a)[i][k] in xs {
          if i == n {
            assert GraphOf(a)[i][k] in Refs(a[n].children);
          } else {
            assert GraphOf(b)[i] == GraphOf(a)[i];
          }
        }
      }
    }
  }

  /** Some nodes lost their children; each of them lies on a cycle of g. */
  ghost predicate Swipes(a: seq<SubstNode>, b: seq<SubstNode>, g: Graph) {
    && |b| == |a|
    && forall i: nat :: i < |a| ==> b[i] == a[i] || (b[i] == a[i].(children := Swiped) && i < |g| && OnCycle(g, i))
  }

  /** Node i is the last of a loop. */
  ghost predicate Ends(loops: seq<seq<nat>>, i: nat) {
    exists l :: 0 <= l < |loops| && loops[l] != [] && Last(loops[l]) == i
  }

  /** Exactly the last nodes of the loops lost their children. */
  ghost predicate Broken(a: seq<SubstNode>, b: seq<SubstNode>, loops: seq<seq<nat>>) {
    |b| == |a| && forall i: nat :: i < |a| ==> b[i] == if Ends(loops, i) then a[i].(children := Swiped) else a[i]
  }

  lemma BreakOne(a: seq<SubstNode>, b: seq<SubstNode>, loops: seq<seq<nat>>, k: nat)
    requires k < |loops| && loops[k] != [] && Last(loops[k]) < |a| && Broken(a, b, loops[..k])
    ensures Broken(a, b[Last(loops[k]) := b[Last(loops[k])].(children := Swiped)], loops[..k + 1])
  {
    forall i: nat ensures Ends(loops[..k + 1], i) <==> Ends(loops[..k], i) || i == Last(loops[k]) {
      EndsNext(loops, k, i);
    }
    hide Ends;
  }

  lemma LoopEnd(g: Graph, loops: seq<seq<nat>>, i: nat)
    requires AreLoops(g, loops) && i < |loops|
    ensures loops[i] != [] && Last(loops[i]) < |g|
  {
    assert IsLoop(g, loops[i]);
  }

  lemma BrokenRefs(a: seq<SubstNode>, b: seq<SubstNode>, loops: seq<seq<nat>>, i: nat)
    requires Broken(a, b, loops) && i < |a| && ValidGraph(GraphOf(a))
    ensures |b| == |a| && forall r :: r in Refs(b[i].children) ==> r < |a|
  {
    assert Refs(b[i].children) == GraphOf(a)[i] || Refs(b[i].children) == [];
    hide Ends;
  }

  lemma BrokenSwipes(a: seq<SubstNode>, b: seq<SubstNode>, loops: seq<seq<nat>>)
    requires Broken(a, b, loops) && AreLoops(GraphOf(a), loops)
    ensures Swipes(a, b, GraphOf(a))
    ensures forall i :: 0 <= i < |loops| ==> Last(loops[i]) < |b| && b[Last(loops[i])].children.Swiped?
  {
    hide OnCycle, Reaches;
    forall i | 0 <= i < |loops| ensures loops[i] != [] && Last(loops[i]) < |b| && b[Last(loops[i])].children.Swiped? {
      assert IsLoop(GraphOf(a), loops[i]) && Ends(loops, Last(loops[i]));
    }
    forall i: nat | i < |a| && Ends(loops, i) ensures OnCycle(GraphOf(a), i) {
      var l :| 0 <= l < |loops| && loops[l] != [] && Last(loops[l]) == i;
      assert IsLoop(GraphOf(a), loops[l]);
    }
  }

  lemma BrokenStarts(a: seq<SubstNode>, loops: seq<seq<nat>>)
    ensures Broken(a, a, loops[..0])
  {
  }

  lemma EndsNext(loops: seq<seq<nat>>, k: nat, i: nat)
    requires k < |loops| && loops[k] != []
    ensures Ends(loops[..k + 1], i) <==> Ends(loops[..k], i) || i == Last(loops[k])
  {
    assert loops[..k + 1] == loops[..k] + [loops[k]];
    if Ends(loops[..k], i) {
      var l :| 0 <= l < |loops[..k]| && loops[..k][l] != [] && Last(loops[..k][l]) == i;
      assert loops[..k + 1][l] == loops[..k][l];
    }
    if i == Last(loops[k]) { assert loops[..k + 1][k] == loops[k]; }
  }

  ghost function Unswiped(nodes: seq<SubstNode>): set<nat> {
    set i: nat | i < |nodes| && !nodes[i].children.Swiped?
  }

  lemma SwipesShrink(a: seq<SubstNode>, b: seq<SubstNode>, g: Graph, n: nat)
    requires Swipes(a, b, g) && n < |a| && b[n].children.Swiped? && !a[n].children.Swiped?
    ensures Unswiped(b) < Unswiped(a)
  {
    assert n in Unswiped(a) && n !in Unswiped(b);
  }

  lemma SwipesSame(a: seq<SubstNode>, b: seq<SubstNode>, g: Graph)
    requires Swipes(a, b, g)
    ensures |b| == |a|
    ensures forall i :: 0 <= i < |b| ==> b[i].tr == a[i].tr && b[i].mark == a[i].mark
    ensures forall i :: 0 <= i < |b| ==> b[i].children == a[i].children || b[i].children == Swiped
  {
    hide OnCycle;
  }

  lemma SwipesArena(a: seq<SubstNode>, b: seq<SubstNode>, g: Graph, src: map<Term, nat>, m: map<Term, Term>)
    requires Swipes(a, b, g) && Arena(a, src, m)
    ensures Arena(b, src, m)
  {
    SwipesSame(a, b, g);
    hide Swipes;
  }

  lemma SwipesFaithful(a: seq<SubstNode>, b: seq<SubstNode>, g: Graph, m: map<Term, Term>)
    requires Swipes(a, b, g) && Faithful(a, m)
    ensures Faithful(b, m)
  {
    SwipesSame(a, b, g);
    hide Swipes, TargetVarsOf;
    forall i | 0 <= i < |b| ensures Describes(b, m, b[i].children, b[i].tr) {
      assert Describes(a, m, a[i].children, a[i].tr);
    }
  }

  /** The state between two searches: every node is processed, or lies on a loop and was swiped. */
  ghost predicate Breaking(nodes: seq<SubstNode>, src: map<Term, nat>, m: map<Term, Term>, starts: seq<nat>) {
    && Arena(nodes, src, m) && Faithful(nodes, m)
    && (forall i :: 0 <= i < |nodes| ==> NodeKept(nodes[i], m)) && Mated(nodes, m)
    && (forall s :: s in starts ==> s < |nodes|) && Covers(GraphOf(nodes), starts)
  }

  ghost predicate NodeKept(node: SubstNode, m: map<Term, Term>) {
    node.children.Processed? || (node.children.Swiped? && InLoop(m, node.tr))
  }

  /** The node of a key that kept its children, on a loop with the term. */
  ghost predicate Mate(nodes: seq<SubstNode>, m: map<Term, Term>, t: Term, j: nat) {
    j < |nodes| && nodes[j].children.Processed? && nodes[j].tr in m && Mutual(m, t, nodes[j].tr)
  }

  ghost predicate HasMate(nodes: seq<SubstNode>, m: map<Term, Term>, t: Term) {
    exists j: nat :: Mate(nodes, m, t, j)
  }

  /** Every key that lost its children shares a loop with one that kept them. */
  ghost predicate Mated(nodes: seq<SubstNode>, m: map<Term, Term>) {
    forall i :: 0 <= i < |nodes| && nodes[i].children.Swiped? ==> HasMate(nodes, m, nodes[i].tr)
  }

  /** The first node of a loop is a mate of the last. */
  lemma FirstIsMate(a: seq<SubstNode>, b: seq<SubstNode>, src: map<Term, nat>, m: map<Term, Term>,
                    loops: seq<seq<nat>>, l: nat)
    requires Arena(a, src, m) && Faithful(a, m) && NoSelf(m) && AreLoops(GraphOf(a), loops) && Apart(loops)
    requires Broken(a, b, loops) && l < |loops|
    ensures Last(loops[l]) < |a| && Mate(b, m, a[Last(loops[l])].tr, loops[l][0])
  {
    var g, loop := GraphOf(a), loops[l];
    var y, z := Last(loop), loop[0];
    assert IsLoop(g, loop);
    assert !Ends(loops, z);
    ReachesDepends(a, src, m, y, z);
    ReachesDepends(a, src, m, z, y);
    FaithfulGraph(a, src, m);
    assert a[z].tr != a[y].tr;
    assert Refs(a[z].children) == g[z] != [];
  }

  lemma BrokenMated(a: seq<SubstNode>, b: seq<SubstNode>, src: map<Term, nat>, m: map<Term, Term>,
                    loops: seq<seq<nat>>)
    requires Arena(a, src, m) && Faithful(a, m) && NoSelf(m) && AreLoops(GraphOf(a), loops) && Apart(loops)
    requires Broken(a, b, loops) && Mated(a, m)
    ensures Mated(b, m)
  {
    hide *;
    forall i: nat | i < |b| && b[i].children.Swiped? ensures HasMate(b, m, b[i].tr) {
      NodeMated(a, b, src, m, loops, i);
    }
    MatedAll(b, m);
  }

  lemma MatedAll(b: seq<SubstNode>, m: map<Term, Term>)
    requires forall i: nat :: i < |b| && b[i].children.Swiped? ==> HasMate(b, m, b[i].tr)
    ensures Mated(b, m)
  {
    hide HasMate;
  }

  lemma NodeMated(a: seq<SubstNode>, b: seq<SubstNode>, src: map<Term, nat>, m: map<Term, Term>,
                  loops: seq<seq<nat>>, i: nat)
    requires Arena(a, src, m) && Faithful(a, m) && NoSelf(m) && AreLoops(GraphOf(a), loops) && Apart(loops)
    requires Broken(a, b, loops) && Mated(a, m) && i < |b| && b[i].children.Swiped?
    ensures HasMate(b, m, b[i].tr)
  {
    hide Arena, Faithful, NoSelf, AreLoops, Apart, Mutual;
    if Ends(loops, i) {
      var l :| 0 <= l < |loops| && loops[l] != [] && Last(loops[l]) == i;
      FirstIsMate(a, b, src, m, loops, l);
      assert Mate(b, m, b[i].tr, loops[l][0]);
    } else {
      assert HasMate(a, m, a[i].tr);
      var j: nat :| Mate(a, m, a[i].tr, j);
      if Ends(loops, j) {
        var l :| 0 <= l < |loops| && loops[l] != [] && Last(loops[l]) == j;
        FirstIsMate(a, b, src, m, loops, l);
        var z := loops[l][0];
        OtherTerm(a, src, m, i, z);
        assert b[z].tr == a[z].tr && b[i].tr == a[i].tr;
        MutualChain(m, a[i].tr, a[j].tr, a[z].tr);
        assert Mate(b, m, b[i].tr, z);
      } else {
        assert Mate(b, m, b[i].tr, j);
      }
    }
  }

  lemma OtherTerm(a: seq<SubstNode>, src: map<Term, nat>, m: map<Term, Term>, i: nat, j: nat)
    requires Arena(a, src, m) && i < |a| && j < |a| && i != j
    ensures a[i].tr != a[j].tr
  {
  }

  ghost predicate NoSelf(m: map<Term, Term>) {
    forall k :: k in m ==> k !in Vars(m[k])
  }

  lemma SwipesBreaking(a: seq<SubstNode>, b: seq<SubstNode>, src: map<Term, nat>, m: map<Term, Term>,
                       starts: seq<nat>, starts': seq<nat>)
    requires Breaking(a, src, m, starts) && NoSelf(m) && Swipes(a, b, GraphOf(a)) && Mated(b, m)
    requires (forall s :: s in starts' ==> s < |b|) && Covers(GraphOf(b), starts')
    ensures Breaking(b, src, m, starts')
  {
    SwipesArena(a, b, GraphOf(a), src, m);
    SwipesFaithful(a, b, GraphOf(a), m);
    forall i: nat | i < |b| ensures NodeKept(b[i], m) {
      if b[i] != a[i] { CycleIsLoop(a, src, m, i); }
    }
  }

  lemma BreakingGraph(nodes: seq<SubstNode>, src: map<Term, nat>, m: map<Term, Term>, starts: seq<nat>)
    requires Breaking(nodes, src, m, starts) && NoSelf(m)
    ensures ValidGraph(GraphOf(nodes)) && AllFresh(nodes)
    ensures forall i, k :: 0 <= i < |nodes| && 0 <= k < |GraphOf(nodes)[i]| ==> GraphOf(nodes)[i][k] < |nodes|
  {
    FaithfulGraph(nodes, src, m);
  }

  lemma BreakingParts(nodes: seq<SubstNode>, src: map<Term, nat>, m: map<Term, Term>, starts: seq<nat>)
    requires Breaking(nodes, src, m, starts)
    ensures Arena(nodes, src, m) && Faithful(nodes, m) && Mated(nodes, m)
    ensures (forall s :: s in starts ==> s < |nodes|) && Covers(GraphOf(nodes), starts)
  {
  }

  lemma LoopOpen(nodes: seq<SubstNode>, loops: seq<seq<nat>>, i: nat)
    requires AreLoops(GraphOf(nodes), loops) && i < |loops|
    ensures loops[i] != [] && Last(loops[i]) < |nodes| && !nodes[Last(loops[i])].children.Swiped?
  {
    assert IsLoop(GraphOf(nodes), loops[i]);
  }

  lemma SameNodesEqual(a: seq<SubstNode>, b: seq<SubstNode>)
    requires SameNodes(a, b) && AllFresh(a) && AllFresh(b)
    ensures a == b
  {
  }

  /** sort and uniq: the larger reference comes first. */
  method SortUniq(s: seq<nat>) returns (r: seq<nat>)
    ensures forall x :: x in r <==> x in s
    ensures forall i, j :: 0 <= i < j < |r| ==> r[i] > r[j]
  {
    r := [];
    for i := 0 to |s|
      invariant forall x :: x in r <==> x in s[..i]
      invariant forall j, k :: 0 <= j < k < |r| ==> r[j] > r[k]
    {
      assert s[..i + 1] == s[..i] + [s[i]];
      r := InsertUniq(r, s[i]);
    }
    assert s[..|s|] == s;
  }

  method InsertUniq(s: seq<nat>, x: nat) returns (r: seq<nat>)
    requires forall i, j :: 0 <= i < j < |s| ==> s[i] > s[j]
    ensures forall y :: y in r <==> y in s || y == x
    ensures forall i, j :: 0 <= i < j < |r| ==> r[i] > r[j]
  {
    var i := 0;
    while i < |s| && s[i] > x
      invariant i <= |s| && forall j :: 0 <= j < i ==> s[j] > x
    {
      i := i + 1;
    }
    if i < |s| && s[i] == x { return s; }
    assert s == s[..i] + s[i..];
    r := s[..i] + [x] + s[i..];
  }

  // ---------- the ranking of the surviving keys ----------

  function IndexOf(order: seq<nat>, n: nat): (i: nat)
    requires n in order
    ensures i < |order| && order[i] == n && n !in order[..i]
  {
    if order[0] == n then 0 else
      assert order[1..][..IndexOf(order[1..], n)] == order[..IndexOf(order[1..], n) + 1][1..];
      1 + IndexOf(order[1..], n)
  }

  lemma IndexInPrefix(order: seq<nat>, n: nat, i: nat)
    requires i <= |order| && n in order[..i]
    ensures n in order && IndexOf(order, n) < i
  {
    var j :| 0 <= j < i && order[j] == n;
    forall q | j < q <= |order| ensures n in order[..q] {
      assert order[..q][j] == n;
    }
  }

  /** The keys whose node kept its children. */
  ghost predicate Survives(nodes: seq<SubstNode>, src: map<Term, nat>, k: Term) {
    k in src && src[k] < |nodes| && !nodes[src[k]].children.Swiped?
  }

  ghost function DepthOf(src: map<Term, nat>, order: seq<nat>): map<Term, nat> {
    map k | k in src && src[k] in order :: IndexOf(order, src[k])
  }

  lemma OrderRanks(nodes: seq<SubstNode>, src: map<Term, nat>, m: map<Term, Term>, order: seq<nat>, starts: seq<nat>,
                   k: Term, v: Term)
    requires Breaking(nodes, src, m, starts) && CompleteOrder(GraphOf(nodes), order)
    requires k in m && v in Vars(m[k]) && v in m && Survives(nodes, src, k)
    ensures k in DepthOf(src, order) && v in DepthOf(src, order) && DepthOf(src, order)[v] < DepthOf(src, order)[k]
  {
    var g, n := GraphOf(nodes), src[k];
    assert Describes(nodes, m, nodes[n].children, nodes[n].tr) && NodeKept(nodes[n], m);
    assert v in TargetVarsOf(m, k);
    var j :| 0 <= j < |TargetVarsOf(m, k)| && TargetVarsOf(m, k)[j] == v;
    assert nodes[g[n][j]].tr == v && src[v] == g[n][j];
    var i := IndexOf(order, n);
    assert g[order[i]][j] in order[..i];
    IndexInPrefix(order, src[v], i);
  }

  /** The nodes of the enabled keys before any is processed. */
  ghost predicate KeyNodes(nodes: seq<SubstNode>, m: map<Term, Term>) {
    forall i :: 0 <= i < |nodes| ==> nodes[i].children.Unprocessed? && nodes[i].tr in m
  }

  lemma KeyEnabled(a: Assignments, i: nat)
    requires ValidAssignments(a) && i < |a.keys|
    ensures a.keys[i] in a.m && a.keys[i] !in a.keys[..i] && a.keys[..i + 1] == a.keys[..i] + [a.keys[i]]
    ensures a.keys[i] in Enabled(a) <==> a.m[a.keys[i]].sgn
    ensures a.keys[i] in Enabled(a) ==> Enabled(a)[a.keys[i]] == a.m[a.keys[i]].tr
  {
  }

  lemma AllocKey(nodes: seq<SubstNode>, src: map<Term, nat>, m: map<Term, Term>, k: Term)
    requires Arena(nodes, src, map[]) && Faithful(nodes, m) && KeyNodes(nodes, m) && k !in src && k in m
    ensures var b := nodes + [SubstNode(k, Unprocessed(VarSeq(m[k])), Fresh)];
            Arena(b, src[k := |nodes|], map[]) && Faithful(b, m) && KeyNodes(b, m)
  {
    AllocArena(nodes, src, map[], k, Unprocessed(TargetVarsOf(m, k)));
    AllocFaithful(nodes, k, Unprocessed(TargetVarsOf(m, k)), m);
  }

  lemma KeysAllocated(a: Assignments, nodes: seq<SubstNode>, src: map<Term, nat>, names: seq<Term>)
    requires ValidAssignments(a) && Arena(nodes, src, map[])
    requires forall k :: k in names <==> k in Enabled(a) && k in a.keys[..|a.keys|]
    requires forall k :: k in src <==> k in names
    ensures Arena(nodes, src, Enabled(a)) && forall k :: k in names <==> k in Enabled(a)
  {
    assert a.keys[..|a.keys|] == a.keys;
  }

  class SubstLoopBreaker {
    const sna: SubstNodeAllocator
    var seen: set<Term>

    constructor ()
      ensures fresh(sna) && sna.nodes == [] && sna.sourceToRef == map[] && seen == {}
    {
      sna := new SubstNodeAllocator();
      seen := {};
    }

    /** First pass: one node for each enabled substitution. */
    method AllocKeys(a: Assignments) returns (names: seq<Term>)
      requires ValidAssignments(a) && sna.nodes == [] && sna.sourceToRef == map[]
      modifies sna
      ensures Arena(sna.nodes, sna.sourceToRef, Enabled(a)) && Faithful(sna.nodes, Enabled(a))
      ensures KeyNodes(sna.nodes, Enabled(a))
      ensures forall k :: k in names <==> k in Enabled(a)
    {
      ghost var m := Enabled(a);
      names := [];
      for i := 0 to |a.keys|
        invariant Arena(sna.nodes, sna.sourceToRef, map[]) && Faithful(sna.nodes, m) && KeyNodes(sna.nodes, m)
        invariant forall k :: k in names <==> k in m && k in a.keys[..i]
        invariant forall k :: k in sna.sourceToRef <==> k in names
      {
        hide Arena, Faithful, Enabled, KeyNodes, VarSeq, ValidAssignments, TargetVarsOf;
        var name := a.keys[i];
        KeyEnabled(a, i);
        var subst := a.m[name];
        if subst.sgn {
          AllocKey(sna.nodes, sna.sourceToRef, m, name);
          var sid := sna.Alloc(name, Some(subst.tr));
          names := names + [name];
        }
      }
      KeysAllocated(a, sna.nodes, sna.sourceToRef, names);
    }

    /** The node of a variable, created as a leaf if it has none. */
    method AllocChild(v: Term, ghost m: map<Term, Term>) returns (cn: nat)
      requires Arena(sna.nodes, sna.sourceToRef, m) && Faithful(sna.nodes, m)
      modifies sna
      ensures Arena(sna.nodes, sna.sourceToRef, m) && Faithful(sna.nodes, m)
      ensures cn < |sna.nodes| && sna.nodes[cn].tr == v
      ensures sna.nodes == old(sna.nodes)
           || (sna.nodes == old(sna.nodes) + [sna.nodes[cn]] && cn == |old(sna.nodes)| && IsLeaf(sna.nodes[cn], m))
      ensures forall t :: t in old(sna.sourceToRef) ==> t in sna.sourceToRef
      ensures sna.nodes != old(sna.nodes) ==> v !in old(sna.sourceToRef)
    {
      if v !in sna.sourceToRef {
        AllocArena(sna.nodes, sna.sourceToRef, m, v, Unprocessed([]));
        assert TargetVarsOf(m, v) == [];
        AllocFaithful(sna.nodes, v, Unprocessed([]), m);
      }
      cn := sna.Alloc(v, None);
    }

    /** Turns the variables of an unprocessed node into references, creating leaves for new ones. */
    method ProcessNode(n: nat, ghost m: map<Term, Term>) returns (refs: seq<nat>)
      requires Arena(sna.nodes, sna.sourceToRef, m) && Faithful(sna.nodes, m)
      requires n < |sna.nodes| && sna.nodes[n].children.Unprocessed?
      modifies sna
      ensures Arena(sna.nodes, sna.sourceToRef, m) && Faithful(sna.nodes, m)
      ensures ProcessedInto(old(sna.nodes), sna.nodes, n, refs, m)
      ensures NewTerms(old(sna.nodes), sna.nodes, old(sna.sourceToRef), sna.sourceToRef)
    {
      hide Arena, Faithful, IsLeaf;
      var vs := sna.nodes[n].children.vars;
      ghost var before := sna.nodes;
      refs := [];
      for j := 0 to |vs|
        invariant Arena(sna.nodes, sna.sourceToRef, m) && Faithful(sna.nodes, m) && before <= sna.nodes
        invariant forall t :: t in old(sna.sourceToRef) ==> t in sna.sourceToRef
        invariant |refs| == j && forall i :: 0 <= i < j ==> refs[i] < |sna.nodes| && sna.nodes[refs[i]].tr == vs[i]
        invariant forall i: nat :: |before| <= i < |sna.nodes| ==>
                    i in refs && IsLeaf(sna.nodes[i], m) && sna.nodes[i].tr in vs
                    && sna.nodes[i].tr !in old(sna.sourceToRef)
      {
        var cn := AllocChild(vs[j], m);
        refs := refs + [cn];
      }
      ProcessedFaithful(sna.nodes, n, refs, m);
      SetChildrenArena(sna.nodes, sna.sourceToRef, m, n, Processed(refs));
      sna.SetChildren(n, Processed(refs));
    }

    /** Processes the node of a term that has not been seen and queues its children. */
    method VisitNode(n: nat, queue0: seq<nat>, ghost roots: seq<nat>, ghost m: map<Term, Term>)
      returns (queue: seq<nat>)
      requires Building(sna.nodes, sna.sourceToRef, m, seen)
      requires Traversed(sna.nodes, m, seen, roots, queue0 + [n])
      modifies this`seen, sna
      ensures Building(sna.nodes, sna.sourceToRef, m, seen)
      ensures Traversed(sna.nodes, m, seen, roots, queue)
      ensures n < |old(sna.nodes)| && seen == old(seen) + {old(sna.nodes)[n].tr} && queue0 <= queue
      ensures Grown(old(sna.nodes), sna.nodes)
      ensures Universe(m) - seen < Universe(m) - old(seen) || (seen == old(seen) && queue == queue0)
    {
      hide Arena, Faithful, Covered, Universe;
      assert n in queue0 + [n];
      queue := queue0;
      var t := sna.nodes[n].tr;
      if t !in seen {
        ghost var before, src := sna.nodes, sna.sourceToRef;
        seen := seen + {t};
        var refs := ProcessNode(n, m);
        ProcessTraversed(before, src, sna.nodes, n, refs, m, old(seen), roots, queue + [n]);
        ProcessBuilding(before, src, sna.nodes, sna.sourceToRef, n, refs, m, old(seen));
        ProcessGrows(before, sna.nodes, n, refs, m);
        queue := queue + refs;
        DropQueued(sna.nodes, m, seen, roots, n, queue0 + [n] + refs, queue);
      } else {
        DropQueued(sna.nodes, m, seen, roots, n, queue0 + [n], queue);
        assert seen == old(seen) + {t};
      }
    }

    /** Processes the nodes below the queue; marks their terms as seen. */
    method Traverse(root: nat, ghost roots: seq<nat>, ghost m: map<Term, Term>)
      requires Building(sna.nodes, sna.sourceToRef, m, seen)
      requires Traversed(sna.nodes, m, seen, roots, [root])
      modifies this`seen, sna
      ensures Building(sna.nodes, sna.sourceToRef, m, seen)
      ensures Traversed(sna.nodes, m, seen, roots, [])
      ensures old(seen) <= seen && root < |old(sna.nodes)| && old(sna.nodes)[root].tr in seen
      ensures Grown(old(sna.nodes), sna.nodes)
    {
      hide Building, Covered, Universe;
      var queue := [root];
      assert root in queue;
      while |queue| > 0
        invariant Building(sna.nodes, sna.sourceToRef, m, seen)
        invariant Traversed(sna.nodes, m, seen, roots, queue)
        invariant old(seen) <= seen && Grown(old(sna.nodes), sna.nodes)
        invariant root < |old(sna.nodes)| && (root in queue || old(sna.nodes)[root].tr in seen)
        decreases Universe(m) - seen, |queue|
      {
        var n := Last(queue);
        assert n in queue;
        assert queue == queue[..|queue| - 1] + [n];
        ghost var before := sna.nodes;
        queue := VisitNode(n, queue[..|queue| - 1], roots, m);
        GrownTransitive(old(sna.nodes), before, sna.nodes);
      }
    }

    /** Makes the node of a key a root, unless an earlier root has led to it. */
    method AddKey(name: Term, roots0: seq<nat>, ghost m: map<Term, Term>) returns (roots: seq<nat>)
      requires Building(sna.nodes, sna.sourceToRef, m, seen) && Traversed(sna.nodes, m, seen, roots0, [])
      requires name in m
      modifies this`seen, sna
      ensures Building(sna.nodes, sna.sourceToRef, m, seen) && Traversed(sna.nodes, m, seen, roots, [])
      ensures old(seen) <= seen && name in seen
    {
      BuildingNode(sna.nodes, sna.sourceToRef, m, seen, name);
      hide Building, Traversed, Grown;
      roots := roots0;
      if name !in seen {
        var node := sna.sourceToRef[name];
        AddRoot(sna.nodes, m, seen, roots, node);
        roots := roots + [node];
        Traverse(node, roots, m);
      }
    }

    /** Builds the dependency graph of the enabled substitutions; returns nodes that reach every node. */
    method ConstructSubstitutionGraph(a: Assignments) returns (roots: seq<nat>)
      requires ValidAssignments(a) && sna.nodes == [] && sna.sourceToRef == map[] && seen == {}
      modifies this`seen, sna
      ensures Arena(sna.nodes, sna.sourceToRef, Enabled(a)) && Faithful(sna.nodes, Enabled(a))
      ensures forall i :: 0 <= i < |sna.nodes| ==> sna.nodes[i].children.Processed?
      ensures (forall r :: r in roots ==> r < |sna.nodes|) && Covers(GraphOf(sna.nodes), roots)
    {
      hide *;
      ghost var m := Enabled(a);
      var names := AllocKeys(a);
      roots := [];
      BuildingStarts(sna.nodes, sna.sourceToRef, m);
      for i := 0 to |names|
        invariant Building(sna.nodes, sna.sourceToRef, m, seen) && Traversed(sna.nodes, m, seen, roots, [])
        invariant forall j :: 0 <= j < i ==> names[j] in seen
      {
        roots := AddKey(names[i], roots, m);
      }
      GraphComplete(sna.nodes, sna.sourceToRef, m, seen, roots);
    }

    /**
     Searches from every start node. The loops are exactly the strongly connected components of
     several nodes that the start nodes reach. No loop: the nodes come out in an order, children first.
     */
    method FindLoops(startNodes: seq<nat>) returns (loops: seq<seq<nat>>, ghost order: seq<nat>)
      requires ValidGraph(GraphOf(sna.nodes)) && AllFresh(sna.nodes)
      requires forall s :: s in startNodes ==> s < |sna.nodes|
      modifies sna`nodes
      ensures sna.nodes == old(sna.nodes) && AreLoops(GraphOf(sna.nodes), loops) && Apart(loops)
      ensures AreComponents(GraphOf(sna.nodes), loops) && AllFound(GraphOf(sna.nodes), startNodes, loops)
      ensures loops == [] ==> ChildrenFirst(GraphOf(sna.nodes), order) && (forall s :: s in startNodes ==> s in order)
                              && forall n :: n in order ==> n < |sna.nodes|
    {
      hide Inv, IsLoop, ValidGraph, ChildrenFirst, Apart, Between, Tight, Grouped, AllFound, AreComponents;
      ghost var g := GraphOf(sna.nodes);
      var tarjan := new TarjanAlgorithm(sna);
      FreshInv(sna.nodes);
      loops, order := [], [];
      NoLoops([], []);
      NothingGrouped(g, []);
      NothingTight(g, tarjan.State());
      for i := 0 to |startNodes|
        invariant SameNodes(sna.nodes, old(sna.nodes)) && GraphOf(sna.nodes) == g
        invariant tarjan.controlStack == [] && tarjan.tarjanStack == [] && tarjan.sna == sna
        invariant Inv(g, tarjan.State(), order, loops == []) && AreLoops(g, loops)
        invariant Apart(loops) && Between(loops, [], order)
        invariant Tight(g, tarjan.State(), order) && Grouped(g, loops, [], order)
        invariant forall s :: s in startNodes[..i] ==> s in order
      {
        var tmp;
        ghost var before := order;
        assert startNodes[..i + 1] == startNodes[..i] + [startNodes[i]];
        assert startNodes[i] in startNodes;
        tmp, order := tarjan.GetLoops(startNodes[i], order, loops == []);
        SameNodesGraph(sna.nodes, old(sna.nodes));
        LaterLoops(loops, tmp, [], before, order);
        LaterGrouped(g, loops, tmp, [], before, order);
        loops := loops + tmp;
      }
      if loops == [] { CleanOrder(g, tarjan.State(), order); }
      GroupedAll(g, tarjan.State(), loops, order, startNodes);
      sna.ClearTarjan();
      SameNodesEqual(sna.nodes, old(sna.nodes));
    }

    /** Swipes the last node of every loop; its children are returned as new start nodes. */
    method BreakLoops(loops: seq<seq<nat>>, ghost starts: seq<nat>) returns (orphans: seq<nat>)
      requires AreLoops(GraphOf(sna.nodes), loops) && ValidGraph(GraphOf(sna.nodes))
      requires Covers(GraphOf(sna.nodes), starts)
      modifies sna`nodes
      ensures Swipes(old(sna.nodes), sna.nodes, GraphOf(old(sna.nodes)))
      ensures Covers(GraphOf(sna.nodes), starts + orphans) && forall o :: o in orphans ==> o < |sna.nodes|
      ensures Broken(old(sna.nodes), sna.nodes, loops)
      ensures forall i :: 0 <= i < |loops| ==>
        Last(loops[i]) < |sna.nodes| && sna.nodes[Last(loops[i])].children.Swiped?
    {
      hide *;
      orphans := [];
      ghost var a := sna.nodes;
      BrokenStarts(a, loops);
      assert starts + orphans == starts;
      for i := 0 to |loops|
        invariant Broken(a, sna.nodes, loops[..i]) && Covers(GraphOf(sna.nodes), starts + orphans)
        invariant |sna.nodes| == |a| && forall o :: o in orphans ==> o < |sna.nodes|
      {
        LoopEnd(GraphOf(a), loops, i);
        var last := Last(loops[i]);
        ghost var before := sna.nodes;
        BrokenRefs(a, before, loops[..i], last);
        var refs := Refs(sna.nodes[last].children);
        orphans := AppendRefs(orphans, refs);
        BreakOne(a, sna.nodes, loops, i);
        sna.SetChildren(last, Swiped);
        SwipeCovers(before, sna.nodes, last, starts + (orphans[..|orphans| - |refs|]));
        assert starts + orphans[..|orphans| - |refs|] + refs == starts + orphans;
      }
      assert loops[..|loops|] == loops;
      BrokenSwipes(a, sna.nodes, loops);
    }

    /** The substitutions whose node kept its children, in the order of the keys. */
    method ConstructLooplessSubstitution(a: Assignments) returns (r: Substitution.SubstMap)
      requires ValidAssignments(a) && forall k :: k in Enabled(a) ==>
        k in sna.sourceToRef && sna.sourceToRef[k] < |sna.nodes|
      ensures Substitution.ValidMap(r)
      ensures forall k :: k in r.m <==> k in Enabled(a) && Survives(sna.nodes, sna.sourceToRef, k)
      ensures forall k :: k in r.m ==> r.m[k] == Enabled(a)[k]
    {
      r := Substitution.EmptySubst;
      for i := 0 to |a.keys|
        invariant Substitution.ValidMap(r)
        invariant forall k :: k in r.m <==>
          k in a.keys[..i] && k in Enabled(a) && Survives(sna.nodes, sna.sourceToRef, k)
        invariant forall k :: k in r.m ==> r.m[k] == Enabled(a)[k]
      {
        var key := a.keys[i];
        assert a.keys[..i + 1] == a.keys[..i] + [key] && key !in a.keys[..i];
        if a.m[key].sgn && !sna.nodes[sna.sourceToRef[key]].children.Swiped? {
          Substitution.InsertValid(r, key, a.m[key].tr);
          r := Substitution.Insert(r, key, a.m[key].tr);
        }
      }
      assert a.keys[..|a.keys|] == a.keys;
    }

    /** One round: finds the loops and, if there are any, breaks each. */
    method BreakRound(startNodes0: seq<nat>, ghost m: map<Term, Term>)
      returns (startNodes: seq<nat>, done: bool, ghost order: seq<nat>)
      requires Breaking(sna.nodes, sna.sourceToRef, m, startNodes0) && NoSelf(m)
      modifies sna`nodes
      ensures Breaking(sna.nodes, sna.sourceToRef, m, startNodes)
      ensures done ==> CompleteOrder(GraphOf(sna.nodes), order) && Unswiped(sna.nodes) == Unswiped(old(sna.nodes))
      ensures !done ==> Unswiped(sna.nodes) < Unswiped(old(sna.nodes))
    {
      hide *;
      BreakingGraph(sna.nodes, sna.sourceToRef, m, startNodes0);
      BreakingParts(sna.nodes, sna.sourceToRef, m, startNodes0);
      ghost var before := sna.nodes;
      startNodes := startNodes0;
      var loops;
      loops, order := FindLoops(startNodes);
      done := |loops| == 0;
      if done {
        OrderComplete(GraphOf(sna.nodes), order, startNodes);
      } else {
        LoopOpen(before, loops, 0);
        var orphans := BreakLoops(loops, startNodes);
        SwipesSame(before, sna.nodes, GraphOf(before));
        SwipesShrink(before, sna.nodes, GraphOf(before), Last(loops[0]));
        startNodes := SortUniq(startNodes + orphans);
        CoversSame(GraphOf(sna.nodes), startNodes0 + orphans, startNodes);
        BrokenMated(before, sna.nodes, sna.sourceToRef, m, loops);
        SwipesBreaking(before, sna.nodes, sna.sourceToRef, m, startNodes0, startNodes);
      }
    }

    /**
     Breaks every dependency loop of the enabled substitutions. Only keys on a loop are
     dropped, each on a loop with a key that stays; what is left is ranked, so it has no loop.
     */
    method Run(a: Assignments) returns (r: Substitution.SubstMap, ghost depth: map<Term, nat>)
      requires ValidAssignments(a) && sna.nodes == [] && sna.sourceToRef == map[] && seen == {}
      modifies this`seen, sna
      ensures Substitution.ValidMap(r) && Substitution.Ranked(r.m, depth)
      ensures forall k :: k in r.m ==> k in Enabled(a) && r.m[k] == Enabled(a)[k]
      ensures forall k :: k in Enabled(a) && k !in r.m ==> InLoop(Enabled(a), k)
      ensures forall k :: k in Enabled(a) && k !in r.m ==> SharesLoop(Enabled(a), r.m, k)
    {
      if |a.keys| == 0 {
        r, depth := Substitution.EmptySubst, map[];
        return;
      }
      ghost var m := Enabled(a);
      hide *;
      ValidNoSelf(a);
      var startNodes := ConstructSubstitutionGraph(a);
      GraphBreaking(sna.nodes, sna.sourceToRef, m, startNodes);
      ghost var order := [];
      var done := false;
      while !done
        invariant Breaking(sna.nodes, sna.sourceToRef, m, startNodes) && NoSelf(m)
        invariant done ==> CompleteOrder(GraphOf(sna.nodes), order)
        decreases Unswiped(sna.nodes), !done
      {
        startNodes, done, order := BreakRound(startNodes, m);
      }
      BreakingKeys(sna.nodes, sna.sourceToRef, m, startNodes);
      r := ConstructLooplessSubstitution(a);
      depth := DepthOf(sna.sourceToRef, order);
      SurvivorsRanked(sna.nodes, sna.sourceToRef, m, order, startNodes, r.m);
      SurvivorsShare(sna.nodes, sna.sourceToRef, m, startNodes, r.m);
    }
  }

  method AppendRefs(xs: seq<nat>, ys: seq<nat>) returns (r: seq<nat>)
    ensures r == xs + ys
  {
    r := xs;
    for i := 0 to |ys|
      invariant r == xs + ys[..i]
    {
      r := r + [ys[i]];
    }
  }

  lemma CoversSame(g: Graph, a: seq<nat>, b: seq<nat>)
    requires Covers(g, a) && forall x :: x in a ==> x in b
    ensures Covers(g, b)
  {
  }

  lemma ValidNoSelf(a: Assignments)
    requires ValidAssignments(a)
    ensures NoSelf(Enabled(a))
  {
  }

  lemma GraphBreaking(nodes: seq<SubstNode>, src: map<Term, nat>, m: map<Term, Term>, starts: seq<nat>)
    requires Arena(nodes, src, m) && Faithful(nodes, m)
    requires forall i :: 0 <= i < |nodes| ==> nodes[i].children.Processed?
    requires (forall s :: s in starts ==> s < |nodes|) && Covers(GraphOf(nodes), starts)
    ensures Breaking(nodes, src, m, starts)
  {
  }

  lemma BreakingKeys(nodes: seq<SubstNode>, src: map<Term, nat>, m: map<Term, Term>, starts: seq<nat>)
    requires Breaking(nodes, src, m, starts)
    ensures forall k :: k in m ==> k in src && src[k] < |nodes|
    ensures forall k :: k in m && !Survives(nodes, src, k) ==> InLoop(m, k)
  {
    forall k | k in m && !Survives(nodes, src, k) ensures InLoop(m, k) {
      assert NodeKept(nodes[src[k]], m);
    }
  }

  lemma SurvivorsShare(nodes: seq<SubstNode>, src: map<Term, nat>, m: map<Term, Term>, starts: seq<nat>,
                       r: map<Term, Term>)
    requires Breaking(nodes, src, m, starts) && forall k :: k in r <==> k in m && Survives(nodes, src, k)
    ensures forall k :: k in m && k !in r ==> SharesLoop(m, r, k)
  {
    hide Mutual, Faithful, Covers;
    forall k | k in m && k !in r ensures SharesLoop(m, r, k) {
      assert HasMate(nodes, m, nodes[src[k]].tr);
      var j: nat :| Mate(nodes, m, k, j);
      assert nodes[j].tr in r && Mutual(m, k, nodes[j].tr);
    }
  }

  lemma SurvivorsRanked(nodes: seq<SubstNode>, src: map<Term, nat>, m: map<Term, Term>, order: seq<nat>,
                        starts: seq<nat>,
                        r: map<Term, Term>)
    requires Breaking(nodes, src, m, starts) && CompleteOrder(GraphOf(nodes), order)
    requires forall k :: k in r ==> k in m && Survives(nodes, src, k) && r[k] == m[k]
    ensures Substitution.Ranked(r, DepthOf(src, order))
  {
    var depth := DepthOf(src, order);
    forall k | k in r ensures k in depth {
      assert src[k] < |GraphOf(nodes)|;
    }
    forall k, v | k in r && v in Vars(r[k]) && v in r ensures depth[v] < depth[k] {
      OrderRanks(nodes, src, m, order, starts, k, v);
    }
  }

  /** A ranked map has no dependency loop. */
  lemma RankedDepends(m: map<Term, Term>, depth: map<Term, nat>, a: Term, b: Term)
    requires Substitution.Ranked(m, depth) && Depends(m, a, b) && a in m && b in m && a != b
    ensures depth[b] < depth[a]
  {
    var vs := m.Keys + (set k, v | k in m && v in Vars(m[k]) :: v);
    var below := set v | v in vs && (v == a || (v in m ==> depth[v] < depth[a]));
    assert DependsClosed(m, below);
  }

  lemma DependsOnKey(m: map<Term, Term>, a: Term, b: Term)
    requires Depends(m, a, b) && a != b
    ensures a in m
  {
    assert a !in m ==> DependsClosed(m, {a});
  }

  lemma RankedHasNoLoop(m: map<Term, Term>, depth: map<Term, nat>, k: Term)
    requires Substitution.Ranked(m, depth)
    ensures !InLoop(m, k)
  {
    forall j | j != k && Depends(m, k, j) ensures !Depends(m, j, k) {
      DependsOnKey(m, k, j);
      if Depends(m, j, k) {
        DependsOnKey(m, j, k);
        RankedDepends(m, depth, k, j);
        RankedDepends(m, depth, j, k);
        assert false;
      }
    }
  }

  lemma BuildingStarts(nodes: seq<SubstNode>, src: map<Term, nat>, m: map<Term, Term>)
    requires Arena(nodes, src, m) && Faithful(nodes, m) && KeyNodes(nodes, m)
    ensures Building(nodes, src, m, {}) && Traversed(nodes, m, {}, [], [])
  {
  }

  lemma BuildingNode(nodes: seq<SubstNode>, src: map<Term, nat>, m: map<Term, Term>, seen: set<Term>, k: Term)
    requires Building(nodes, src, m, seen) && k in m
    ensures k in src && src[k] < |nodes| && nodes[src[k]].tr == k
    ensures forall i: nat :: i < |nodes| && i != src[k] ==> nodes[i].tr != k
  {
  }

  lemma GraphComplete(nodes: seq<SubstNode>, src: map<Term, nat>, m: map<Term, Term>, seen: set<Term>, roots: seq<nat>)
    requires Building(nodes, src, m, seen) && Traversed(nodes, m, seen, roots, [])
    requires forall k :: k in m ==> k in seen
    ensures Arena(nodes, src, m) && Faithful(nodes, m)
    ensures forall i :: 0 <= i < |nodes| ==> nodes[i].children.Processed?
    ensures (forall r :: r in roots ==> r < |nodes|) && Covers(GraphOf(nodes), roots)
  {
    forall i: nat | i < |nodes| ensures nodes[i].children.Processed? && Covered(nodes, roots, i) {
      assert nodes[i].tr in seen;
    }
    forall xs: set<nat> | (forall r :: r in roots ==> r in xs) && ClosedIn(GraphOf(nodes), xs)
      ensures forall i: nat :: i < |nodes| ==> i in xs
    {
      forall i: nat | i < |nodes| ensures i in xs { assert Covered(nodes, roots, i); }
    }
  }
}
