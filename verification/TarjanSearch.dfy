/**
 Finite directed graphs given by child lists, and the depth-first search state of the
 strongly-connected-component algorithm of SubstLoopBreaker with its invariants.
 */
module TarjanSearch {

  /** Child lists; node n is the index of its list. */
  type Graph = seq<seq<nat>>

  ghost predicate ValidGraph(g: Graph) {
    forall n, k :: 0 <= n < |g| && 0 <= k < |g[n]| ==> g[n][k] < |g| && g[n][k] != n
  }

  ghost predicate ClosedIn(g: Graph, xs: set<nat>) {
    forall n, k :: n in xs && n < |g| && 0 <= k < |g[n]| ==> g[n][k] in xs
  }

  /** v is reachable from u: it lies in every closed set that contains u. */
  ghost predicate Reaches(g: Graph, u: nat, v: nat) {
    forall xs: set<nat> :: u in xs && ClosedIn(g, xs) ==> v in xs
  }

  /** Every node is reachable from one of the given nodes. */
  ghost predicate Covers(g: Graph, starts: seq<nat>) {
    forall xs: set<nat> :: (forall s :: s in starts ==> s in xs) && ClosedIn(g, xs)
      ==> forall n :: 0 <= n < |g| ==> n in xs
  }

  /** v lies on a cycle through another node. */
  ghost predicate OnCycle(g: Graph, v: nat) {
    exists w: nat :: w < |g| && w != v && Reaches(g, v, w) && Reaches(g, w, v)
  }

  lemma ReachesTransitive(g: Graph, u: nat, v: nat, w: nat)
    requires Reaches(g, u, v) && Reaches(g, v, w)
    ensures Reaches(g, u, w)
  {
  }

  lemma ReachesChild(g: Graph, u: nat, n: nat, k: nat)
    requires Reaches(g, u, n) && n < |g| && k < |g[n]|
    ensures Reaches(g, u, g[n][k])
  {
  }

  // ---------- search state ----------

  datatype NStatus = InStack | Complete | Unseen

  /** The fields of a substitution node that the search uses. */
  datatype Mark = Mark(procChild: nat, index: int, lowlink: int, status: NStatus)

  const Fresh := Mark(0, -1, -1, Unseen)

  datatype Search = Search(marks: seq<Mark>, control: seq<nat>, tarjan: seq<nat>, index: nat)

  function Last(s: seq<nat>): nat
    requires s != []
  {
    s[|s| - 1]
  }

  /** addNode: the node gets the next index and enters both stacks. */
  function AddNode(s: Search, n: nat): Search
    requires n < |s.marks|
  {
    Search(s.marks[n := Mark(s.marks[n].procChild, s.index, s.index, InStack)],
           s.control + [n], s.tarjan + [n], s.index + 1)
  }

  /** getNextChild: moves to the next child of the top of the control stack. */
  function Advance(s: Search): Search
    requires s.control != [] && Last(s.control) < |s.marks|
  {
    var n := Last(s.control);
    s.(marks := s.marks[n := s.marks[n].(procChild := s.marks[n].procChild + 1)])
  }

  function UpdateLowLink(s: Search, n: nat, i: int): Search
    requires n < |s.marks|
  {
    s.(marks := s.marks[n := s.marks[n].(lowlink := if s.marks[n].lowlink < i then s.marks[n].lowlink else i)])
  }

  /** Takes the top of the control stack off and passes its low link to the new top. */
  function PopControl(s: Search): Search
    requires s.control != [] && forall i :: 0 <= i < |s.control| ==> s.control[i] < |s.marks|
  {
    var n := Last(s.control);
    var t := s.(control := s.control[..|s.control| - 1]);
    if t.control == [] then t else UpdateLowLink(t, Last(t.control), s.marks[n].lowlink)
  }

  function CompleteMarks(marks: seq<Mark>, ns: seq<nat>): (r: seq<Mark>)
    ensures |r| == |marks|
    ensures forall i :: 0 <= i < |r| ==> r[i] == if i in ns then marks[i].(status := Complete) else marks[i]
  {
    seq(|marks|, i requires 0 <= i < |marks| => if i in ns then marks[i].(status := Complete) else marks[i])
  }

  /** Moves the nodes of the Tarjan stack from position p on out of the stack. */
  function CompleteFrom(s: Search, p: nat): Search
    requires p <= |s.tarjan|
  {
    Search(CompleteMarks(s.marks, s.tarjan[p..]), s.control, s.tarjan[..p], s.index)
  }

  // ---------- invariants ----------

  function Index(s: Search, n: nat): int {
    if n < |s.marks| then s.marks[n].index else 0
  }

  function Low(s: Search, n: nat): int {
    if n < |s.marks| then s.marks[n].lowlink else 0
  }

  function Proc(s: Search, n: nat): nat {
    if n < |s.marks| then s.marks[n].procChild else 0
  }

  function Status(s: Search, n: nat): NStatus {
    if n < |s.marks| then s.marks[n].status else Unseen
  }

  /** The stacks hold nodes in index order; the Tarjan stack contains the control stack. */
  ghost predicate Stacks(g: Graph, s: Search) {
    && |s.marks| == |g|
    && (forall n :: n in s.tarjan ==> n < |g| && Index(s, n) < s.index)
    && (forall n :: n in s.control ==> n in s.tarjan)
    && (forall i, j :: 0 <= i < j < |s.tarjan| ==> Index(s, s.tarjan[i]) < Index(s, s.tarjan[j]))
    && (forall i, j :: 0 <= i < j < |s.control| ==> Index(s, s.control[i]) < Index(s, s.control[j]))
    && (s.tarjan != [] ==> s.control != [] && s.control[0] == s.tarjan[0])
  }

  /** Status and progress of every node; done lists the nodes completed at some time. */
  ghost predicate Statuses(g: Graph, s: Search, done: seq<nat>) {
    && (forall n: nat :: n < |g| ==> (Status(s, n) == InStack <==> n in s.tarjan))
    && (forall n: nat :: n < |g| ==> Proc(s, n) <= |g[n]|)
    && (forall n: nat :: n < |g| && Status(s, n) == Complete ==> n in done)
    && (forall n: nat :: n < |g| && Status(s, n) == Unseen ==> Proc(s, n) == 0 && n !in done)
    && (forall n :: n in done ==> n < |g| && Proc(s, n) == |g[n]|)
  }

  /** Low links reach down to the bottom of the stack at most, and strictly down once finished. */
  ghost predicate LowLinks(g: Graph, s: Search) {
    && (forall n :: n in s.tarjan ==> Index(s, s.tarjan[0]) <= Low(s, n) <= Index(s, n))
    && (forall n :: n in s.tarjan && Low(s, n) < Index(s, n) ==> 0 < Proc(s, n))
    && (forall n :: n in s.tarjan && n !in s.control && n < |g| ==> Low(s, n) < Index(s, n) && Proc(s, n) == |g[n]|)
    && (forall i :: 0 <= i < |s.control| - 1 ==> 0 < Proc(s, s.control[i]))
  }

  /** How stack nodes reach each other. */
  ghost predicate Connected(g: Graph, s: Search) {
    && (forall i, j :: 0 <= i <= j < |s.tarjan| ==> Reaches(g, s.tarjan[i], s.tarjan[j]))
    && (forall i :: 0 <= i < |s.control| - 1 ==> Reaches(g, s.control[i], s.control[i + 1]))
    && (forall n :: n in s.tarjan ==> ReachesLow(g, s, n))
  }

  /** Some stack node whose index is the low link of n is reachable from n. */
  ghost predicate ReachesLow(g: Graph, s: Search, n: nat) {
    exists y :: y in s.tarjan && Index(s, y) == Low(s, n) && Reaches(g, n, y)
  }

  /** What is known of a child c of stack node n once n has moved past it. */
  ghost predicate Handled(s: Search, done: seq<nat>, n: nat, c: nat) {
    || c in done
    || (c in s.tarjan && Low(s, n) <= Index(s, c))
    || (exists i :: 0 <= i < |s.control| - 1 && s.control[i] == n && s.control[i + 1] == c)
  }

  ghost predicate ChildrenHandled(g: Graph, s: Search, done: seq<nat>) {
    forall n, k: nat :: n in s.tarjan && n < |g| && k < Proc(s, n) && k < |g[n]| ==> Handled(s, done, n, g[n][k])
  }

  /** Each completed node comes after all its children in the order of completion. */
  ghost predicate ChildrenFirst(g: Graph, done: seq<nat>) {
    forall i, k :: 0 <= i < |done| && done[i] < |g| && 0 <= k < |g[done[i]]| ==> g[done[i]][k] in done[..i]
  }

  /** The invariant of the search; clean as long as no loop has been found. */
  ghost predicate Inv(g: Graph, s: Search, done: seq<nat>, clean: bool) {
    && ValidGraph(g) && Stacks(g, s) && Statuses(g, s, done) && LowLinks(g, s) && Connected(g, s)
    && (clean ==> ChildrenHandled(g, s, done) && ChildrenFirst(g, done))
  }

  // ---------- reaching the top of the control stack ----------

  /** Every stack node reaches every control node at or above it in the control order. */
  lemma {:induction false} ControlPath(g: Graph, s: Search, i: nat, j: nat)
    requires Connected(g, s) && i <= j < |s.control|
    ensures Reaches(g, s.control[i], s.control[j])
    decreases j - i
  {
    if i < j {
      ControlPath(g, s, i + 1, j);
      ReachesTransitive(g, s.control[i], s.control[i + 1], s.control[j]);
    }
  }

  lemma {:induction false} ReachesTop(g: Graph, s: Search, u: nat)
    requires Stacks(g, s) && LowLinks(g, s) && Connected(g, s) && u in s.tarjan
    ensures Reaches(g, u, Last(s.control))
    decreases Index(s, u) - Index(s, s.tarjan[0])
  {
    if u in s.control {
      var i :| 0 <= i < |s.control| && s.control[i] == u;
      ControlPath(g, s, i, |s.control| - 1);
    } else {
      assert ReachesLow(g, s, u);
      var y :| y in s.tarjan && Index(s, y) == Low(s, u) && Reaches(g, u, y);
      ReachesTop(g, s, y);
      ReachesTransitive(g, u, y, Last(s.control));
    }
  }

  // ---------- the steps keep the invariant ----------

  /** Two search states agree on the marks of a node, its progress aside. */
  ghost predicate SameMark(s: Search, t: Search, n: nat) {
    Index(t, n) == Index(s, n) && Low(t, n) == Low(s, n) && Status(t, n) == Status(s, n)
  }

  lemma AddNodeEffects(s: Search, c: nat)
    requires c < |s.marks|
    ensures var t := AddNode(s, c);
            && |t.marks| == |s.marks| && t.index == s.index + 1
            && t.control == s.control + [c] && t.tarjan == s.tarjan + [c]
            && Index(t, c) == s.index == Low(t, c) && Status(t, c) == InStack
            && (forall n: nat :: n != c ==> SameMark(s, t, n))
            && (forall n: nat :: Proc(t, n) == Proc(s, n))
  {
  }

  lemma AdvanceEffects(s: Search)
    requires s.control != [] && Last(s.control) < |s.marks|
    ensures var t := Advance(s);
            && |t.marks| == |s.marks| && t.index == s.index && t.control == s.control && t.tarjan == s.tarjan
            && (forall n: nat :: SameMark(s, t, n))
            && (forall n: nat :: Proc(t, n) == if n == Last(s.control) then Proc(s, n) + 1 else Proc(s, n))
  {
  }

  /** A fresh node on top of both stacks keeps them in order. */
  lemma AddStacks(g: Graph, s: Search, c: nat)
    requires Stacks(g, s) && c < |g| && c !in s.tarjan
    ensures Stacks(g, AddNode(s, c))
  {
    var t := AddNode(s, c);
    AddNodeEffects(s, c);
    hide AddNode, Index;
    forall n | n in s.tarjan ensures Index(t, n) == Index(s, n) {
      assert SameMark(s, t, n);
    }
    AddOrder(s, t, s.tarjan, c);
    AddOrder(s, t, s.control, c);
    assert s.tarjan != [] ==> t.tarjan[0] == s.tarjan[0] && t.control[0] == s.control[0];
  }

  /** Nodes in index order stay so with a node of a greater index behind them. */
  lemma AddOrder(s: Search, t: Search, xs: seq<nat>, c: nat)
    requires forall n :: n in xs ==> Index(t, n) == Index(s, n) < Index(t, c)
    requires forall i, j :: 0 <= i < j < |xs| ==> Index(s, xs[i]) < Index(s, xs[j])
    ensures var ys := xs + [c]; forall i, j :: 0 <= i < j < |ys| ==> Index(t, ys[i]) < Index(t, ys[j])
  {
    hide Index;
    var ys := xs + [c];
    forall i, j | 0 <= i < j < |ys| ensures Index(t, ys[i]) < Index(t, ys[j]) {
      assert ys[i] == xs[i] && xs[i] in xs;
      if j < |xs| { assert ys[j] == xs[j] && xs[j] in xs; }
    }
  }

  lemma AddStatuses(g: Graph, s: Search, c: nat, done: seq<nat>)
    requires |s.marks| == |g| && Statuses(g, s, done) && c < |g|
    ensures Statuses(g, AddNode(s, c), done)
  {
    var t := AddNode(s, c);
    AddNodeEffects(s, c);
    hide AddNode, Status, Proc;
    forall n: nat | n < |g| && n != c ensures Status(t, n) == Status(s, n) && (n in t.tarjan <==> n in s.tarjan) {
      assert SameMark(s, t, n);
    }
    assert c in t.tarjan;
  }

  lemma AddLowLinks(g: Graph, s: Search, c: nat)
    requires Stacks(g, s) && LowLinks(g, s) && c < |g| && c !in s.tarjan
    requires s.control != [] ==> 0 < Proc(s, Last(s.control))
    ensures LowLinks(g, AddNode(s, c))
  {
    var t := AddNode(s, c);
    AddNodeEffects(s, c);
    hide AddNode, Index, Low, Proc;
    forall n | n in s.tarjan ensures Index(t, n) == Index(s, n) && Low(t, n) == Low(s, n) {
      assert SameMark(s, t, n);
    }
    if s.tarjan != [] {
      assert t.tarjan[0] == s.tarjan[0];
      assert s.tarjan[0] in s.tarjan;
    }
  }

  lemma AddReachesLow(g: Graph, s: Search, c: nat, n: nat)
    requires c < |s.marks| && c !in s.tarjan && (n == c || (n in s.tarjan && ReachesLow(g, s, n)))
    ensures ReachesLow(g, AddNode(s, c), n)
  {
    var t := AddNode(s, c);
    AddNodeEffects(s, c);
    assert Reaches(g, c, c);
    hide AddNode, Reaches, Index, Low;
    if n == c {
      assert c in t.tarjan && Index(t, c) == Low(t, c);
    } else {
      var y :| y in s.tarjan && Index(s, y) == Low(s, n) && Reaches(g, n, y);
      assert SameMark(s, t, n) && SameMark(s, t, y) && y in t.tarjan && Index(t, y) == Low(t, n);
    }
  }

  /** Reaching the new node from the whole stack keeps the stack connected. */
  lemma AddConnected(g: Graph, s: Search, c: nat)
    requires Stacks(g, s) && Connected(g, s) && c < |g| && c !in s.tarjan
    requires forall u :: u in s.tarjan ==> Reaches(g, u, c)
    ensures Connected(g, AddNode(s, c))
  {
    var t := AddNode(s, c);
    AddNodeEffects(s, c);
    assert Reaches(g, c, c);
    hide AddNode, Reaches, Index, Low, ReachesLow;
    forall n | n in t.tarjan ensures ReachesLow(g, t, n) {
      AddReachesLow(g, s, c, n);
    }
    forall i, j | 0 <= i <= j < |t.tarjan| ensures Reaches(g, t.tarjan[i], t.tarjan[j]) {
      if j == |s.tarjan| && i < j { assert t.tarjan[i] in s.tarjan; }
    }
    forall i | 0 <= i < |t.control| - 1 ensures Reaches(g, t.control[i], t.control[i + 1]) {
      if i + 1 == |s.control| { assert t.control[i] in s.control; }
    }
  }

  /** Starting a search: the node may have been completed by an earlier search. */
  lemma StartKeeps(g: Graph, s: Search, n: nat, done: seq<nat>, clean: bool)
    requires Inv(g, s, done, clean) && s.tarjan == [] && s.control == [] && n < |g|
    ensures Inv(g, AddNode(s, n), done, clean)
  {
    var t := AddNode(s, n);
    AddStacks(g, s, n);
    AddStatuses(g, s, n, done);
    AddLowLinks(g, s, n);
    AddConnected(g, s, n);
    if clean {
      StartHandled(g, s, n, done);
    }
  }

  lemma StartHandled(g: Graph, s: Search, n: nat, done: seq<nat>)
    requires Statuses(g, s, done) && |s.marks| == |g| && ChildrenFirst(g, done)
    requires s.tarjan == [] && s.control == [] && n < |g|
    ensures ChildrenHandled(g, AddNode(s, n), done)
  {
    var t := AddNode(s, n);
    AddNodeEffects(s, n);
    forall k: nat | k < Proc(t, n) && k < |g[n]| ensures Handled(t, done, n, g[n][k]) {
      var i :| 0 <= i < |done| && done[i] == n;
      assert g[done[i]][k] in done[..i];
    }
  }

  /** The top of the control stack has an unvisited child c. */
  ghost predicate AtChild(g: Graph, s: Search, c: nat) {
    && s.control != [] && Last(s.control) < |g| && |s.marks| == |g|
    && Proc(s, Last(s.control)) < |g[Last(s.control)]|
    && c == g[Last(s.control)][Proc(s, Last(s.control))]
  }

  /** Visiting an unseen child. */
  function Visit(s: Search, c: nat): Search
    requires s.control != [] && Last(s.control) < |s.marks| && c < |s.marks|
  {
    AddNode(Advance(s), c)
  }

  lemma VisitEffects(s: Search, c: nat)
    requires s.control != [] && Last(s.control) < |s.marks| && c < |s.marks| && c != Last(s.control)
    ensures var t := Visit(s, c);
            && |t.marks| == |s.marks| && t.control == s.control + [c] && t.tarjan == s.tarjan + [c]
            && (forall n: nat :: n != c ==> SameMark(s, t, n))
            && (forall n: nat :: Proc(t, n) == if n == Last(s.control) then Proc(s, n) + 1 else Proc(s, n))
  {
    AdvanceEffects(s);
    AddNodeEffects(Advance(s), c);
  }

  lemma VisitHandled(g: Graph, s: Search, c: nat, done: seq<nat>)
    requires ValidGraph(g) && Stacks(g, s) && Statuses(g, s, done) && ChildrenHandled(g, s, done)
    requires AtChild(g, s, c) && c < |g| && Status(s, c) == Unseen
    ensures ChildrenHandled(g, Visit(s, c), done)
  {
    var t := Visit(s, c);
    var top := Last(s.control);
    assert top in s.control && c !in s.tarjan && Proc(s, c) == 0;
    VisitEffects(s, c);
    hide Visit, Index, Low, Proc;
    forall n, k: nat | n in t.tarjan && n < |g| && k < Proc(t, n) && k < |g[n]|
      ensures Handled(t, done, n, g[n][k])
    {
      var d := g[n][k];
      if n == top && k == Proc(s, top) {
        assert t.control[|s.control| - 1] == n && t.control[|s.control|] == d;
      } else {
        assert SameMark(s, t, n) && Handled(s, done, n, d);
        if d in s.tarjan { assert SameMark(s, t, d); }
        if d !in done && !(d in s.tarjan && Low(s, n) <= Index(s, d)) {
          var i :| 0 <= i < |s.control| - 1 && s.control[i] == n && s.control[i + 1] == d;
          assert t.control[i] == n && t.control[i + 1] == d;
        }
      }
    }
  }

  /** Stacks and index marks decide the stack invariants; progress is not part of them. */
  ghost predicate SameStacks(s: Search, t: Search) {
    && |t.marks| == |s.marks| && t.index == s.index && t.control == s.control && t.tarjan == s.tarjan
    && (forall n: nat :: Index(t, n) == Index(s, n))
  }

  lemma SameStacksKeep(g: Graph, s: Search, t: Search)
    requires Stacks(g, s) && SameStacks(s, t)
    ensures Stacks(g, t)
  {
    hide Index;
  }

  lemma ReachesLowSame(g: Graph, s: Search, t: Search, n: nat)
    requires SameStacks(s, t) && ReachesLow(g, s, n) && Low(t, n) == Low(s, n)
    ensures ReachesLow(g, t, n)
  {
    hide Reaches, Index, Low;
    var y :| y in s.tarjan && Index(s, y) == Low(s, n) && Reaches(g, n, y);
    assert y in t.tarjan && Index(t, y) == Low(t, n);
  }

  lemma ConnectedSame(g: Graph, s: Search, t: Search)
    requires Connected(g, s) && SameStacks(s, t)
    requires forall n :: n in s.tarjan ==> ReachesLow(g, t, n)
    ensures Connected(g, t)
  {
    hide Reaches, ReachesLow;
  }

  lemma LowLinksSame(g: Graph, s: Search, t: Search)
    requires LowLinks(g, s) && SameStacks(s, t)
    requires forall n: nat :: Low(t, n) <= Low(s, n) && (n in s.tarjan ==> Index(s, s.tarjan[0]) <= Low(t, n))
    requires forall n: nat :: n in s.tarjan && n !in s.control ==> Proc(t, n) == Proc(s, n)
    requires forall n: nat :: Proc(s, n) <= Proc(t, n) && (Low(t, n) < Low(s, n) ==> 0 < Proc(t, n))
    ensures LowLinks(g, t)
  {
    hide Index, Low, Proc;
  }

  /** Moving past a child keeps everything but what must still be known of that child. */
  lemma AdvanceKeeps(g: Graph, s: Search, c: nat, done: seq<nat>)
    requires ValidGraph(g) && Stacks(g, s) && Statuses(g, s, done) && LowLinks(g, s) && Connected(g, s)
    requires AtChild(g, s, c)
    ensures Stacks(g, Advance(s)) && Statuses(g, Advance(s), done) && LowLinks(g, Advance(s))
      && Connected(g, Advance(s))
  {
    var t := Advance(s);
    assert Last(s.control) in s.control;
    AdvanceEffects(s);
    AdvanceStatuses(g, s, c, done);
    forall n: nat ensures Index(t, n) == Index(s, n) && Low(t, n) == Low(s, n) {
      assert SameMark(s, t, n);
    }
    SameStacksKeep(g, s, t);
    LowLinksSame(g, s, t);
    forall n | n in s.tarjan ensures ReachesLow(g, t, n) {
      assert ReachesLow(g, s, n);
      ReachesLowSame(g, s, t, n);
    }
    ConnectedSame(g, s, t);
  }

  lemma AdvanceStatuses(g: Graph, s: Search, c: nat, done: seq<nat>)
    requires Stacks(g, s) && Statuses(g, s, done) && AtChild(g, s, c)
    ensures Statuses(g, Advance(s), done) && Last(s.control) !in done
  {
    var t := Advance(s);
    var top := Last(s.control);
    assert top in s.control && top in s.tarjan;
    AdvanceEffects(s);
    assert top !in done;
    hide Advance, Status, Proc, Index, Low;
    forall n: nat ensures Status(t, n) == Status(s, n) {
      assert SameMark(s, t, n);
    }
    assert Status(s, top) == InStack;
  }

  lemma VisitKeeps(g: Graph, s: Search, c: nat, done: seq<nat>, clean: bool)
    requires Inv(g, s, done, clean) && AtChild(g, s, c) && c < |g| && Status(s, c) == Unseen
    ensures Inv(g, Visit(s, c), done, clean)
  {
    var a := Advance(s);
    var top := Last(s.control);
    AdvanceEffects(s);
    AdvanceKeeps(g, s, c, done);
    assert Status(a, c) == Unseen;
    assert c !in a.tarjan;
    forall u | u in a.tarjan ensures Reaches(g, u, c) {
      ReachesTop(g, s, u);
      ReachesChild(g, u, top, Proc(s, top));
    }
    if clean { VisitHandled(g, s, c, done); }
    hide Stacks, Statuses, LowLinks, Connected, Reaches, Advance, ChildrenHandled, ChildrenFirst;
    AddStacks(g, a, c);
    AddStatuses(g, a, c, done);
    AddLowLinks(g, a, c);
    AddConnected(g, a, c);
  }

  /** Moving past a child on the stack lowers the low link to the child's index. */
  function BackEdge(s: Search, c: nat): Search
    requires s.control != [] && Last(s.control) < |s.marks| && c < |s.marks|
  {
    UpdateLowLink(Advance(s), Last(s.control), s.marks[c].index)
  }

  lemma LowerEffects(s: Search, n: nat, i: int)
    requires n < |s.marks|
    ensures var t := UpdateLowLink(s, n, i);
            && |t.marks| == |s.marks| && t.index == s.index && t.control == s.control && t.tarjan == s.tarjan
            && (forall m: nat :: m != n ==> SameMark(s, t, m))
            && (forall m: nat :: Proc(t, m) == Proc(s, m) && Index(t, m) == Index(s, m) && Status(t, m) == Status(s, m))
            && Low(t, n) == if Low(s, n) < i then Low(s, n) else i
  {
  }

  lemma LowerStatuses(g: Graph, s: Search, n: nat, i: int, done: seq<nat>)
    requires Statuses(g, s, done) && n < |s.marks|
    ensures Statuses(g, UpdateLowLink(s, n, i), done)
  {
    LowerEffects(s, n, i);
    hide UpdateLowLink, Status, Proc;
  }

  lemma LowerLowLinks(g: Graph, s: Search, n: nat, y: nat)
    requires Stacks(g, s) && LowLinks(g, s) && n in s.tarjan && y in s.tarjan && 0 < Proc(s, n)
    ensures n < |s.marks| && LowLinks(g, UpdateLowLink(s, n, Index(s, y)))
  {
    assert n < |s.marks|;
    var t := UpdateLowLink(s, n, Index(s, y));
    LowerEffects(s, n, Index(s, y));
    var p :| 0 <= p < |s.tarjan| && s.tarjan[p] == y;
    assert Index(s, s.tarjan[0]) <= Index(s, y);
    forall m: nat | m != n ensures Low(t, m) == Low(s, m) {
      assert SameMark(s, t, m);
    }
    hide UpdateLowLink, Index, Low, Proc;
    LowLinksSame(g, s, t);
  }

  lemma LowerConnected(g: Graph, s: Search, n: nat, y: nat)
    requires Stacks(g, s) && Connected(g, s) && n in s.tarjan && y in s.tarjan && Reaches(g, n, y)
    ensures n < |s.marks| && Connected(g, UpdateLowLink(s, n, Index(s, y)))
  {
    assert n < |s.marks|;
    var t := UpdateLowLink(s, n, Index(s, y));
    LowerEffects(s, n, Index(s, y));
    hide UpdateLowLink, Reaches, Index, Low, Status, Proc;
    forall m | m in s.tarjan ensures ReachesLow(g, t, m) {
      assert ReachesLow(g, s, m);
      if m == n && Low(t, n) != Low(s, n) {
        assert y in t.tarjan && Index(t, y) == Low(t, n);
      } else {
        assert m != n ==> SameMark(s, t, m);
        ReachesLowSame(g, s, t, m);
      }
    }
    ConnectedSame(g, s, t);
  }

  /** Lowering the low link of a stack node to the index of a stack node it reaches. */
  lemma LowerKeeps(g: Graph, s: Search, n: nat, y: nat, done: seq<nat>)
    requires Stacks(g, s) && Statuses(g, s, done) && LowLinks(g, s) && Connected(g, s)
    requires n in s.tarjan && y in s.tarjan && Reaches(g, n, y) && 0 < Proc(s, n)
    ensures n < |s.marks| && var t := UpdateLowLink(s, n, Index(s, y));
            Stacks(g, t) && Statuses(g, t, done) && LowLinks(g, t) && Connected(g, t)
  {
    assert n < |s.marks|;
    LowerEffects(s, n, Index(s, y));
    SameStacksKeep(g, s, UpdateLowLink(s, n, Index(s, y)));
    LowerStatuses(g, s, n, Index(s, y), done);
    LowerLowLinks(g, s, n, y);
    LowerConnected(g, s, n, y);
  }

  lemma LowerHandled(g: Graph, s: Search, n: nat, i: int, done: seq<nat>)
    requires ChildrenHandled(g, s, done) && n < |s.marks|
    ensures ChildrenHandled(g, UpdateLowLink(s, n, i), done)
  {
    var t := UpdateLowLink(s, n, i);
    LowerEffects(s, n, i);
    hide UpdateLowLink, Index, Low, Status, Proc;
    forall m, k: nat | m in t.tarjan && m < |g| && k < Proc(t, m) && k < |g[m]|
      ensures Handled(t, done, m, g[m][k])
    {
      assert Handled(s, done, m, g[m][k]);
      if m != n { assert SameMark(s, t, m); }
    }
  }

  lemma BackEdgeKeeps(g: Graph, s: Search, c: nat, done: seq<nat>, clean: bool)
    requires Inv(g, s, done, clean) && AtChild(g, s, c) && c < |g| && Status(s, c) == InStack
    ensures Inv(g, BackEdge(s, c), done, clean)
  {
    var a, top := Advance(s), Last(s.control);
    AdvanceEffects(s);
    assert SameMark(s, a, c);
    assert Index(s, c) == s.marks[c].index;
    assert top in s.control && top in s.tarjan && c in s.tarjan;
    assert Reaches(g, top, c) by { ReachesChild(g, top, top, Proc(s, top)); }
    if clean { BackEdgeHandled(g, s, c, done); }
    hide Stacks, Statuses, LowLinks, Connected, Reaches, ChildrenHandled, ChildrenFirst, Advance, UpdateLowLink;
    AdvanceKeeps(g, s, c, done);
    LowerKeeps(g, a, top, c, done);
  }

  lemma BackEdgeHandled(g: Graph, s: Search, c: nat, done: seq<nat>)
    requires ValidGraph(g) && Stacks(g, s) && ChildrenHandled(g, s, done)
    requires AtChild(g, s, c) && c < |g| && c in s.tarjan
    ensures ChildrenHandled(g, BackEdge(s, c), done)
  {
    var a, t, top := Advance(s), BackEdge(s, c), Last(s.control);
    AdvanceEffects(s);
    LowerEffects(a, top, s.marks[c].index);
    assert Index(s, c) == s.marks[c].index;
    hide Advance, BackEdge, UpdateLowLink, Index, Low, Status, Proc;
    forall n, k: nat | n in t.tarjan && n < |g| && k < Proc(t, n) && k < |g[n]|
      ensures Handled(t, done, n, g[n][k])
    {
      assert SameMark(s, a, n) && SameMark(s, a, g[n][k]) && SameMark(s, a, c);
      if n != top { assert SameMark(a, t, n); }
      if !(n == top && k == Proc(s, top)) { assert Handled(s, done, n, g[n][k]); }
    }
  }

  /** Moving past a completed child changes nothing else. */
  lemma SkipKeeps(g: Graph, s: Search, c: nat, done: seq<nat>, clean: bool)
    requires Inv(g, s, done, clean) && AtChild(g, s, c) && c < |g| && Status(s, c) == Complete
    ensures Inv(g, Advance(s), done, clean)
  {
    AdvanceKeeps(g, s, c, done);
    if clean {
      assert c in done;
      SkipHandled(g, s, c, done);
    }
  }

  lemma SkipHandled(g: Graph, s: Search, c: nat, done: seq<nat>)
    requires |s.marks| == |g| && ChildrenHandled(g, s, done) && AtChild(g, s, c) && c in done
    ensures ChildrenHandled(g, Advance(s), done)
  {
    var t, top := Advance(s), Last(s.control);
    AdvanceEffects(s);
    hide Advance, Index, Low, Status, Proc;
    forall n, k: nat | n in t.tarjan && n < |g| && k < Proc(t, n) && k < |g[n]|
      ensures Handled(t, done, n, g[n][k])
    {
      assert SameMark(s, t, n) && SameMark(s, t, g[n][k]);
      if !(n == top && k == Proc(s, top)) { assert Handled(s, done, n, g[n][k]); }
    }
  }

  // ---------- finishing the top of the control stack ----------

  /** The top of the control stack has no child left to visit. */
  ghost predicate AtEnd(g: Graph, s: Search) {
    s.control != [] && Last(s.control) < |g| && |s.marks| == |g| && Proc(s, Last(s.control)) == |g[Last(s.control)]|
  }

  function DropControl(s: Search): Search
    requires s.control != []
  {
    s.(control := s.control[..|s.control| - 1])
  }

  lemma DropEffects(s: Search)
    requires s.control != []
    ensures var t := DropControl(s);
            && |t.marks| == |s.marks| && t.index == s.index && t.tarjan == s.tarjan
            && s.control == t.control + [Last(s.control)]
            && (forall n: nat :: SameMark(s, t, n) && Proc(t, n) == Proc(s, n))
  {
  }

  /** What holds at a finished node that is not the root of its component. */
  lemma NotRoot(g: Graph, s: Search)
    requires Stacks(g, s) && LowLinks(g, s) && s.control != []
    requires Low(s, Last(s.control)) < Index(s, Last(s.control))
    ensures Last(s.control) in s.tarjan && |s.control| >= 2
    ensures s.control[|s.control| - 2] in s.tarjan && s.control[|s.control| - 2] != Last(s.control)
    ensures Index(s, s.control[|s.control| - 2]) < Index(s, Last(s.control))
    ensures Low(s, s.control[|s.control| - 2]) <= Index(s, s.control[|s.control| - 2])
    ensures 0 < Proc(s, s.control[|s.control| - 2])
  {
    hide Index, Low, Proc;
    var n := Last(s.control);
    assert n in s.control && n in s.tarjan;
    assert s.tarjan[0] == s.control[0];
    assert |s.control| >= 2;
    assert s.control[|s.control| - 2] in s.control;
  }

  lemma DropStacks(g: Graph, s: Search)
    requires Stacks(g, s) && |s.control| >= 2
    ensures Stacks(g, DropControl(s))
  {
    var t := DropControl(s);
    DropEffects(s);
    assert t.control[0] == s.control[0];
    forall m: nat ensures Index(t, m) == Index(s, m) {
      assert SameMark(s, t, m);
    }
    hide DropControl, Index;
    forall i, j | 0 <= i < j < |t.control| ensures Index(t, t.control[i]) < Index(t, t.control[j]) {
      assert t.control[i] == s.control[i] && t.control[j] == s.control[j];
    }
  }

  lemma DropStatuses(g: Graph, s: Search, done: seq<nat>)
    requires Statuses(g, s, done) && s.control != []
    ensures Statuses(g, DropControl(s), done)
  {
    var t := DropControl(s);
    DropEffects(s);
    forall m: nat ensures Status(t, m) == Status(s, m) {
      assert SameMark(s, t, m);
    }
    hide DropControl, Status, Proc;
  }

  lemma DropConnected(g: Graph, s: Search)
    requires Connected(g, s) && s.control != []
    ensures Connected(g, DropControl(s))
  {
    var t := DropControl(s);
    DropEffects(s);
    hide DropControl, Index, Low, Reaches;
    forall m | m in t.tarjan ensures ReachesLow(g, t, m) {
      assert ReachesLow(g, s, m);
      var y :| y in s.tarjan && Index(s, y) == Low(s, m) && Reaches(g, m, y);
      assert SameMark(s, t, m) && SameMark(s, t, y);
      assert y in t.tarjan && Index(t, y) == Low(t, m);
    }
    forall i | 0 <= i < |t.control| - 1 ensures Reaches(g, t.control[i], t.control[i + 1]) {
      assert t.control[i] == s.control[i] && t.control[i + 1] == s.control[i + 1];
    }
  }

  /** A finished node whose low link is below its index stays on the Tarjan stack. */
  lemma DropKeeps(g: Graph, s: Search, done: seq<nat>)
    requires Stacks(g, s) && Statuses(g, s, done) && LowLinks(g, s) && Connected(g, s) && AtEnd(g, s)
    requires Low(s, Last(s.control)) < Index(s, Last(s.control))
    ensures var t := DropControl(s); Stacks(g, t) && Statuses(g, t, done) && LowLinks(g, t) && Connected(g, t)
  {
    NotRoot(g, s);
    DropStacks(g, s);
    DropStatuses(g, s, done);
    DropLowLinks(g, s);
    DropConnected(g, s);
  }

  lemma DropLowLinks(g: Graph, s: Search)
    requires Stacks(g, s) && LowLinks(g, s) && AtEnd(g, s) && Low(s, Last(s.control)) < Index(s, Last(s.control))
    ensures LowLinks(g, DropControl(s))
  {
    var t, n := DropControl(s), Last(s.control);
    DropEffects(s);
    forall m: nat ensures Index(t, m) == Index(s, m) && Low(t, m) == Low(s, m) {
      assert SameMark(s, t, m);
    }
    hide DropControl, Index, Low, Proc;
    forall i | 0 <= i < |t.control| - 1 ensures 0 < Proc(t, t.control[i]) {
      assert t.control[i] == s.control[i];
    }
  }

  lemma DropHandled(g: Graph, s: Search, done: seq<nat>)
    requires Stacks(g, s) && ChildrenHandled(g, s, done) && |s.control| >= 2
    requires Low(s, s.control[|s.control| - 2]) <= Index(s, Last(s.control))
    ensures ChildrenHandled(g, DropControl(s), done)
  {
    var t, n := DropControl(s), Last(s.control);
    assert n in s.control && n in s.tarjan;
    DropEffects(s);
    hide DropControl, Index, Low, Proc;
    forall m, k: nat | m in t.tarjan && m < |g| && k < Proc(t, m) && k < |g[m]|
      ensures Handled(t, done, m, g[m][k])
    {
      var c := g[m][k];
      assert SameMark(s, t, m) && SameMark(s, t, c) && Handled(s, done, m, c);
      if c !in done && !(c in s.tarjan && Low(s, m) <= Index(s, c)) {
        var i :| 0 <= i < |s.control| - 1 && s.control[i] == m && s.control[i + 1] == c;
        if i < |s.control| - 2 {
          assert t.control[i] == m && t.control[i + 1] == c;
        }
      }
    }
  }

  /** The low link of a finished node is the index of a stack node its parent reaches. */
  lemma ParentReachesLow(g: Graph, s: Search) returns (y: nat)
    requires Stacks(g, s) && LowLinks(g, s) && Connected(g, s) && s.control != []
    requires Low(s, Last(s.control)) < Index(s, Last(s.control))
    ensures y in s.tarjan && Index(s, y) == Low(s, Last(s.control))
    ensures |s.control| >= 2 && Reaches(g, s.control[|s.control| - 2], y)
  {
    NotRoot(g, s);
    hide Index, Low;
    var n, p := Last(s.control), s.control[|s.control| - 2];
    assert Reaches(g, s.control[|s.control| - 2], s.control[|s.control| - 2 + 1]);
    assert ReachesLow(g, s, n);
    y :| y in s.tarjan && Index(s, y) == Low(s, n) && Reaches(g, n, y);
    ReachesTransitive(g, p, n, y);
  }

  lemma PopIsLowerThenDrop(s: Search)
    requires |s.control| >= 2 && forall i :: 0 <= i < |s.control| ==> s.control[i] < |s.marks|
    ensures var p := s.control[|s.control| - 2];
            PopControl(s) == DropControl(UpdateLowLink(s, p, Low(s, Last(s.control))))
  {
    assert Last(s.control[..|s.control| - 1]) == s.control[|s.control| - 2];
  }

  lemma ControlInRange(g: Graph, s: Search)
    requires Stacks(g, s)
    ensures forall i :: 0 <= i < |s.control| ==> s.control[i] < |s.marks|
  {
    forall i | 0 <= i < |s.control| ensures s.control[i] < |s.marks| {
      assert s.control[i] in s.control;
    }
  }

  /** getLoops, a finished node that is not the root of its component. */
  lemma FinishKeeps(g: Graph, s: Search, done: seq<nat>, clean: bool)
    requires Inv(g, s, done, clean) && AtEnd(g, s)
    requires Low(s, Last(s.control)) < Index(s, Last(s.control))
    ensures forall i :: 0 <= i < |s.control| ==> s.control[i] < |s.marks|
    ensures Inv(g, PopControl(s), done, clean)
  {
    ControlInRange(g, s);
    NotRoot(g, s);
    var n, p := Last(s.control), s.control[|s.control| - 2];
    var y := ParentReachesLow(g, s);
    var l := UpdateLowLink(s, p, Low(s, n));
    LowerKeeps(g, s, p, y, done);
    LowerEffects(s, p, Low(s, n));
    assert SameMark(s, l, n);
    PopIsLowerThenDrop(s);
    if clean { LowerHandled(g, s, p, Low(s, n), done); }
    hide Stacks, Statuses, LowLinks, Connected, ChildrenHandled, ChildrenFirst, UpdateLowLink, PopControl, DropControl;
    DropKeeps(g, l, done);
    if clean { DropHandled(g, l, done); }
  }

  // ---------- completing a component ----------

  /** The root of a component: the state after its nodes left the stack. */
  function PopComponent(s: Search, p: nat): Search
    requires s.control != [] && p <= |s.tarjan|
  {
    CompleteFrom(DropControl(s), p)
  }

  /** The root's low link does not lower its parent's. */
  lemma RootPop(g: Graph, s: Search, p: nat)
    requires Stacks(g, s) && LowLinks(g, s) && s.control != [] && p <= |s.tarjan|
    requires Low(s, Last(s.control)) == Index(s, Last(s.control))
    ensures forall i :: 0 <= i < |s.control| ==> s.control[i] < |s.marks|
    ensures CompleteFrom(PopControl(s), p) == PopComponent(s, p)
  {
    ControlInRange(g, s);
    if |s.control| >= 2 {
      var q := s.control[|s.control| - 2];
      assert q in s.control && q in s.tarjan;
      assert Index(s, q) < Index(s, s.control[|s.control| - 1]);
      PopIsLowerThenDrop(s);
      assert UpdateLowLink(s, q, Low(s, Last(s.control))) == s;
    }
  }

  lemma ComponentEffects(s: Search, p: nat)
    requires s.control != [] && p <= |s.tarjan|
    ensures var t := PopComponent(s, p);
            && |t.marks| == |s.marks| && t.index == s.index && t.tarjan == s.tarjan[..p]
            && s.control == t.control + [Last(s.control)]
            && (forall n: nat :: Index(t, n) == Index(s, n) && Low(t, n) == Low(s, n) && Proc(t, n) == Proc(s, n))
            && (forall n: nat :: n < |s.marks| ==>
                  Status(t, n) == if n in s.tarjan[p..] then Complete else Status(s, n))
  {
  }

  /** Position p holds the root of the component on top of the control stack. */
  ghost predicate RootAt(g: Graph, s: Search, p: int) {
    && s.control != [] && 0 <= p < |s.tarjan| && s.tarjan[p] == Last(s.control)
    && AtEnd(g, s) && Low(s, Last(s.control)) == Index(s, Last(s.control))
  }

  lemma InPrefix(s: Search, g: Graph, p: nat, n: nat)
    requires Stacks(g, s) && p < |s.tarjan| && n in s.tarjan
    ensures n in s.tarjan[..p] <==> Index(s, n) < Index(s, s.tarjan[p])
    ensures n in s.tarjan[p..] <==> Index(s, n) >= Index(s, s.tarjan[p])
  {
    hide Index;
    var i :| 0 <= i < |s.tarjan| && s.tarjan[i] == n;
    if i < p {
      assert s.tarjan[..p][i] == n;
      forall j | p <= j < |s.tarjan| ensures s.tarjan[j] != n {
        assert Index(s, s.tarjan[i]) < Index(s, s.tarjan[j]);
      }
    } else {
      assert s.tarjan[p..][i - p] == n;
      forall j | 0 <= j < p ensures s.tarjan[j] != n {
        assert Index(s, s.tarjan[j]) < Index(s, s.tarjan[i]);
      }
    }
  }

  lemma BelowTop(g: Graph, s: Search, n: nat)
    requires Stacks(g, s) && s.control != [] && n in s.control
    ensures n == Last(s.control) || Index(s, n) < Index(s, Last(s.control))
  {
    hide Index;
    var i :| 0 <= i < |s.control| && s.control[i] == n;
  }

  lemma ComponentStacks(g: Graph, s: Search, p: nat)
    requires Stacks(g, s) && RootAt(g, s, p)
    ensures Stacks(g, PopComponent(s, p))
  {
    var t, n := PopComponent(s, p), Last(s.control);
    ComponentEffects(s, p);
    hide PopComponent, Index, Low, Proc;
    forall m | m in t.control ensures m in t.tarjan {
      var i :| 0 <= i < |t.control| && t.control[i] == m;
      assert s.control[i] == m && m in s.control && Index(s, s.control[i]) < Index(s, s.control[|s.control| - 1]);
      InPrefix(s, g, p, m);
    }
    forall i, j | 0 <= i < j < |t.control| ensures Index(t, t.control[i]) < Index(t, t.control[j]) {
      assert t.control[i] == s.control[i] && t.control[j] == s.control[j];
    }
    if t.tarjan != [] {
      assert t.tarjan[0] == s.tarjan[0];
      assert Index(s, s.tarjan[0]) < Index(s, s.tarjan[p]);
      assert t.control[0] == s.control[0];
    }
  }

  /** The nodes of the component have no child left to visit. */
  lemma ComponentExhausted(g: Graph, s: Search, p: nat, m: nat)
    requires Stacks(g, s) && LowLinks(g, s) && RootAt(g, s, p) && m in s.tarjan[p..]
    ensures m in s.tarjan && m !in s.tarjan[..p] && m < |g| && Proc(s, m) == |g[m]|
  {
    hide Index, Low, Proc;
    assert m in s.tarjan;
    InPrefix(s, g, p, m);
    if m in s.control { BelowTop(g, s, m); }
  }

  lemma ComponentStatus(g: Graph, s: Search, p: nat, done: seq<nat>, n: nat)
    requires Stacks(g, s) && Statuses(g, s, done) && LowLinks(g, s) && RootAt(g, s, p) && n < |g|
    ensures var t, d := PopComponent(s, p), done + s.tarjan[p..];
            && (Status(t, n) == InStack <==> n in t.tarjan) && Proc(t, n) <= |g[n]|
            && (Status(t, n) == Complete ==> n in d) && (Status(t, n) == Unseen ==> Proc(t, n) == 0 && n !in d)
            && (n in d ==> Proc(t, n) == |g[n]|)
  {
    ComponentEffects(s, p);
    if n in s.tarjan[p..] { ComponentExhausted(g, s, p, n); }
    hide PopComponent, Status, Proc, LowLinks, Stacks, RootAt;
    assert s.tarjan == s.tarjan[..p] + s.tarjan[p..];
  }

  lemma ComponentStatuses(g: Graph, s: Search, p: nat, done: seq<nat>)
    requires Stacks(g, s) && Statuses(g, s, done) && LowLinks(g, s) && RootAt(g, s, p)
    ensures Statuses(g, PopComponent(s, p), done + s.tarjan[p..])
  {
    var t, d := PopComponent(s, p), done + s.tarjan[p..];
    forall n | n in d ensures n < |g| {
      if n in s.tarjan[p..] { ComponentExhausted(g, s, p, n); }
    }
    hide PopComponent, Status, Proc, LowLinks, Stacks, RootAt;
    forall n: nat | n < |g|
      ensures (Status(t, n) == InStack <==> n in t.tarjan) && Proc(t, n) <= |g[n]|
      ensures (Status(t, n) == Complete ==> n in d) && (Status(t, n) == Unseen ==> Proc(t, n) == 0 && n !in d)
      ensures n in d ==> Proc(t, n) == |g[n]|
    {
      ComponentStatus(g, s, p, done, n);
    }
  }

  lemma ComponentRest(g: Graph, s: Search, p: nat)
    requires Stacks(g, s) && RootAt(g, s, p)
    ensures var t := PopComponent(s, p);
            && (forall m :: m in t.tarjan ==> m in s.tarjan && m != Last(s.control))
            && (forall m :: m in t.tarjan && m !in t.control ==> m !in s.control)
  {
    var t := PopComponent(s, p);
    ComponentEffects(s, p);
    hide PopComponent, Index;
    forall m | m in t.tarjan ensures m in s.tarjan && m != Last(s.control) {
      assert m in s.tarjan;
      InPrefix(s, g, p, m);
    }
  }

  lemma ComponentLowLinks(g: Graph, s: Search, p: nat)
    requires Stacks(g, s) && LowLinks(g, s) && RootAt(g, s, p)
    ensures LowLinks(g, PopComponent(s, p))
  {
    var t := PopComponent(s, p);
    ComponentEffects(s, p);
    hide PopComponent, Index, Low, Proc, Stacks, RootAt;
    forall n | n in t.tarjan
      ensures Index(t, t.tarjan[0]) <= Low(t, n) <= Index(t, n)
      ensures Low(t, n) < Index(t, n) ==> 0 < Proc(t, n)
      ensures n !in t.control && n < |g| ==> Low(t, n) < Index(t, n) && Proc(t, n) == |g[n]|
    {
      ComponentLowLink(g, s, p, n);
    }
    ComponentControl(g, s, p);
  }

  lemma ComponentControl(g: Graph, s: Search, p: nat)
    requires Stacks(g, s) && LowLinks(g, s) && RootAt(g, s, p)
    ensures var t := PopComponent(s, p); forall i :: 0 <= i < |t.control| - 1 ==> 0 < Proc(t, t.control[i])
  {
    var t := PopComponent(s, p);
    ComponentEffects(s, p);
    hide PopComponent, Index, Low, Proc, Stacks, RootAt;
    forall i | 0 <= i < |t.control| - 1 ensures 0 < Proc(t, t.control[i]) {
      assert t.control[i] == s.control[i];
    }
  }

  lemma ComponentLowLink(g: Graph, s: Search, p: nat, n: nat)
    requires Stacks(g, s) && LowLinks(g, s) && RootAt(g, s, p) && n in PopComponent(s, p).tarjan
    ensures var t := PopComponent(s, p);
            && Index(t, t.tarjan[0]) <= Low(t, n) <= Index(t, n)
            && (Low(t, n) < Index(t, n) ==> 0 < Proc(t, n))
            && (n !in t.control && n < |g| ==> Low(t, n) < Index(t, n) && Proc(t, n) == |g[n]|)
  {
    var t := PopComponent(s, p);
    ComponentEffects(s, p);
    ComponentRest(g, s, p);
    hide PopComponent, Index, Low, Proc, Stacks, RootAt;
    assert t.tarjan[0] == s.tarjan[0] && n in s.tarjan;
  }

  lemma ComponentReachesLow(g: Graph, s: Search, p: nat, m: nat)
    requires Stacks(g, s) && LowLinks(g, s) && RootAt(g, s, p) && m in s.tarjan[..p] && ReachesLow(g, s, m)
    ensures ReachesLow(g, PopComponent(s, p), m)
  {
    var t := PopComponent(s, p);
    ComponentEffects(s, p);
    hide PopComponent, Index, Low, Reaches;
    assert m in s.tarjan;
    var y :| y in s.tarjan && Index(s, y) == Low(s, m) && Reaches(g, m, y);
    InPrefix(s, g, p, m);
    InPrefix(s, g, p, y);
    assert y in t.tarjan && Index(t, y) == Low(t, m);
  }

  lemma ComponentPath(g: Graph, s: Search, p: nat)
    requires Connected(g, s) && RootAt(g, s, p)
    ensures var c := PopComponent(s, p).control;
            forall i :: 0 <= i < |c| - 1 ==> Reaches(g, c[i], c[i + 1])
  {
    var t := PopComponent(s, p);
    ComponentEffects(s, p);
    hide PopComponent, Reaches;
    forall i | 0 <= i < |t.control| - 1 ensures Reaches(g, t.control[i], t.control[i + 1]) {
      assert t.control[i] == s.control[i] && t.control[i + 1] == s.control[i + 1];
    }
  }

  lemma ComponentOrder(g: Graph, s: Search, p: nat)
    requires Connected(g, s) && RootAt(g, s, p)
    ensures var c := PopComponent(s, p).tarjan;
            forall i, j :: 0 <= i <= j < |c| ==> Reaches(g, c[i], c[j])
  {
    ComponentEffects(s, p);
    hide PopComponent, Reaches, AtEnd, ReachesLow;
    var c := PopComponent(s, p).tarjan;
    forall i, j | 0 <= i <= j < |c| ensures Reaches(g, c[i], c[j]) {
      assert c[i] == s.tarjan[i] && c[j] == s.tarjan[j];
    }
  }

  lemma ComponentConnected(g: Graph, s: Search, p: nat)
    requires Stacks(g, s) && LowLinks(g, s) && Connected(g, s) && RootAt(g, s, p)
    ensures Connected(g, PopComponent(s, p))
  {
    hide PopComponent, Reaches, ReachesLow, Stacks, LowLinks;
    var t := PopComponent(s, p);
    ComponentPath(g, s, p);
    ComponentOrder(g, s, p);
    ComponentEffects(s, p);
    forall m | m in t.tarjan ensures ReachesLow(g, t, m) {
      assert m in s.tarjan;
      ComponentReachesLow(g, s, p, m);
    }
  }

  /** A component of one node: all its children were completed before it. */
  lemma SingletonChildren(g: Graph, s: Search, done: seq<nat>, k: nat)
    requires ValidGraph(g) && Stacks(g, s) && ChildrenHandled(g, s, done) && RootAt(g, s, |s.tarjan| - 1)
    requires k < |g[Last(s.control)]|
    ensures g[Last(s.control)][k] in done
  {
    hide Index, Low, Proc;
    var n := Last(s.control);
    assert n in s.tarjan;
    var c := g[n][k];
    assert Handled(s, done, n, c);
    assert c in s.tarjan ==> Index(s, c) < Index(s, n) by {
      if c in s.tarjan {
        var i :| 0 <= i < |s.tarjan| && s.tarjan[i] == c;
      }
    }
    forall i | 0 <= i < |s.control| - 1 ensures s.control[i] != n {
      assert Index(s, s.control[i]) < Index(s, s.control[|s.control| - 1]);
    }
  }

  lemma ComponentHandled(g: Graph, s: Search, p: nat, done: seq<nat>)
    requires Stacks(g, s) && ChildrenHandled(g, s, done) && RootAt(g, s, p)
    ensures ChildrenHandled(g, PopComponent(s, p), done + s.tarjan[p..])
  {
    var t, n := PopComponent(s, p), Last(s.control);
    ComponentEffects(s, p);
    assert s.tarjan == s.tarjan[..p] + s.tarjan[p..];
    assert s.tarjan[p..][0] == n;
    hide PopComponent, Index, Low, Proc;
    forall m, k: nat | m in t.tarjan && m < |g| && k < Proc(t, m) && k < |g[m]|
      ensures Handled(t, done + s.tarjan[p..], m, g[m][k])
    {
      var c := g[m][k];
      assert m in s.tarjan && Handled(s, done, m, c);
      if c !in done && !(c in s.tarjan && Low(s, m) <= Index(s, c)) {
        var i :| 0 <= i < |s.control| - 1 && s.control[i] == m && s.control[i + 1] == c;
        if i < |s.control| - 2 {
          assert t.control[i] == m && t.control[i + 1] == c;
        }
      }
    }
  }

  lemma SingletonFirst(g: Graph, s: Search, done: seq<nat>)
    requires ValidGraph(g) && Stacks(g, s) && RootAt(g, s, |s.tarjan| - 1)
    requires ChildrenHandled(g, s, done) && ChildrenFirst(g, done)
    ensures ChildrenFirst(g, done + [Last(s.control)])
  {
    var n := Last(s.control);
    var done' := done + [n];
    forall i, k | 0 <= i < |done'| && done'[i] < |g| && 0 <= k < |g[done'[i]]|
      ensures g[done'[i]][k] in done'[..i]
    {
      if i < |done| {
        assert done'[..i] == done[..i] && done'[i] == done[i];
      } else {
        SingletonChildren(g, s, done, k);
        assert done'[..i] == done;
      }
    }
  }

  /** getLoops, the root of a component; a component of several nodes is a loop. */
  lemma ComponentKeeps(g: Graph, s: Search, p: nat, done: seq<nat>, clean: bool)
    requires Inv(g, s, done, clean) && RootAt(g, s, p)
    ensures Inv(g, PopComponent(s, p), done + s.tarjan[p..], clean && |s.tarjan[p..]| == 1)
  {
    hide Stacks, Statuses, LowLinks, Connected, ChildrenHandled, ChildrenFirst, PopComponent;
    ComponentStacks(g, s, p);
    ComponentStatuses(g, s, p, done);
    ComponentLowLinks(g, s, p);
    ComponentConnected(g, s, p);
    if clean && |s.tarjan[p..]| == 1 {
      assert s.tarjan[p..] == [Last(s.control)];
      ComponentHandled(g, s, p, done);
      SingletonFirst(g, s, done);
    }
  }

  /** The newest node of a component of several nodes lies on a cycle and has children. */
  lemma ComponentIsLoop(g: Graph, s: Search, p: nat, done: seq<nat>)
    requires ValidGraph(g) && Stacks(g, s) && LowLinks(g, s) && Connected(g, s) && RootAt(g, s, p)
    requires |s.tarjan[p..]| > 1
    ensures Last(s.tarjan) < |g| && OnCycle(g, Last(s.tarjan)) && |g[Last(s.tarjan)]| > 0
    ensures s.tarjan[p] < |g| && s.tarjan[p] != Last(s.tarjan) && |g[s.tarjan[p]]| > 0
    ensures Reaches(g, s.tarjan[p], Last(s.tarjan)) && Reaches(g, Last(s.tarjan), s.tarjan[p])
  {
    var n, m := Last(s.control), Last(s.tarjan);
    assert m in s.tarjan && n in s.tarjan;
    ReachesTop(g, s, m);
    assert Reaches(g, s.tarjan[p], s.tarjan[|s.tarjan| - 1]);
    assert Index(s, n) < Index(s, m);
    if m in s.control { BelowTop(g, s, m); }
    HasChild(g, n, m);
  }

  lemma HasChild(g: Graph, u: nat, v: nat)
    requires u < |g| && u != v && Reaches(g, u, v)
    ensures |g[u]| > 0
  {
    if |g[u]| == 0 { assert ClosedIn(g, {u}); }
  }

  // ---------- components are completed once ----------

  /** Only a search that starts at a completed node has one on the stack, and nothing else. */
  ghost predicate Once(s: Search, done: seq<nat>) {
    forall n :: n in s.tarjan && n in done ==> |s.tarjan| == 1
  }

  /** While the top has a child left, no node of the stack has been completed. */
  lemma NoneDone(g: Graph, s: Search, c: nat, done: seq<nat>)
    requires Stacks(g, s) && Statuses(g, s, done) && Once(s, done) && AtChild(g, s, c)
    ensures forall n :: n in s.tarjan ==> n !in done
  {
    var top := Last(s.control);
    assert top in s.control && top in s.tarjan && top !in done;
    hide Index, Proc, Status;
    forall n | n in s.tarjan ensures n !in done {
      if |s.tarjan| == 1 { assert s.tarjan == [s.tarjan[0]]; }
    }
  }

  /** A component that is popped was not completed before, unless it is the start node alone. */
  lemma OncePopped(g: Graph, s: Search, p: nat, done: seq<nat>)
    requires Stacks(g, s) && Once(s, done) && p < |s.tarjan|
    ensures forall n :: n in s.tarjan[..p] ==> n !in done + s.tarjan[p..]
    ensures |s.tarjan[p..]| > 1 ==> s.tarjan[p] != Last(s.tarjan) && forall n :: n in s.tarjan[p..] ==> n !in done
  {
    hide Index;
    forall n | n in s.tarjan[..p] ensures n !in done + s.tarjan[p..] {
      assert n in s.tarjan;
      InPrefix(s, g, p, n);
    }
    assert forall n :: n in s.tarjan[p..] ==> n in s.tarjan;
    assert |s.tarjan[p..]| > 1 ==> Index(s, s.tarjan[p]) < Index(s, s.tarjan[|s.tarjan| - 1]);
  }

  // ---------- components are exact ----------

  /** A finished node that is still on the stack has passed its low link on to the control node below it. */
  ghost predicate Passed(s: Search) {
    forall m, i :: m in s.tarjan && m !in s.control && Owns(s, i, m) ==> Low(s, s.control[i]) <= Low(s, m)
  }

  /** The newest control node that is older than m is the i-th. */
  ghost predicate Owns(s: Search, i: int, m: nat) {
    && 0 <= i < |s.control| && Index(s, s.control[i]) < Index(s, m)
    && (i < |s.control| - 1 ==> Index(s, m) < Index(s, s.control[i + 1]))
  }

  /** The children of completed nodes are completed. */
  ghost predicate DoneClosed(g: Graph, done: seq<nat>) {
    forall n, k :: n in done && n < |g| && 0 <= k < |g[n]| ==> g[n][k] in done
  }

  /** What the search keeps beyond its invariant, loops or not. */
  ghost predicate Tight(g: Graph, s: Search, done: seq<nat>) {
    ChildrenHandled(g, s, done) && Passed(s) && DoneClosed(g, done)
  }

  lemma PassedSame(s: Search, t: Search)
    requires Passed(s) && SameStacks(s, t)
    requires forall n: nat :: n !in s.control ==> Low(t, n) == Low(s, n)
    requires forall n: nat :: Low(t, n) <= Low(s, n)
    ensures Passed(t)
  {
    hide Index, Low;
    forall m, i | m in t.tarjan && m !in t.control && Owns(t, i, m) ensures Low(t, t.control[i]) <= Low(t, m) {
      assert Owns(s, i, m);
    }
  }

  lemma AddPassed(g: Graph, s: Search, c: nat)
    requires Stacks(g, s) && Passed(s) && c < |g| && c !in s.tarjan
    ensures Passed(AddNode(s, c))
  {
    var t := AddNode(s, c);
    AddNodeEffects(s, c);
    hide AddNode, Index, Low, Proc, Status;
    forall m, i | m in t.tarjan && m !in t.control && Owns(t, i, m) ensures Low(t, t.control[i]) <= Low(t, m) {
      assert m in s.tarjan && m != c && SameMark(s, t, m);
      assert i < |s.control|;
      assert t.control[i] == s.control[i] && s.control[i] in s.control && SameMark(s, t, s.control[i]);
      if i < |s.control| - 1 {
        assert t.control[i + 1] == s.control[i + 1] && s.control[i + 1] in s.control
          && SameMark(s, t, s.control[i + 1]);
      }
      assert Owns(s, i, m);
    }
  }

  lemma StartTight(g: Graph, s: Search, n: nat, done: seq<nat>)
    requires Stacks(g, s) && Statuses(g, s, done) && Tight(g, s, done) && s.tarjan == [] && s.control == [] && n < |g|
    ensures Tight(g, AddNode(s, n), done)
  {
    var t := AddNode(s, n);
    AddNodeEffects(s, n);
    AddPassed(g, s, n);
    forall k: nat | k < Proc(t, n) && k < |g[n]| ensures Handled(t, done, n, g[n][k]) {
      assert n in done;
    }
  }

  /** Moving past a child keeps what finished nodes have passed on. */
  lemma AdvancePassed(s: Search)
    requires Passed(s) && s.control != [] && Last(s.control) < |s.marks|
    ensures Passed(Advance(s))
  {
    AdvanceEffects(s);
    hide Advance, Index, Low, Status, Proc;
    forall n: nat ensures Index(Advance(s), n) == Index(s, n) && Low(Advance(s), n) == Low(s, n) {
      assert SameMark(s, Advance(s), n);
    }
    PassedSame(s, Advance(s));
  }

  lemma LowerPassed(s: Search, n: nat, i: int)
    requires Passed(s) && n in s.control && n < |s.marks|
    ensures Passed(UpdateLowLink(s, n, i))
  {
    LowerEffects(s, n, i);
    hide UpdateLowLink, Index, Low, Status, Proc;
    forall m: nat ensures Low(UpdateLowLink(s, n, i), m) <= Low(s, m)
      && (m != n ==> Low(UpdateLowLink(s, n, i), m) == Low(s, m))
    {
      if m != n { assert SameMark(s, UpdateLowLink(s, n, i), m); }
    }
    PassedSame(s, UpdateLowLink(s, n, i));
  }

  lemma VisitTight(g: Graph, s: Search, c: nat, done: seq<nat>)
    requires ValidGraph(g) && Stacks(g, s) && Statuses(g, s, done) && Tight(g, s, done)
    requires AtChild(g, s, c) && c < |g| && Status(s, c) == Unseen
    ensures Tight(g, Visit(s, c), done)
  {
    VisitHandled(g, s, c, done);
    AdvancePassed(s);
    AdvanceEffects(s);
    var a := Advance(s);
    forall n: nat ensures Index(a, n) == Index(s, n) { assert SameMark(s, a, n); }
    SameStacksKeep(g, s, a);
    AddPassed(g, a, c);
  }

  lemma BackEdgeTight(g: Graph, s: Search, c: nat, done: seq<nat>)
    requires ValidGraph(g) && Stacks(g, s) && Statuses(g, s, done) && Tight(g, s, done)
    requires AtChild(g, s, c) && c < |g| && Status(s, c) == InStack
    ensures Tight(g, BackEdge(s, c), done)
  {
    BackEdgeHandled(g, s, c, done);
    AdvancePassed(s);
    AdvanceEffects(s);
    LowerPassed(Advance(s), Last(s.control), s.marks[c].index);
  }

  lemma SkipTight(g: Graph, s: Search, c: nat, done: seq<nat>)
    requires Stacks(g, s) && Statuses(g, s, done) && Tight(g, s, done)
    requires AtChild(g, s, c) && c < |g| && Status(s, c) == Complete
    ensures Tight(g, Advance(s), done)
  {
    SkipHandled(g, s, c, done);
    AdvancePassed(s);
  }

  lemma DifferentIndex(g: Graph, s: Search, m: nat, n: nat)
    requires Stacks(g, s) && m in s.tarjan && n in s.tarjan && m != n
    ensures Index(s, m) != Index(s, n)
  {
    hide Index;
    var i :| 0 <= i < |s.tarjan| && s.tarjan[i] == m;
    var j :| 0 <= j < |s.tarjan| && s.tarjan[j] == n;
    assert if i < j then Index(s, s.tarjan[i]) < Index(s, s.tarjan[j])
      else Index(s, s.tarjan[j]) < Index(s, s.tarjan[i]);
  }

  /** A node leaves the control stack once the one below has its low link. */
  lemma DropPassed(g: Graph, s: Search)
    requires Stacks(g, s) && Passed(s) && |s.control| >= 2
    requires Low(s, s.control[|s.control| - 2]) <= Low(s, Last(s.control))
    ensures Passed(DropControl(s))
  {
    var t, n := DropControl(s), Last(s.control);
    DropEffects(s);
    assert n in s.control && n in s.tarjan;
    forall m: nat ensures Index(t, m) == Index(s, m) && Low(t, m) == Low(s, m) { assert SameMark(s, t, m); }
    hide DropControl, Index, Low, Proc, Status;
    forall j | 0 <= j < |t.control| ensures t.control[j] == s.control[j] && Index(s, s.control[j]) < Index(s, n) {
      assert Index(s, s.control[j]) < Index(s, s.control[|s.control| - 1]);
    }
    forall m, i | m in t.tarjan && m !in t.control && Owns(t, i, m) ensures Low(t, t.control[i]) <= Low(t, m) {
      if m != n { DropOwner(g, s, m, i); }
    }
  }

  /** Without the top of the control stack the node below it owns what the top owned. */
  lemma DropOwner(g: Graph, s: Search, m: nat, i: int)
    requires Stacks(g, s) && Passed(s) && |s.control| >= 2
    requires Low(s, s.control[|s.control| - 2]) <= Low(s, Last(s.control))
    requires m in s.tarjan && m !in s.control && 0 <= i < |s.control| - 1 && Index(s, s.control[i]) < Index(s, m)
    requires i < |s.control| - 2 ==> Index(s, m) < Index(s, s.control[i + 1])
    ensures Low(s, s.control[i]) <= Low(s, m)
  {
    hide Index, Low;
    var n := Last(s.control);
    assert n in s.control && n in s.tarjan;
    DifferentIndex(g, s, m, n);
    if i < |s.control| - 2 || Index(s, m) < Index(s, n) {
      assert Owns(s, i, m);
    } else {
      assert Owns(s, |s.control| - 1, m);
    }
  }

  /** A finished node that is not the root of its component. */
  lemma FinishTight(g: Graph, s: Search, done: seq<nat>)
    requires Stacks(g, s) && Statuses(g, s, done) && LowLinks(g, s) && Connected(g, s) && AtEnd(g, s)
    requires Tight(g, s, done) && Low(s, Last(s.control)) < Index(s, Last(s.control))
    ensures forall i :: 0 <= i < |s.control| ==> s.control[i] < |s.marks|
    ensures Tight(g, PopControl(s), done)
  {
    ControlInRange(g, s);
    NotRoot(g, s);
    var n, p := Last(s.control), s.control[|s.control| - 2];
    var y := ParentReachesLow(g, s);
    var l := UpdateLowLink(s, p, Low(s, n));
    LowerKeeps(g, s, p, y, done);
    LowerEffects(s, p, Low(s, n));
    assert SameMark(s, l, n);
    PopIsLowerThenDrop(s);
    LowerHandled(g, s, p, Low(s, n), done);
    assert p in s.control;
    LowerPassed(s, p, Low(s, n));
    hide Stacks, Statuses, LowLinks, Connected, ChildrenHandled, UpdateLowLink, PopControl, DropControl, Passed;
    DropHandled(g, l, done);
    DropPassed(g, l);
  }

  /** The low link of a node of the component is at least the root's index. */
  lemma ComponentLow(g: Graph, s: Search, p: nat, m: nat)
    requires Stacks(g, s) && LowLinks(g, s) && Passed(s) && RootAt(g, s, p) && m in s.tarjan[p..]
    ensures Index(s, Last(s.control)) <= Low(s, m) && m in s.tarjan && (m in s.control ==> m == Last(s.control))
  {
    var n := Last(s.control);
    assert m in s.tarjan && n in s.control;
    InPrefix(s, g, p, m);
    hide Index, Low, Proc;
    if m in s.control { BelowTop(g, s, m); }
    if m != n {
      DifferentIndex(g, s, m, n);
      assert Owns(s, |s.control| - 1, m);
    }
  }

  /** The children of a component's nodes belong to it or were completed before. */
  lemma ComponentChildren(g: Graph, s: Search, p: nat, done: seq<nat>, m: nat, k: nat)
    requires ValidGraph(g) && Stacks(g, s) && LowLinks(g, s) && Tight(g, s, done) && RootAt(g, s, p)
    requires m in s.tarjan[p..] && m < |g| && k < |g[m]|
    ensures g[m][k] in done + s.tarjan[p..]
  {
    ComponentExhausted(g, s, p, m);
    ComponentLow(g, s, p, m);
    var c := g[m][k];
    ComponentNotBelow(g, s, p, m);
    hide Index, Low, Proc;
    assert Handled(s, done, m, c);
    if c !in done { InPrefix(s, g, p, c); }
  }

  lemma ComponentNotBelow(g: Graph, s: Search, p: nat, m: nat)
    requires Stacks(g, s) && RootAt(g, s, p) && m in s.tarjan[p..]
    ensures forall i :: 0 <= i < |s.control| - 1 ==> s.control[i] != m
  {
    assert m in s.tarjan;
    InPrefix(s, g, p, m);
    hide Index;
    forall i | 0 <= i < |s.control| - 1 ensures s.control[i] != m {
      assert Index(s, s.control[i]) < Index(s, s.control[|s.control| - 1]);
    }
  }

  lemma ComponentClosed(g: Graph, s: Search, p: nat, done: seq<nat>)
    requires ValidGraph(g) && Stacks(g, s) && LowLinks(g, s) && Tight(g, s, done) && RootAt(g, s, p)
    ensures DoneClosed(g, done + s.tarjan[p..])
  {
    var d := done + s.tarjan[p..];
    forall n, k | n in d && n < |g| && 0 <= k < |g[n]| ensures g[n][k] in d {
      if n in done {
        assert g[n][k] in done;
      } else {
        ComponentChildren(g, s, p, done, n, k);
      }
    }
  }

  lemma ComponentPassed(g: Graph, s: Search, p: nat)
    requires Stacks(g, s) && Passed(s) && RootAt(g, s, p)
    ensures Passed(PopComponent(s, p))
  {
    var t, n := PopComponent(s, p), Last(s.control);
    ComponentEffects(s, p);
    ComponentRest(g, s, p);
    hide PopComponent, Index, Low, Proc;
    forall m, i | m in t.tarjan && m !in t.control && Owns(t, i, m) ensures Low(t, t.control[i]) <= Low(t, m) {
      assert t.control[i] == s.control[i] && m in s.tarjan && m in s.tarjan[..p];
      InPrefix(s, g, p, m);
      if i < |t.control| - 1 { assert t.control[i + 1] == s.control[i + 1]; }
      assert Owns(s, i, m);
    }
  }

  lemma ComponentTight(g: Graph, s: Search, p: nat, done: seq<nat>)
    requires ValidGraph(g) && Stacks(g, s) && LowLinks(g, s) && Tight(g, s, done) && RootAt(g, s, p)
    ensures Tight(g, PopComponent(s, p), done + s.tarjan[p..])
  {
    ComponentClosed(g, s, p, done);
    ComponentHandled(g, s, p, done);
    ComponentPassed(g, s, p);
  }

  /** The nodes are, each once, those that one of them reaches and that reach it: a strongly connected component. */
  ghost predicate IsComponent(g: Graph, xs: seq<nat>) {
    && (forall i, j :: 0 <= i < j < |xs| ==> xs[i] != xs[j])
    && (forall x, y: nat :: x in xs ==> (y in xs <==> Reaches(g, x, y) && Reaches(g, y, x)))
  }

  lemma ClosedReaches(g: Graph, done: seq<nat>, x: nat, y: nat)
    requires DoneClosed(g, done) && x in done && Reaches(g, x, y)
    ensures y in done
  {
    var xs := set n | n in done;
    assert ClosedIn(g, xs);
  }

  /** Completed nodes do not reach a component that is popped later, and its nodes reach each other. */
  lemma PoppedComponent(g: Graph, s: Search, p: nat, done: seq<nat>)
    requires ValidGraph(g) && Stacks(g, s) && LowLinks(g, s) && Connected(g, s) && Tight(g, s, done) && RootAt(g, s, p)
    requires forall n :: n in s.tarjan[p..] ==> n !in done
    ensures IsComponent(g, s.tarjan[p..])
  {
    var xs := s.tarjan[p..];
    ComponentClosed(g, s, p, done);
    forall i, j | 0 <= i < j < |xs| ensures xs[i] != xs[j] {
      assert Index(s, s.tarjan[p + i]) < Index(s, s.tarjan[p + j]);
    }
    forall x, y: nat | x in xs ensures y in xs <==> Reaches(g, x, y) && Reaches(g, y, x) {
      if y in xs {
        ComponentReaches(g, s, p, x, y);
        ComponentReaches(g, s, p, y, x);
      } else if Reaches(g, x, y) && Reaches(g, y, x) {
        ClosedReaches(g, done + xs, x, y);
        ClosedReaches(g, done, y, x);
      }
    }
  }

  lemma ComponentReaches(g: Graph, s: Search, p: nat, x: nat, y: nat)
    requires Stacks(g, s) && LowLinks(g, s) && Connected(g, s) && RootAt(g, s, p)
    requires x in s.tarjan[p..] && y in s.tarjan[p..]
    ensures Reaches(g, x, y)
  {
    hide Index, Low, Reaches, ReachesLow;
    assert x in s.tarjan;
    ReachesTop(g, s, x);
    var j :| 0 <= j < |s.tarjan[p..]| && s.tarjan[p..][j] == y;
    assert Reaches(g, s.tarjan[p], s.tarjan[p + j]);
    ReachesTransitive(g, x, s.tarjan[p], y);
  }

  /** A component of one node is no loop. */
  lemma AloneNoCycle(g: Graph, n: nat)
    requires IsComponent(g, [n])
    ensures !OnCycle(g, n)
  {
    hide Reaches;
    forall w: nat | w < |g| && w != n ensures !(Reaches(g, n, w) && Reaches(g, w, n)) {
      assert n in [n] && w !in [n];
    }
  }
}
