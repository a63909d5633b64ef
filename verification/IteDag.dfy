/**
 The dag of a formula's ite terms: its construction, sub-dags, parents and leaves, the path
 conditions of the leaves, and the switch that defines an ite term.
 */
module IteDag {
  import opened Sequences
  import opened Terms
  import opened Facts
  import opened Traversal

  // ---------- nodes ----------

  /** A node of the dag; an inner node stands for an ite term and refers to its two branches. */
  datatype DagNode = Leaf(term: Term) | Inner(term: Term, cond: Term, trueChild: nat, falseChild: nat)

  ghost predicate NodeOk(nodes: seq<DagNode>, i: nat)
    requires i < |nodes|
  {
    match nodes[i]
    case Leaf(t) => !t.Ite?
    case Inner(t, c, a, b) => t.Ite? && c == t.cond && a < i && b < i && nodes[a].term == t.thn
                              && nodes[b].term == t.els
  }

  /** One node per term; the children of a node were allocated before it. */
  ghost predicate DagOk(nodes: seq<DagNode>, nodeOf: map<Term, nat>) {
    && (forall i :: 0 <= i < |nodes| ==> nodes[i].term in nodeOf && nodeOf[nodes[i].term] == i)
    && (forall t :: t in nodeOf ==> nodeOf[t] < |nodes| && nodes[nodeOf[t]].term == t)
    && (forall i: nat :: i < |nodes| ==> NodeOk(nodes, i))
  }

  function Children(node: DagNode): seq<nat> {
    match node
    case Leaf(_) => []
    case Inner(_, _, a, b) => [b, a]
  }

  ghost function Kids(nodes: seq<DagNode>): nat -> seq<nat> {
    (i: nat) => if i < |nodes| then Children(nodes[i]) else []
  }

  lemma KidsShrink(nodes: seq<DagNode>, nodeOf: map<Term, nat>)
    requires DagOk(nodes, nodeOf)
    ensures Shrinks(Kids(nodes), (i: nat) => i)
    ensures forall i: nat, c: nat :: c in Kids(nodes)(i) ==> c < |nodes|
  {
    forall i: nat, c: nat | c in Kids(nodes)(i) ensures c < i && c < |nodes| {
      assert NodeOk(nodes, i);
    }
  }

  /** A term is asked for by a non-ite that has it as an argument, or by an ite with it as condition. */
  predicate Asks(u: Term, t: Term) {
    if u.Ite? then u.cond == t else t in Args(u)
  }

  /** The ites that get a switch, as far as the terms in us ask for them. */
  ghost predicate TopFrom(root: Term, us: set<Term>, t: Term) {
    t.Ite? && (t == root || exists u :: u in us && Asks(u, t))
  }

  /** The ites that get a switch. */
  ghost predicate TopIte(root: Term, t: Term) {
    TopFrom(root, Subterms(root), t)
  }

  /** The dag of the finished terms. */
  ghost predicate Built(root: Term, nodes: seq<DagNode>, nodeOf: map<Term, nat>, top: seq<Term>, black: set<Term>) {
    && DagOk(nodes, nodeOf)
    && (forall t :: t in black && t.Ite? ==> t in nodeOf)
    && (forall t :: t in nodeOf && t.Ite? ==> t in black)
    && (forall t :: t in top <==> TopFrom(root, black, t))
    && Distinct(top)
  }

  lemma AddLeaf(nodes: seq<DagNode>, nodeOf: map<Term, nat>, t: Term)
    requires DagOk(nodes, nodeOf) && t !in nodeOf && !t.Ite?
    ensures DagOk(nodes + [Leaf(t)], nodeOf[t := |nodes|])
  {
    var more := nodes + [Leaf(t)];
    forall i: nat | i < |more| ensures NodeOk(more, i) {
      if i < |nodes| { assert NodeOk(nodes, i); }
    }
  }

  lemma AddInner(nodes: seq<DagNode>, nodeOf: map<Term, nat>, t: Term, a: nat, b: nat)
    requires DagOk(nodes, nodeOf) && t !in nodeOf && t.Ite?
    requires a < |nodes| && b < |nodes| && nodes[a].term == t.thn && nodes[b].term == t.els
    ensures DagOk(nodes + [Inner(t, t.cond, a, b)], nodeOf[t := |nodes|])
  {
    var more := nodes + [Inner(t, t.cond, a, b)];
    forall i: nat | i < |more| ensures NodeOk(more, i) {
      if i < |nodes| { assert NodeOk(nodes, i); }
    }
  }

  // ---------- parents ----------

  /** A parent with the polarity of the edge. */
  datatype Parent = Parent(nr: nat, sign: bool)

  /** The order of parents: by reference, then the false edge before the true one. */
  predicate Before(p: Parent, q: Parent) {
    p.nr < q.nr || (p.nr == q.nr && !p.sign && q.sign)
  }

  predicate SortedParents(ps: seq<Parent>) {
    forall i, j :: 0 <= i < j < |ps| ==> Before(ps[i], ps[j])
  }

  /** Inserts into a sorted set. */
  function InsertParent(ps: seq<Parent>, p: Parent): (r: seq<Parent>)
    ensures forall q :: q in r <==> q in ps || q == p
    ensures SortedParents(ps) ==> SortedParents(r)
  {
    if ps == [] then [p]
    else if p == ps[0] then ps
    else if Before(p, ps[0]) then [p] + ps
    else
      var rest := InsertParent(ps[1..], p);
      assert ps == [ps[0]] + ps[1..];
      AllAfter(ps, p, rest);
      [ps[0]] + rest
  }

  lemma AllAfter(ps: seq<Parent>, p: Parent, rest: seq<Parent>)
    requires ps != [] && p != ps[0] && !Before(p, ps[0]) && forall q :: q in rest ==> q in ps[1..] || q == p
    ensures SortedParents(ps) && SortedParents(rest) ==> SortedParents([ps[0]] + rest)
  {
    if SortedParents(ps) && SortedParents(rest) {
      forall i | 0 <= i < |rest| ensures Before(ps[0], rest[i]) {
        assert rest[i] in rest;
        if rest[i] in ps[1..] {
          var j :| 0 <= j < |ps| - 1 && ps[1..][j] == rest[i];
          assert ps[j + 1] == rest[i];
        }
      }
    }
  }

  /** Node p is the parent of node c along the edge of the given polarity. */
  predicate IsParent(nodes: seq<DagNode>, p: Parent, c: nat) {
    p.nr < |nodes| && nodes[p.nr].Inner? && c == if p.sign then nodes[p.nr].trueChild else nodes[p.nr].falseChild
  }

  // ---------- the dag ----------

  class Dag {
    var nodes: seq<DagNode>
    var nodeOf: map<Term, nat>
    var topLevelItes: seq<Term>
    var parents: map<nat, seq<Parent>>
    var leaves: seq<nat>

    constructor ()
      ensures nodes == [] && nodeOf == map[] && topLevelItes == [] && parents == map[] && leaves == []
    {
      nodes, nodeOf, topLevelItes, parents, leaves := [], map[], [], map[], [];
    }

    method GetNodeOrCreateLeafNode(tr: Term) returns (n: nat)
      requires DagOk(nodes, nodeOf) && (tr in nodeOf || !tr.Ite?)
      modifies this`nodes, this`nodeOf
      ensures DagOk(nodes, nodeOf) && old(nodes) <= nodes && n < |nodes| && nodes[n].term == tr
      ensures forall t :: t in nodeOf <==> t in old(nodeOf) || t == tr
    {
      if tr in nodeOf { return nodeOf[tr]; }
      AddLeaf(nodes, nodeOf, tr);
      n := |nodes|;
      nodes := nodes + [Leaf(tr)];
      nodeOf := nodeOf[tr := n];
    }

    /** The node of an ite whose branches have nodes or are no ites. */
    method StoreIte(tr: Term)
      requires DagOk(nodes, nodeOf) && tr.Ite? && tr !in nodeOf
      requires (tr.thn in nodeOf || !tr.thn.Ite?) && (tr.els in nodeOf || !tr.els.Ite?)
      modifies this`nodes, this`nodeOf
      ensures DagOk(nodes, nodeOf)
      ensures forall t :: t in nodeOf <==> t in old(nodeOf) || t == tr || t == tr.thn || t == tr.els
    {
      ItesDiffer(tr);
      var trueNode := GetNodeOrCreateLeafNode(tr.thn);
      var falseNode := GetNodeOrCreateLeafNode(tr.els);
      AddInner(nodes, nodeOf, tr, trueNode, falseNode);
      nodeOf := nodeOf[tr := |nodes|];
      nodes := nodes + [Inner(tr, tr.cond, trueNode, falseNode)];
    }

    method AddTopLevelIte(t: Term)
      modifies this`topLevelItes
      ensures topLevelItes == if t in old(topLevelItes) then old(topLevelItes) else old(topLevelItes) + [t]
    {
      if t !in topLevelItes { topLevelItes := topLevelItes + [t]; }
    }

    /** Finishes a term whose arguments are finished. */
    method FinishTerm(tr: Term, ghost root: Term, ghost black: set<Term>)
      requires Built(root, nodes, nodeOf, topLevelItes, black) && tr !in black
      requires forall c :: c in Args(tr) ==> c in black
      modifies this`nodes, this`nodeOf, this`topLevelItes
      ensures Built(root, nodes, nodeOf, topLevelItes, black + {tr})
    {
      ghost var top0 := topLevelItes;
      if tr.Ite? {
        assert tr.thn == Args(tr)[1] && tr.els == Args(tr)[2] && tr.cond == Args(tr)[0];
        StoreIte(tr);
        if tr.cond.Ite? {
          AddTopLevelIte(tr.cond);
        }
      } else {
        AddArguments(Args(tr));
      }
      FinishTop(root, black, tr, top0, topLevelItes);
    }

    /** The ites among the arguments of another term get a switch. */
    method AddArguments(ts: seq<Term>)
      requires Distinct(topLevelItes)
      modifies this`topLevelItes
      ensures Distinct(topLevelItes) && forall t :: t in topLevelItes <==> t in old(topLevelItes) || (t.Ite? && t in ts)
    {
      for i := 0 to |ts|
        invariant Distinct(topLevelItes) && forall t :: t in topLevelItes <==>
          t in old(topLevelItes) || (t.Ite? && t in ts[..i])
      {
        assert ts[..i + 1] == ts[..i] + [ts[i]];
        if ts[i].Ite? { AddTopLevelIte(ts[i]); }
      }
      assert ts[..|ts|] == ts;
    }

    /** Records the edges from el to one of its children. */
    method AddParent(child: nat, p: Parent)
      modifies this`parents
      ensures parents == old(parents)[child := InsertParent(if child in old(parents) then old(parents)[child] else [],
          p)]
    {
      var ps := if child in parents then parents[child] else [];
      parents := parents[child := InsertParent(ps, p)];
    }

    /** Records el's edges, or el as a leaf. */
    method Annotate(el: nat, ghost visited: set<nat>)
      requires el < |nodes| && Annotated(nodes, parents, leaves, visited)
      modifies this`parents, this`leaves
      ensures forall c :: c in old(parents) ==> c in parents
      ensures Annotated(nodes, parents, leaves, visited + {el})
    {
      hide InsertParent, InsertSorted;
      match nodes[el]
      case Inner(_, _, t, f) =>
        AddParent(f, Parent(el, false));
        AddParent(t, Parent(el, true));
      case Leaf(_) =>
        leaves := InsertSorted(leaves, el);
    }

    /** Records for every node of the dag its parents, and the leaves. */
    method AnnotateWithParentInfo(root: Term)
      requires DagOk(nodes, nodeOf) && root in nodeOf && (forall t :: t in nodeOf <==> t in Branches(root))
      requires parents == map[] && leaves == []
      modifies this`parents, this`leaves
      ensures forall c :: 0 <= c < |nodes| ==> c in parents && ParentsExact(nodes, parents[c], c)
      ensures Ascending(leaves) && forall l: nat :: l in leaves <==> l < |nodes| && nodes[l].Leaf?
    {
      parents := parents[nodeOf[root] := []];
      ghost var visited, black := AnnotateBelow(nodeOf[root], root);
      AllRefsBlack(nodes, nodeOf, root, black);
      AnnotatedDone(nodes, nodeOf, parents, leaves, visited, root);
    }

    /** The traversal from the root's node. */
    method AnnotateBelow(rootNode: nat, ghost root: Term) returns (ghost visited: set<nat>, ghost black: set<nat>)
      requires DagOk(nodes, nodeOf) && root in nodeOf && rootNode == nodeOf[root] && parents == map[rootNode := []]
        && leaves == []
      modifies this`parents, this`leaves
      ensures Annotated(nodes, parents, leaves, visited) && rootNode in parents
      ensures rootNode in black && black <= visited && forall i, c :: i in black && c in Kids(nodes)(i) ==> c in black
    {
      ghost var kids, size, universe := Kids(nodes), (i: nat) => i, Within(nodes, root);
      KidsShrink(nodes, nodeOf);
      WithinClosed(nodes, nodeOf, root);
      Starts<nat>(kids, size, rootNode, universe);
      AnnotatedStarts(nodes, rootNode);
      hide *;
      var queue := [rootNode];
      var seen: set<nat>, done: set<nat> := {}, {};
      while |queue| != 0
        invariant Inv<nat>(Dfs(queue, seen, done), kids, size, rootNode, universe)
        invariant Annotated(nodes, parents, leaves, seen) && rootNode in parents
        decreases universe - done, universe - seen, |queue|
      {
        ghost var s: Dfs<nat> := Dfs(queue, seen, done);
        var el := queue[|queue| - 1];
        if el in done {
          PopBlack<nat>(s, kids, size, rootNode, universe);
          queue := queue[..|queue| - 1];
          continue;
        }
        TopWithin(s, kids, size, rootNode, universe, nodes, root);
        Annotate(el, seen);
        seen := seen + {el};
        var ps := WhiteRefs(Children(nodes[el]), seen);
        KidsAt(nodes, el);
        if ps != [] {
          Push<nat>(s, kids, size, rootNode, universe, ps);
          Progress<nat>(s, el, universe);
          queue := queue + ps;
          continue;
        }
        NoWhiteRefs(ps, Children(nodes[el]), seen);
        Finish<nat>(s, kids, size, rootNode, universe);
        Progress<nat>(s, el, universe);
        done := done + {el};
        queue := queue[..|queue| - 1];
      }
      Done<nat>(Dfs(queue, seen, done), kids, size, rootNode, universe);
      BlackVisited(Dfs(queue, seen, done), kids, size, rootNode, universe);
      visited, black := seen, done;
    }

    /** Pushes the white parents of a node in increasing order and colours them gray. */
    method PushParents(el: nat, gray0: set<nat>, black: set<nat>) returns (gray: set<nat>, ps: seq<nat>)
      requires el < |nodes| && el in parents && parents[el] == ParentsOf(nodes, el)
      ensures var my := ParentsOf(nodes, el); Pushed(my, |my|, gray0, black, gray, ps)
    {
      gray, ps := gray0, [];
      var my := parents[el];
      assert Pushed(my, 0, gray0, black, gray, ps);
      hide *;
      for i := 0 to |my|
        invariant Pushed(my, i, gray0, black, gray, ps)
      {
        PushedStep(my, i, gray0, black, gray, ps);
        if my[i].nr !in gray && my[i].nr !in black {
          gray := gray + {my[i].nr};
          ps := ps + [my[i].nr];
        }
      }
    }

    /** The condition of an edge: the parent's condition, and its ite's condition or the negation. */
    method EdgeConditions(ps: seq<Parent>, pc: map<nat, Term>, rank: Order) returns (conds: seq<Term>)
      requires forall q :: q in ps ==> q.nr < |nodes| && nodes[q.nr].Inner? && q.nr in pc
      ensures |conds| == |ps| && forall k :: 0 <= k < |ps| ==>
        ps[k] in ps && conds[k] == EdgeCond(nodes, ps[k], pc[ps[k].nr], rank)
    {
      conds := [];
      hide MkAnd, MkNot;
      for i := 0 to |ps|
        invariant |conds| == i && forall k :: 0 <= k < i ==>
          ps[k] in ps && conds[k] == EdgeCond(nodes, ps[k], pc[ps[k].nr], rank)
      {
        assert ps[i] in ps;
        var c := nodes[ps[i].nr].cond;
        conds := conds + [MkAnd([pc[ps[i].nr], if ps[i].sign then c else MkNot(c)], rank)];
      }
    }

    /** The disjunction over the edges into a node. */
    method JoinConditions(el: nat, pc: map<nat, Term>, rank: Order) returns (cond: Term)
      requires el < |nodes| && el in parents && parents[el] == ParentsOf(nodes, el)
      requires ParentsKnown(nodes, el, pc, rank)
      ensures cond == PathCond(nodes, el, rank)
    {
      EdgeCondsAre(nodes, el, pc, rank);
      PathCondIs(nodes, el, rank);
      hide *;
      var conds := EdgeConditions(parents[el], pc, rank);
      if parents[el] == [] {
        conds := [True];
      }
      cond := MkOr(conds, rank);
    }

    /**
     The path conditions of the leaves, by a traversal upwards from every leaf. Above the
     current leaf the stack is increasing, so a parent is never gray when its child is on top.
     */
    method GetCondValPairs(rank: Order) returns (switches: seq<CondVal>)
      requires DagOk(nodes, nodeOf) && EdgesRecorded(nodes, parents, leaves)
      ensures switches == CondValsFrom(nodes, leaves, 0, rank)
    {
      var pc: map<nat, Term> := map[];
      var queue := leaves;
      var gray: set<nat>, black: set<nat> := {}, {};
      ghost var j: nat, gs: seq<nat>, all := |leaves|, [], RefsOf(nodeOf);
      switches := [];
      StackStarts(nodes, leaves, rank);
      hide *;
      while |queue| != 0
        invariant StackAt(nodes, leaves, j, gs, gray, black, pc, rank, queue, switches)
        decreases Open(all, black), Open(Open(all, gray), black)
      {
        var el := queue[|queue| - 1];
        StackTop(nodes, leaves, j, gs, gray, black, pc, rank, queue, switches);
        RecordedParents(nodes, parents, leaves, el);
        var g, ps := PushParents(el, gray, black);
        if ps != [] {
          StackUp(nodes, nodeOf, leaves, j, gs, gray, black, pc, rank, queue, switches, g, ps);
          gray, queue, gs := g, queue + ps, gs + ps;
          continue;
        }
        StackParents(nodes, leaves, j, gs, gray, black, pc, rank, queue, switches, g, ps);
        var cond := JoinConditions(el, pc, rank);
        StackDone(nodes, nodeOf, leaves, j, gs, gray, black, pc, rank, queue, switches);
        black, gray, pc, queue := With(black, el), Without(gray, el), pc[el := cond], queue[..|queue| - 1];
        if nodes[el].Leaf? {
          switches := switches + [CondVal(cond, nodes[el].term)];
          j := j - 1;
        } else {
          gs := gs[..|gs| - 1];
        }
      }
      StackEmpty(nodes, leaves, j, gs, gray, black, pc, rank, queue, switches);
    }
  }

  /** The parents and the leaves of a dag are recorded. */
  ghost predicate EdgesRecorded(nodes: seq<DagNode>, parents: map<nat, seq<Parent>>, leaves: seq<nat>) {
    && (forall c :: 0 <= c < |nodes| ==> c in parents && parents[c] == ParentsOf(nodes, c))
    && Ascending(leaves) && forall l: nat :: l in leaves <==> l < |nodes| && nodes[l].Leaf?
  }

  lemma RecordedParents(nodes: seq<DagNode>, parents: map<nat, seq<Parent>>, leaves: seq<nat>, c: nat)
    requires EdgesRecorded(nodes, parents, leaves) && c < |nodes|
    ensures c in parents && parents[c] == ParentsOf(nodes, c)
  {
  }

  lemma AnnotatedStarts(nodes: seq<DagNode>, rootNode: nat)
    ensures Annotated(nodes, map[rootNode := []], [], {})
  {
  }

  /** The recorded parents of a node: exactly its edges, sorted. */
  ghost predicate ParentsExact(nodes: seq<DagNode>, ps: seq<Parent>, c: nat) {
    SortedParents(ps) && forall p :: p in ps <==> IsParent(nodes, p, c)
  }

  /** The edges and leaves among the visited nodes are recorded, nothing else. */
  ghost predicate Annotated(nodes: seq<DagNode>, parents: map<nat, seq<Parent>>, leaves: seq<nat>, visited: set<nat>) {
    && (forall c :: c in parents ==> SortedParents(parents[c]))
    && (forall c, p :: c in parents && p in parents[c] ==> p.nr in visited && IsParent(nodes, p, c))
    && (forall p: Parent, c: nat :: p.nr in visited && IsParent(nodes, p, c) ==> c in parents && p in parents[c])
    && Ascending(leaves) && (forall l: nat :: l in leaves <==> l in visited && l < |nodes| && nodes[l].Leaf?)
  }

  lemma BlackVisited(s: Dfs<nat>, kids: nat -> seq<nat>, size: nat -> nat, rootNode: nat, universe: set<nat>)
    requires Inv(s, kids, size, rootNode, universe)
    ensures s.black <= s.visited
  {
  }

  lemma {:induction false} BranchBlack(nodes: seq<DagNode>, nodeOf: map<Term, nat>, black: set<nat>, t: Term)
    requires DagOk(nodes, nodeOf) && t in nodeOf && nodeOf[t] in black
    requires forall i, c :: i in black && c in Kids(nodes)(i) ==> c in black
    ensures forall u :: u in Branches(t) ==> u in nodeOf && nodeOf[u] in black
  {
    if t.Ite? {
      var i := nodeOf[t];
      assert NodeOk(nodes, i);
      assert nodes[i].trueChild in Kids(nodes)(i) && nodes[i].falseChild in Kids(nodes)(i);
      BranchBlack(nodes, nodeOf, black, t.thn);
      BranchBlack(nodes, nodeOf, black, t.els);
    }
  }

  lemma AllRefsBlack(nodes: seq<DagNode>, nodeOf: map<Term, nat>, root: Term, black: set<nat>)
    requires DagOk(nodes, nodeOf) && root in nodeOf && nodeOf[root] in black
    requires forall t :: t in nodeOf <==> t in Branches(root)
    requires forall i, c :: i in black && c in Kids(nodes)(i) ==> c in black
    ensures forall i :: 0 <= i < |nodes| ==> i in black
  {
    BranchBlack(nodes, nodeOf, black, root);
    forall i | 0 <= i < |nodes| ensures i in black {
      assert nodeOf[nodes[i].term] == i;
    }
  }

  /** Every node but the root has a parent. */
  lemma {:induction false} HasParent(nodes: seq<DagNode>, nodeOf: map<Term, nat>, root: Term, t: Term)
    returns (p: Parent)
    requires DagOk(nodes, nodeOf) && root in nodeOf && t in Branches(root) && t != root
    ensures t in nodeOf && p.nr < |nodes| && IsParent(nodes, p, nodeOf[t])
  {
    var i := nodeOf[root];
    assert NodeOk(nodes, i);
    if root.thn == t {
      p := Parent(i, true);
    } else if root.els == t {
      p := Parent(i, false);
    } else if t in Branches(root.thn) {
      p := HasParent(nodes, nodeOf, root.thn, t);
    } else {
      p := HasParent(nodes, nodeOf, root.els, t);
    }
  }

  lemma AnnotatedDone(nodes: seq<DagNode>, nodeOf: map<Term, nat>, parents: map<nat, seq<Parent>>, leaves: seq<nat>,
                      visited: set<nat>, root: Term)
    requires DagOk(nodes, nodeOf) && root in nodeOf && (forall t :: t in nodeOf <==> t in Branches(root))
    requires Annotated(nodes, parents, leaves, visited) && nodeOf[root] in parents
    requires forall i: nat :: i < |nodes| ==> i in visited
    ensures forall c :: 0 <= c < |nodes| ==> c in parents && ParentsExact(nodes, parents[c], c)
    ensures Ascending(leaves) && forall l: nat :: l in leaves <==> l < |nodes| && nodes[l].Leaf?
  {
    forall c: nat | c < |nodes| ensures c in parents && ParentsExact(nodes, parents[c], c) {
      if nodes[c].term != root {
        var p := HasParent(nodes, nodeOf, root, nodes[c].term);
      }
    }
  }

  /** The condition under which evaluation reaches a leaf, and the leaf's term. */
  datatype CondVal = CondVal(cond: Term, val: Term)

  // ---------- path conditions ----------

  /** The parents of a node in increasing order, from reference p on. */
  function ParentsFrom(nodes: seq<DagNode>, c: nat, p: nat): (r: seq<Parent>)
    requires p <= |nodes|
    ensures forall q :: q in r ==> p <= q.nr && IsParent(nodes, q, c)
    ensures forall q: Parent :: p <= q.nr && IsParent(nodes, q, c) ==> q in r
    ensures SortedParents(r)
    decreases |nodes| - p
  {
    if p == |nodes| then []
    else
      var here := (if IsParent(nodes, Parent(p, false), c) then [Parent(p, false)] else [])
                + (if IsParent(nodes, Parent(p, true), c) then [Parent(p, true)] else []);
      here + ParentsFrom(nodes, c, p + 1)
  }

  function ParentsOf(nodes: seq<DagNode>, c: nat): seq<Parent>
    requires c < |nodes|
  {
    ParentsFrom(nodes, c, c + 1)
  }

  lemma HasElement(ps: seq<Parent>)
    requires ps != []
    ensures exists p :: p in ps
  {
    assert ps[0] in ps;
  }

  /** There is only one sorted list of given elements. */
  lemma {:induction false} SortedUnique(ps: seq<Parent>, qs: seq<Parent>)
    requires SortedParents(ps) && SortedParents(qs) && forall p :: p in ps <==> p in qs
    ensures ps == qs
  {
    if ps != [] { HasElement(ps); }
    if qs != [] { HasElement(qs); }
    if ps != [] {
      assert ps[0] in qs;
      assert qs[0] in ps;
      assert ps[0] == qs[0];
      forall p ensures p in ps[1..] <==> p in qs[1..] {
        if p in ps[1..] { assert p in ps; }
        if p in qs[1..] { assert p in qs; }
      }
      SortedUnique(ps[1..], qs[1..]);
      assert ps == [ps[0]] + ps[1..] && qs == [qs[0]] + qs[1..];
    }
  }

  /** The recorded parents are the listed ones. */
  lemma ParentsListed(nodes: seq<DagNode>, nodeOf: map<Term, nat>, ps: seq<Parent>, c: nat)
    requires DagOk(nodes, nodeOf) && c < |nodes| && ParentsExact(nodes, ps, c)
    ensures ps == ParentsOf(nodes, c)
  {
    forall p ensures p in ps <==> p in ParentsOf(nodes, c) {
      if IsParent(nodes, p, c) { assert NodeOk(nodes, p.nr); }
    }
    SortedUnique(ps, ParentsOf(nodes, c));
  }

  function EdgeCond(nodes: seq<DagNode>, p: Parent, cond: Term, rank: Order): Term
    requires p.nr < |nodes| && nodes[p.nr].Inner?
  {
    MkAnd([cond, if p.sign then nodes[p.nr].cond else MkNot(nodes[p.nr].cond)], rank)
  }

  /** The conditions of all ways into a node. */
  function EdgeConds(nodes: seq<DagNode>, c: nat, rank: Order): (r: seq<Term>)
    requires c < |nodes|
    ensures |r| == |ParentsOf(nodes, c)|
    ensures forall k :: 0 <= k < |r| ==>
              ParentsOf(nodes, c)[k] in ParentsOf(nodes, c)
              && r[k] == EdgeCond(nodes, ParentsOf(nodes, c)[k], PathCond(nodes, ParentsOf(nodes, c)[k].nr, rank), rank)
    decreases |nodes| - c, 0
  {
    var ps := ParentsOf(nodes, c);
    assert forall k :: 0 <= k < |ps| ==> ps[k] in ps;
    seq(|ps|, k requires 0 <= k < |ps| => EdgeCond(nodes, ps[k], PathCond(nodes, ps[k].nr, rank), rank))
  }

  /** The condition under which evaluation passes through a node. */
  function PathCond(nodes: seq<DagNode>, c: nat, rank: Order): Term
    requires c < |nodes|
    decreases |nodes| - c, 1
  {
    MkOr(if ParentsOf(nodes, c) == [] then [True] else EdgeConds(nodes, c, rank), rank)
  }

  lemma PathCondIs(nodes: seq<DagNode>, c: nat, rank: Order)
    requires c < |nodes|
    ensures PathCond(nodes, c, rank) ==
      MkOr(if ParentsOf(nodes, c) == [] then [True] else EdgeConds(nodes, c, rank), rank)
  {
  }

  /** The conditions of all parents have been computed. */
  ghost predicate ParentsKnown(nodes: seq<DagNode>, c: nat, pc: map<nat, Term>, rank: Order)
    requires c < |nodes|
  {
    forall q :: q in ParentsOf(nodes, c) ==> q.nr in pc && pc[q.nr] == PathCond(nodes, q.nr, rank)
  }

  lemma EdgeCondsAre(nodes: seq<DagNode>, c: nat, pc: map<nat, Term>, rank: Order)
    requires c < |nodes| && ParentsKnown(nodes, c, pc, rank)
    ensures var ps := ParentsOf(nodes, c);
            && (forall q :: q in ps ==> q.nr < |nodes| && nodes[q.nr].Inner?)
            && forall conds: seq<Term> ::
                 |conds| == |ps| && (forall k :: 0 <= k < |ps| ==>
                                     ps[k] in ps && conds[k] == EdgeCond(nodes, ps[k], pc[ps[k].nr], rank))
                 ==> conds == EdgeConds(nodes, c, rank)
  {
    hide PathCond, EdgeCond;
    var ps, all := ParentsOf(nodes, c), EdgeConds(nodes, c, rank);
    forall k | 0 <= k < |ps| ensures ps[k] in ps && all[k] == EdgeCond(nodes, ps[k], pc[ps[k].nr], rank) {
      assert ps[k] in ps;
    }
  }

  /** The pairs of the leaves from position j on, the last leaf first. */
  function CondValsFrom(nodes: seq<DagNode>, leaves: seq<nat>, j: nat, rank: Order): seq<CondVal>
    requires j <= |leaves| && forall l :: l in leaves ==> l < |nodes|
    decreases |leaves| - j
  {
    if j == |leaves| then []
    else
      assert leaves[j] in leaves;
      CondValsFrom(nodes, leaves, j + 1, rank) + [CondVal(PathCond(nodes, leaves[j], rank), nodes[leaves[j]].term)]
  }

  // ---------- the upward traversal ----------

  ghost function RefsOf(nodeOf: map<Term, nat>): set<nat> {
    set t | t in nodeOf :: nodeOf[t]
  }

  /**
   The stack is a row of unfinished leaves, the last of them current, and above it an
   increasing row of inner nodes, exactly the gray ones.
   */
  ghost predicate Climbing(nodes: seq<DagNode>, leaves: seq<nat>, j: nat, gs: seq<nat>, gray: set<nat>, black: set<nat>,
                           pc: map<nat, Term>, rank: Order) {
    && j <= |leaves| && Ascending(leaves) && (forall l: nat :: l in leaves <==> l < |nodes| && nodes[l].Leaf?)
    && Ascending(gs) && (gs != [] ==> j > 0) && (forall g :: g in gs ==> g < |nodes| && nodes[g].Inner?)
    && (forall g :: g in gray <==> g in gs) && (forall g :: g in gs ==> g !in black)
    && (forall b :: b in black ==> b < |nodes| && b in pc && pc[b] == PathCond(nodes, b, rank))
    && (forall k :: 0 <= k < |leaves| ==> (leaves[k] in black <==> k >= j))
  }

  lemma ClimbingStarts(nodes: seq<DagNode>, leaves: seq<nat>, rank: Order)
    requires Ascending(leaves) && forall l: nat :: l in leaves <==> l < |nodes| && nodes[l].Leaf?
    ensures Climbing(nodes, leaves, |leaves|, [], {}, {}, map[], rank)
      && CondValsFrom(nodes, leaves, |leaves|, rank) == []
    ensures leaves[..|leaves|] + [] == leaves && forall l :: l in leaves ==> l < |nodes|
  {
  }

  /** The top of the stack is an unfinished node; it is a leaf exactly when no gray node is above. */
  lemma ClimbingTop(nodes: seq<DagNode>, leaves: seq<nat>, j: nat, gs: seq<nat>, gray: set<nat>, black: set<nat>,
                    pc: map<nat, Term>, rank: Order)
    requires Climbing(nodes, leaves, j, gs, gray, black, pc, rank) && leaves[..j] + gs != []
    ensures j > 0
    ensures var el := (leaves[..j] + gs)[j + |gs| - 1];
            && el < |nodes| && el !in black && (nodes[el].Leaf? <==> gs == [])
            && el == (if gs == [] then leaves[j - 1] else gs[|gs| - 1])
            && forall g :: g in gray ==> g <= el
  {
    hide PathCond;
    if gs == [] {
      assert leaves[j - 1] in leaves;
    } else {
      assert gs[|gs| - 1] in gs;
      forall g | g in gs ensures g <= gs[|gs| - 1] {
        var i :| 0 <= i < |gs| && gs[i] == g;
      }
    }
  }

  lemma ClimbUp(nodes: seq<DagNode>, nodeOf: map<Term, nat>, leaves: seq<nat>, j: nat, gs: seq<nat>, gray: set<nat>,
                black: set<nat>,
                pc: map<nat, Term>, rank: Order, el: nat, ps: seq<nat>)
    requires Climbing(nodes, leaves, j, gs, gray, black, pc, rank) && leaves[..j] + gs != []
    requires el == (leaves[..j] + gs)[|leaves[..j] + gs| - 1] && el < |nodes| && DagOk(nodes, nodeOf)
    requires Ascending(ps) && ps != []
    requires forall p :: p in ps ==> p !in gray && p !in black && exists q :: q in ParentsOf(nodes, el) && q.nr == p
    ensures Climbing(nodes, leaves, j, gs + ps, gray + (set p | p in ps), black, pc, rank)
    ensures var all := RefsOf(nodeOf); all - (gray + (set p | p in ps)) - black < all - gray - black
    ensures leaves[..j] + gs + ps == leaves[..j] + (gs + ps)
  {
    hide PathCond, CondValsFrom;
    ClimbingTop(nodes, leaves, j, gs, gray, black, pc, rank);
    forall p | p in ps ensures el < p < |nodes| && nodes[p].Inner? {
      var q :| q in ParentsOf(nodes, el) && q.nr == p;
    }
    ParentsAscend(gs, ps, el);
    assert ps[0] in ps && nodes[ps[0]].term in nodeOf && nodeOf[nodes[ps[0]].term] == ps[0];
    var all := RefsOf(nodeOf);
    assert ps[0] in all - gray - black && ps[0] !in all - (gray + (set p | p in ps)) - black;
  }

  lemma ParentsAscend(gs: seq<nat>, ps: seq<nat>, el: nat)
    requires Ascending(gs) && Ascending(ps) && (gs != [] ==> el == gs[|gs| - 1]) && forall p :: p in ps ==> el < p
    ensures Ascending(gs + ps)
  {
    var r := gs + ps;
    forall i, k | 0 <= i < k < |r| ensures r[i] < r[k] {
      if i < |gs| && k >= |gs| {
        assert r[k] in ps && gs[i] <= gs[|gs| - 1];
      }
    }
  }

  /** A parent of the top is above every gray node, so once none is white all are black. */
  lemma AllParentsBlack(nodes: seq<DagNode>, leaves: seq<nat>, j: nat, gs: seq<nat>, gray: set<nat>, black: set<nat>,
                        pc: map<nat, Term>, rank: Order, el: nat)
    requires Climbing(nodes, leaves, j, gs, gray, black, pc, rank) && leaves[..j] + gs != []
    requires el == (leaves[..j] + gs)[|leaves[..j] + gs| - 1] && el < |nodes|
    requires forall q :: q in ParentsOf(nodes, el) ==> q.nr in gray || q.nr in black
    ensures forall q :: q in ParentsOf(nodes, el) ==>
      q.nr < |nodes| && q.nr in pc && pc[q.nr] == PathCond(nodes, q.nr, rank)
  {
    hide PathCond;
    ClimbingTop(nodes, leaves, j, gs, gray, black, pc, rank);
  }

  lemma ClimbDone(nodes: seq<DagNode>, nodeOf: map<Term, nat>, leaves: seq<nat>, j: nat, gs: seq<nat>, gray: set<nat>,
                  black: set<nat>,
                  pc: map<nat, Term>, rank: Order, el: nat)
    requires Climbing(nodes, leaves, j, gs, gray, black, pc, rank) && leaves[..j] + gs != [] && DagOk(nodes, nodeOf)
    requires el == (leaves[..j] + gs)[|leaves[..j] + gs| - 1] && el < |nodes|
    ensures var b, p, r := black + {el}, pc[el := PathCond(nodes, el, rank)],
      (leaves[..j] + gs)[..|leaves[..j] + gs| - 1];
            if nodes[el].Leaf?
            then gs == [] && j > 0 && Climbing(nodes, leaves, j - 1, gs, gray - {el}, b, p, rank)
              && r == leaves[..j - 1] + gs
                 && CondValsFrom(nodes, leaves, j - 1, rank)
                    == CondValsFrom(nodes, leaves, j, rank) + [CondVal(PathCond(nodes, el, rank), nodes[el].term)]
            else gs != [] && Climbing(nodes, leaves, j, gs[..|gs| - 1], gray - {el}, b, p, rank)
                 && r == leaves[..j] + gs[..|gs| - 1]
    ensures var all := RefsOf(nodeOf); all - (black + {el}) < all - black
  {
    ClimbingTop(nodes, leaves, j, gs, gray, black, pc, rank);
    NewBlack(nodes, nodeOf, black, el);
    hide DagOk, RefsOf, PathCond;
    if nodes[el].Leaf? {
      LeafDone(nodes, leaves, j, gs, gray, black, pc, rank);
    } else {
      InnerClimbed(nodes, leaves, j, gs, gray, black, pc, rank);
    }
  }

  lemma NewBlack(nodes: seq<DagNode>, nodeOf: map<Term, nat>, black: set<nat>, el: nat)
    requires DagOk(nodes, nodeOf) && el < |nodes| && el !in black
    ensures var all := RefsOf(nodeOf); all - (black + {el}) < all - black
  {
    var all := RefsOf(nodeOf);
    assert nodeOf[nodes[el].term] == el;
    assert el in all - black && el !in all - (black + {el});
  }

  lemma LeafDone(nodes: seq<DagNode>, leaves: seq<nat>, j: nat, gs: seq<nat>, gray: set<nat>, black: set<nat>,
                 pc: map<nat, Term>, rank: Order)
    requires Climbing(nodes, leaves, j, gs, gray, black, pc, rank) && gs == [] && j > 0 && leaves[j - 1] < |nodes|
    ensures var el := leaves[j - 1];
            && Climbing(nodes, leaves, j - 1, gs, gray - {el}, black + {el}, pc[el := PathCond(nodes, el, rank)], rank)
            && (leaves[..j] + gs)[..|leaves[..j] + gs| - 1] == leaves[..j - 1] + gs
            && CondValsFrom(nodes, leaves, j - 1, rank)
               == CondValsFrom(nodes, leaves, j, rank) + [CondVal(PathCond(nodes, el, rank), nodes[el].term)]
  {
    hide PathCond;
    forall k | 0 <= k < |leaves| ensures leaves[k] in black + {leaves[j - 1]} <==> k >= j - 1 {
      assert leaves[k] == leaves[j - 1] ==> k == j - 1;
    }
  }

  lemma InnerClimbed(nodes: seq<DagNode>, leaves: seq<nat>, j: nat, gs: seq<nat>, gray: set<nat>, black: set<nat>,
                     pc: map<nat, Term>, rank: Order)
    requires Climbing(nodes, leaves, j, gs, gray, black, pc, rank) && gs != [] && gs[|gs| - 1] < |nodes|
    requires nodes[gs[|gs| - 1]].Inner?
    ensures var el := gs[|gs| - 1];
            && Climbing(nodes, leaves, j, gs[..|gs| - 1], gray - {el}, black + {el},
                        pc[el := PathCond(nodes, el, rank)], rank)
            && (leaves[..j] + gs)[..|leaves[..j] + gs| - 1] == leaves[..j] + gs[..|gs| - 1]
  {
    hide PathCond, Ascending;
    ClimbInner(leaves, j, gs, gray, black, gs[|gs| - 1], nodes);
    forall k | 0 <= k < |leaves| ensures leaves[k] in black + {gs[|gs| - 1]} <==> leaves[k] in black {
      assert leaves[k] in leaves;
    }
  }

  /** The state of the upward traversal with its stack and the pairs found so far. */
  ghost predicate StackAt(nodes: seq<DagNode>, leaves: seq<nat>, j: nat, gs: seq<nat>, gray: set<nat>, black: set<nat>,
                          pc: map<nat, Term>, rank: Order, queue: seq<nat>, switches: seq<CondVal>) {
    && Climbing(nodes, leaves, j, gs, gray, black, pc, rank) && queue == leaves[..j] + gs
    && (forall l :: l in leaves ==> l < |nodes|) && switches == CondValsFrom(nodes, leaves, j, rank)
  }

  function With(s: set<nat>, x: nat): set<nat> {
    s + {x}
  }

  function Without(s: set<nat>, x: nat): set<nat> {
    s - {x}
  }

  /** The nodes outside a set. */
  ghost function Open(all: set<nat>, closed: set<nat>): set<nat> {
    all - closed
  }

  lemma StackStarts(nodes: seq<DagNode>, leaves: seq<nat>, rank: Order)
    requires Ascending(leaves) && forall l: nat :: l in leaves <==> l < |nodes| && nodes[l].Leaf?
    ensures StackAt(nodes, leaves, |leaves|, [], {}, {}, map[], rank, leaves, [])
  {
    ClimbingStarts(nodes, leaves, rank);
  }

  lemma StackEmpty(nodes: seq<DagNode>, leaves: seq<nat>, j: nat, gs: seq<nat>, gray: set<nat>, black: set<nat>,
                   pc: map<nat, Term>, rank: Order, queue: seq<nat>, switches: seq<CondVal>)
    requires StackAt(nodes, leaves, j, gs, gray, black, pc, rank, queue, switches) && |queue| == 0
    ensures (forall l :: l in leaves ==> l < |nodes|) && switches == CondValsFrom(nodes, leaves, 0, rank)
  {
  }

  lemma StackTop(nodes: seq<DagNode>, leaves: seq<nat>, j: nat, gs: seq<nat>, gray: set<nat>, black: set<nat>,
                 pc: map<nat, Term>, rank: Order, queue: seq<nat>, switches: seq<CondVal>)
    requires StackAt(nodes, leaves, j, gs, gray, black, pc, rank, queue, switches) && |queue| != 0
    ensures queue[|queue| - 1] < |nodes| && j > 0 && (nodes[queue[|queue| - 1]].Leaf? <==> gs == [])
  {
    ClimbingTop(nodes, leaves, j, gs, gray, black, pc, rank);
  }

  lemma StackUp(nodes: seq<DagNode>, nodeOf: map<Term, nat>, leaves: seq<nat>, j: nat, gs: seq<nat>, gray: set<nat>,
                black: set<nat>,
                pc: map<nat, Term>, rank: Order, queue: seq<nat>, switches: seq<CondVal>, g: set<nat>, ps: seq<nat>)
    requires StackAt(nodes, leaves, j, gs, gray, black, pc, rank, queue, switches) && |queue| != 0
      && DagOk(nodes, nodeOf)
    requires ps != [] && queue[|queue| - 1] < |nodes|
    requires var my := ParentsOf(nodes, queue[|queue| - 1]); Pushed(my, |my|, gray, black, g, ps)
    ensures StackAt(nodes, leaves, j, gs + ps, g, black, pc, rank, queue + ps, switches)
    ensures var all := RefsOf(nodeOf); Open(Open(all, g), black) < Open(Open(all, gray), black)
  {
    PushedAll(ParentsOf(nodes, queue[|queue| - 1]), gray, black, g, ps);
    ClimbUp(nodes, nodeOf, leaves, j, gs, gray, black, pc, rank, queue[|queue| - 1], ps);
  }

  lemma StackParents(nodes: seq<DagNode>, leaves: seq<nat>, j: nat, gs: seq<nat>, gray: set<nat>, black: set<nat>,
                     pc: map<nat, Term>, rank: Order, queue: seq<nat>, switches: seq<CondVal>, g: set<nat>,
                       ps: seq<nat>)
    requires StackAt(nodes, leaves, j, gs, gray, black, pc, rank, queue, switches) && |queue| != 0
    requires ps == [] && queue[|queue| - 1] < |nodes|
    requires var my := ParentsOf(nodes, queue[|queue| - 1]); Pushed(my, |my|, gray, black, g, ps)
    ensures ParentsKnown(nodes, queue[|queue| - 1], pc, rank)
  {
    PushedAll(ParentsOf(nodes, queue[|queue| - 1]), gray, black, g, ps);
    AllParentsBlack(nodes, leaves, j, gs, gray, black, pc, rank, queue[|queue| - 1]);
  }

  lemma StackDone(nodes: seq<DagNode>, nodeOf: map<Term, nat>, leaves: seq<nat>, j: nat, gs: seq<nat>, gray: set<nat>,
                  black: set<nat>,
                  pc: map<nat, Term>, rank: Order, queue: seq<nat>, switches: seq<CondVal>)
    requires StackAt(nodes, leaves, j, gs, gray, black, pc, rank, queue, switches) && |queue| != 0
      && DagOk(nodes, nodeOf)
    requires queue[|queue| - 1] < |nodes|
    ensures var el := queue[|queue| - 1];
            var (c, r) := (PathCond(nodes, el, rank), queue[..|queue| - 1]);
            if nodes[el].Leaf?
            then j > 0 && StackAt(nodes, leaves, j - 1, gs, Without(gray, el), With(black, el), pc[el := c], rank, r,
                                  switches + [CondVal(c, nodes[el].term)])
            else gs != [] && StackAt(nodes, leaves, j, gs[..|gs| - 1], Without(gray, el), With(black, el),
                                     pc[el := c], rank, r, switches)
    ensures Open(RefsOf(nodeOf), With(black, queue[|queue| - 1])) < Open(RefsOf(nodeOf), black)
  {
    ClimbDone(nodes, nodeOf, leaves, j, gs, gray, black, pc, rank, queue[|queue| - 1]);
  }

  lemma ClimbInner(leaves: seq<nat>, j: nat, gs: seq<nat>, gray: set<nat>, black: set<nat>, el: nat,
                   nodes: seq<DagNode>)
    requires Ascending(gs) && gs != [] && el == gs[|gs| - 1] && forall g :: g in gray <==> g in gs
    requires el < |nodes| && nodes[el].Inner? && forall l: nat :: l in leaves ==> l < |nodes| && nodes[l].Leaf?
    ensures var rest := gs[..|gs| - 1];
            && Ascending(rest) && (forall g :: g in gray - {el} <==> g in rest) && el !in leaves
            && (forall g :: g in rest ==> g in gs && g != el)
  {
    var rest := gs[..|gs| - 1];
    assert gs == rest + [el];
    forall g | g in rest ensures g != el {
      var i :| 0 <= i < |rest| && rest[i] == g;
      assert gs[i] < gs[|gs| - 1];
    }
  }

  lemma AscendingPush(parents: seq<Parent>, i: nat, ps: seq<nat>)
    requires SortedParents(parents) && i < |parents| && Ascending(ps)
    requires forall p :: p in ps ==> exists q :: q in parents[..i] && q.nr == p
    requires parents[i].nr !in ps
    ensures Ascending(ps + [parents[i].nr])
  {
    forall p | p in ps ensures p < parents[i].nr {
      var q :| q in parents[..i] && q.nr == p;
      var k :| 0 <= k < i && parents[k] == q;
      assert Before(parents[k], parents[i]);
    }
    var r := ps + [parents[i].nr];
    forall a, b | 0 <= a < b < |r| ensures r[a] < r[b] {
      if b == |ps| { assert ps[a] in ps; }
    }
  }

  /** The first i parents have been looked at: the white ones were pushed and are gray now. */
  ghost predicate Pushed(parents: seq<Parent>, i: nat, gray0: set<nat>, black: set<nat>, gray: set<nat>, ps: seq<nat>)
    requires i <= |parents|
  {
    && Ascending(ps) && (forall g :: g in gray <==> g in gray0 || g in ps)
    && (forall p :: p in ps ==> p !in gray0 && p !in black && exists q :: q in parents[..i] && q.nr == p)
    && (forall q :: q in parents[..i] ==> q.nr in gray || q.nr in black)
  }

  lemma PushedAll(parents: seq<Parent>, gray0: set<nat>, black: set<nat>, gray: set<nat>, ps: seq<nat>)
    requires Pushed(parents, |parents|, gray0, black, gray, ps)
    ensures Ascending(ps) && gray == gray0 + (set p | p in ps)
    ensures forall p :: p in ps ==> p !in gray0 && p !in black && exists q :: q in parents && q.nr == p
    ensures forall q :: q in parents ==> q.nr in gray || q.nr in black
  {
    assert parents[..|parents|] == parents;
  }

  lemma PushedStep(parents: seq<Parent>, i: nat, gray0: set<nat>, black: set<nat>, gray: set<nat>, ps: seq<nat>)
    requires SortedParents(parents) && i < |parents| && Pushed(parents, i, gray0, black, gray, ps)
    ensures var p := parents[i].nr;
            if p in gray || p in black then Pushed(parents, i + 1, gray0, black, gray, ps)
            else Pushed(parents, i + 1, gray0, black, gray + {p}, ps + [p])
  {
    var p := parents[i].nr;
    assert parents[..i + 1] == parents[..i] + [parents[i]];
    if p !in gray && p !in black { AscendingPush(parents, i, ps); }
    hide Ascending, SortedParents;
    assert forall q :: q in parents[..i + 1] <==> q in parents[..i] || q == parents[i];
  }

  lemma ItesDiffer(t: Term)
    requires t.Ite?
    ensures t.thn != t && t.els != t && t.cond != t
  {
    assert Args(t)[0] == t.cond && Args(t)[1] == t.thn && Args(t)[2] == t.els;
  }

  lemma FinishTop(root: Term, black: set<Term>, tr: Term, top0: seq<Term>, top: seq<Term>)
    requires forall t :: t in top0 <==> TopFrom(root, black, t)
    requires forall t :: t in top <==> t in top0 || (t.Ite? && Asks(tr, t))
    ensures forall t :: t in top <==> TopFrom(root, black + {tr}, t)
  {
    forall t ensures t in top <==> TopFrom(root, black + {tr}, t) {
      if TopFrom(root, black, t) && t != root {
        var u :| u in black && Asks(u, t);
        assert u in black + {tr};
      }
      if t.Ite? && Asks(tr, t) { assert tr in black + {tr}; }
    }
  }

  // ---------- construction ----------

  ghost function TermSize(): Term -> nat {
    t => Size(t)
  }

  ghost function TermKids(): Term -> seq<Term> {
    t => Args(t)
  }

  lemma TermsShrink(root: Term)
    ensures Shrinks(TermKids(), TermSize())
    ensures forall t, c :: t in Subterms(root) && c in TermKids()(t) ==> c in Subterms(root)
  {
    forall t, c | c in Args(t) ensures Size(c) < Size(t) && (t in Subterms(root) ==> c in Subterms(root)) {
      var i :| 0 <= i < |Args(t)| && Args(t)[i] == c;
      ArgSmaller(t, |Args(t)|, i);
      if t in Subterms(root) {
        SubtermsNested(root, t);
        assert c in Subterms(Args(t)[i]);
      }
    }
  }

  /** The children that are still white, in order. */
  method WhiteTerms(ts: seq<Term>, visited: set<Term>) returns (ps: seq<Term>)
    ensures forall c :: c in ps <==> c in ts && c !in visited
  {
    ps := [];
    for i := 0 to |ts|
      invariant forall c :: c in ps <==> c in ts[..i] && c !in visited
    {
      assert ts[..i + 1] == ts[..i] + [ts[i]];
      if ts[i] !in visited { ps := ps + [ts[i]]; }
    }
    assert ts[..|ts|] == ts;
  }

  /** The dag of all ites of a formula, with the ites that need a switch. */
  method ConstructIteDag(root: Term) returns (dag: Dag)
    ensures fresh(dag) && DagOk(dag.nodes, dag.nodeOf)
    ensures forall t :: t in Subterms(root) && t.Ite? ==> t in dag.nodeOf
    ensures forall t :: t in dag.topLevelItes <==> TopIte(root, t)
    ensures Distinct(dag.topLevelItes)
  {
    hide Subterms, Inv;
    dag := new Dag();
    if root.Ite? { dag.AddTopLevelIte(root); }
    var queue := [root];
    var visited: set<Term>, black: set<Term> := {}, {};
    ghost var universe := Subterms(root);
    TermsShrink(root);
    SelfSubterm(root);
    Starts(TermKids(), TermSize(), root, universe);
    BuiltStarts(root, dag.topLevelItes);
    while |queue| != 0
      invariant Inv(Dfs(queue, visited, black), TermKids(), TermSize(), root, universe)
      invariant Built(root, dag.nodes, dag.nodeOf, dag.topLevelItes, black)
      decreases universe - black, universe - visited, |queue|
    {
      hide Built;
      ghost var s := Dfs(queue, visited, black);
      var tr := queue[|queue| - 1];
      if tr in black {
        PopBlack(s, TermKids(), TermSize(), root, universe);
        queue := queue[..|queue| - 1];
        continue;
      }
      visited := visited + {tr};
      var ps := WhiteTerms(Args(tr), visited);
      if ps != [] {
        Push(s, TermKids(), TermSize(), root, universe, ps);
        Progress(s, tr, universe);
        queue := queue + ps;
        continue;
      }
      NoneWhite(ps, Args(tr), visited);
      Finish(s, TermKids(), TermSize(), root, universe);
      Progress(s, tr, universe);
      dag.FinishTerm(tr, root, black);
      black := black + {tr};
      queue := queue[..|queue| - 1];
    }
    Done(Dfs(queue, visited, black), TermKids(), TermSize(), root, universe);
    AllBlack(root, black);
  }

  lemma NoneWhite(ps: seq<Term>, ts: seq<Term>, visited: set<Term>)
    requires ps == [] && forall c :: c in ps <==> c in ts && c !in visited
    ensures forall c :: c in ts ==> c in visited
  {
  }

  lemma SelfSubterm(t: Term)
    ensures t in Subterms(t)
  {
  }

  lemma BuiltStarts(root: Term, top: seq<Term>)
    requires top == if root.Ite? then [root] else []
    ensures Built(root, [], map[], top, {})
  {
  }

  lemma {:induction false} BlackBelow(black: set<Term>, t: Term, u: Term)
    requires t in black && u in Subterms(t) && forall x, c :: x in black && c in TermKids()(x) ==> c in black
    ensures u in black
  {
    if u != t {
      var i :| 0 <= i < |Args(t)| && u in Subterms(Args(t)[i]);
      assert Args(t)[i] in TermKids()(t);
      BlackBelow(black, Args(t)[i], u);
    }
  }

  lemma AllBlack(root: Term, black: set<Term>)
    requires root in black && black <= Subterms(root) && forall x, c :: x in black && c in TermKids()(x) ==> c in black
    ensures black == Subterms(root)
  {
    forall u | u in Subterms(root) ensures u in black { BlackBelow(black, root, u); }
  }

  // ---------- the sub-dag of one ite ----------

  /** An ite and everything in its branches, down to the terms that are no ites. */
  function Branches(t: Term): (r: set<Term>)
    ensures t in r
  {
    {t} + if t.Ite? then Branches(t.thn) + Branches(t.els) else {}
  }

  lemma {:induction false} BranchesNested(t: Term, u: Term)
    requires u in Branches(t)
    ensures Branches(u) <= Branches(t) && u in Subterms(t)
  {
    if u != t {
      assert Args(t)[1] == t.thn && Args(t)[2] == t.els;
      if u in Branches(t.thn) {
        BranchesNested(t.thn, u);
        assert u in Subterms(Args(t)[1]);
      } else {
        BranchesNested(t.els, u);
        assert u in Subterms(Args(t)[2]);
      }
    }
  }

  /** The sub-dag of the finished nodes. */
  ghost predicate SubBuilt(root: Term, big: seq<DagNode>, nodes: seq<DagNode>, nodeOf: map<Term, nat>,
                           black: set<nat>) {
    && DagOk(nodes, nodeOf)
    && (forall i :: i in black && i < |big| && big[i].term.Ite? ==> big[i].term in nodeOf)
    && (forall t :: t in nodeOf && t.Ite? ==> exists i :: i in black && i < |big| && big[i].term == t)
    && (forall t :: t in nodeOf ==> t in Branches(root))
  }

  /** The nodes of the big dag that stand for the ite and its branches. */
  ghost function Within(big: seq<DagNode>, root: Term): set<nat> {
    set i: nat | i < |big| && big[i].term in Branches(root)
  }

  lemma WithinClosed(big: seq<DagNode>, nodeOf: map<Term, nat>, root: Term)
    requires DagOk(big, nodeOf)
    ensures forall t: nat, c: nat :: t in Within(big, root) && c in Kids(big)(t) ==> c in Within(big, root)
  {
    forall t: nat, c: nat | t in Within(big, root) && c in Kids(big)(t) ensures c in Within(big, root) {
      assert NodeOk(big, t);
      BranchesNested(root, big[t].term);
    }
  }

  method WhiteRefs(ts: seq<nat>, visited: set<nat>) returns (ps: seq<nat>)
    ensures forall c :: c in ps <==> c in ts && c !in visited
  {
    ps := [];
    for i := 0 to |ts|
      invariant forall c :: c in ps <==> c in ts[..i] && c !in visited
    {
      assert ts[..i + 1] == ts[..i] + [ts[i]];
      if ts[i] !in visited { ps := ps + [ts[i]]; }
    }
    assert ts[..|ts|] == ts;
  }

  lemma NoWhiteRefs(ps: seq<nat>, ts: seq<nat>, visited: set<nat>)
    requires ps == [] && forall c :: c in ps <==> c in ts && c !in visited
    ensures forall c :: c in ts ==> c in visited
  {
  }

  /** Copies the node of an ite whose branches have been copied. */
  method CopyNode(big: seq<DagNode>, bigOf: map<Term, nat>, el: nat, dag: Dag, root: Term, ghost black: set<nat>)
    requires DagOk(big, bigOf) && el < |big| && el !in black && el in Within(big, root)
    requires SubBuilt(root, big, dag.nodes, dag.nodeOf, black) && forall c :: c in Kids(big)(el) ==> c in black
    modifies dag`nodes, dag`nodeOf
    ensures SubBuilt(root, big, dag.nodes, dag.nodeOf, black + {el})
  {
    var term := big[el].term;
    assert NodeOk(big, el);
    assert forall i :: i in black && i < |big| && big[i].term == term ==> i == el;
    if term.Ite? {
      assert big[el].trueChild in Kids(big)(el) && big[el].falseChild in Kids(big)(el);
      dag.StoreIte(term);
      BranchesNested(root, term);
    }
  }

  /** The dag of one ite: the nodes reachable from it, copied children first. */
  method GetReachableSubGraph(main: Dag, root: Term) returns (dag: Dag)
    requires DagOk(main.nodes, main.nodeOf) && root in main.nodeOf && root.Ite?
    ensures fresh(dag) && DagOk(dag.nodes, dag.nodeOf)
    ensures forall t :: t in dag.nodeOf <==> t in Branches(root)
    ensures dag.parents == map[] && dag.leaves == []
  {
    hide Branches, Inv, Within, Children;
    dag := new Dag();
    var big, bigOf := main.nodes, main.nodeOf;
    ghost var kids, size, universe := Kids(big), (i: nat) => i, Within(big, root);
    var rootNode := bigOf[root];
    var queue := [rootNode];
    var visited: set<nat>, black: set<nat> := {}, {};
    SubStarts(big, bigOf, root);
    KidsShrink(big, bigOf);
    WithinClosed(big, bigOf, root);
    Starts<nat>(kids, size, rootNode, universe);
    while |queue| != 0
      modifies dag`nodes, dag`nodeOf
      invariant Inv(Dfs(queue, visited, black), kids, size, rootNode, universe)
      invariant SubBuilt(root, big, dag.nodes, dag.nodeOf, black)
      decreases universe - black, universe - visited, |queue|
    {
      hide SubBuilt, DagOk;
      ghost var s: Dfs<nat> := Dfs(queue, visited, black);
      var el := queue[|queue| - 1];
      if el in black {
        PopBlack<nat>(s, kids, size, rootNode, universe);
        queue := queue[..|queue| - 1];
        continue;
      }
      TopWithin(s, kids, size, rootNode, universe, big, root);
      visited := visited + {el};
      var ps := WhiteRefs(Children(big[el]), visited);
      KidsAt(big, el);
      if ps != [] {
        Push<nat>(s, kids, size, rootNode, universe, ps);
        Progress<nat>(s, el, universe);
        queue := queue + ps;
        continue;
      }
      NoWhiteRefs(ps, Children(big[el]), visited);
      Finish<nat>(s, kids, size, rootNode, universe);
      Progress<nat>(s, el, universe);
      CopyNode(big, bigOf, el, dag, root, black);
      black := black + {el};
      queue := queue[..|queue| - 1];
    }
    Done<nat>(Dfs(queue, visited, black), kids, size, rootNode, universe);
    SubDone(big, bigOf, root, dag.nodes, dag.nodeOf, black);
  }

  lemma KidsAt(nodes: seq<DagNode>, i: nat)
    requires i < |nodes|
    ensures Kids(nodes)(i) == Children(nodes[i])
  {
  }

  lemma TopWithin(s: Dfs<nat>, kids: nat -> seq<nat>, size: nat -> nat, rootNode: nat, universe: set<nat>,
                  big: seq<DagNode>, root: Term)
    requires Inv(s, kids, size, rootNode, universe) && s.stack != [] && universe == Within(big, root)
    ensures s.stack[|s.stack| - 1] < |big| && s.stack[|s.stack| - 1] in universe
  {
    assert s.stack[|s.stack| - 1] in s.stack;
  }

  lemma SubStarts(big: seq<DagNode>, bigOf: map<Term, nat>, root: Term)
    requires DagOk(big, bigOf) && root in bigOf
    ensures bigOf[root] in Within(big, root) && SubBuilt(root, big, [], map[], {})
  {
  }

  /** All branches have nodes: an ite has nodes for its branches. */
  lemma {:induction false} AllBranches(nodes: seq<DagNode>, nodeOf: map<Term, nat>, t: Term)
    requires DagOk(nodes, nodeOf) && t in nodeOf
    ensures forall u :: u in Branches(t) ==> u in nodeOf
  {
    if t.Ite? {
      var i := nodeOf[t];
      assert NodeOk(nodes, i);
      AllBranches(nodes, nodeOf, t.thn);
      AllBranches(nodes, nodeOf, t.els);
    }
  }

  lemma SubDone(big: seq<DagNode>, bigOf: map<Term, nat>, root: Term, nodes: seq<DagNode>, nodeOf: map<Term, nat>,
                black: set<nat>)
    requires DagOk(big, bigOf) && root in bigOf && root.Ite? && bigOf[root] in black
    requires SubBuilt(root, big, nodes, nodeOf, black)
    ensures DagOk(nodes, nodeOf) && forall t :: t in nodeOf <==> t in Branches(root)
  {
    AllBranches(nodes, nodeOf, root);
  }

  // ---------- path conditions are exact ----------

  /** Truth values that respect all Boolean connectives the path conditions are built from. */
  ghost predicate Boolean(e: Truth) {
    && Respects(e)
    && (forall us :: AllBool(us) && |us| >= 2 ==> e(And(us)) == EachTrue(us, e))
    && (forall us :: AllBool(us) && |us| >= 2 ==> e(Or(us)) == OneTrue(us, e))
  }

  lemma ModelBoolean(m: Model)
    ensures Boolean(InModel(m))
  {
    ModelRespects(m);
    forall us | AllBool(us) && |us| >= 2
      ensures Holds(And(us), m) == EachTrue(us, InModel(m)) && Holds(Or(us), m) == OneTrue(us, InModel(m))
    {
      NaryMeaning(us, m);
      assert EachTrue(us, InModel(m)) == EachHolds(us, m) && OneTrue(us, InModel(m)) == OneHolds(us, m);
    }
  }

  lemma NotTruth(t: Term, e: Truth)
    requires WellFormed(t) && IsBool(t) && Respects(e)
    ensures WellFormed(MkNot(t)) && IsBool(MkNot(t)) && e(MkNot(t)) == !e(t)
  {
    MkNotMeaning(t, AnyModel);
    if t.Not? { assert Args(t)[0] == t.arg; }
  }

  lemma PairTruth(a: Term, b: Term, rank: Order, e: Truth)
    requires WellFormed(a) && IsBool(a) && WellFormed(b) && IsBool(b) && Boolean(e)
    ensures WellFormed(MkAnd([a, b], rank)) && IsBool(MkAnd([a, b], rank))
    ensures e(MkAnd([a, b], rank)) <==> e(a) && e(b)
  {
    var ts := [a, b];
    assert AllBool(ts);
    MkAndMeaning(ts, rank, AnyModel);
    MkAndTruth(ts, rank, e);
    assert EachTrue(ts, e) <==> e(ts[0]) && e(ts[1]);
  }

  /** The branch that evaluation takes. */
  function Next(t: Term, e: Truth): Term
    requires t.Ite?
  {
    if e(t.cond) then t.thn else t.els
  }

  /** Evaluation of the ite passes through u. */
  ghost predicate PathTo(t: Term, u: Term, e: Truth) {
    t == u || (t.Ite? && PathTo(Next(t, e), u, e))
  }

  /** The leaf that evaluation reaches. */
  function LeafOf(t: Term, e: Truth): (r: Term)
    ensures !r.Ite?
  {
    if t.Ite? then LeafOf(Next(t, e), e) else t
  }

  lemma {:induction false} LeafPath(t: Term, v: Term, e: Truth)
    requires !v.Ite?
    ensures PathTo(t, v, e) <==> v == LeafOf(t, e)
    ensures LeafOf(t, e) in Branches(t)
  {
    if t.Ite? { LeafPath(Next(t, e), v, e); }
  }

  /** An ite has the value of the leaf that evaluation reaches. */
  lemma {:induction false} LeafValue(t: Term, m: Model)
    ensures Eval(t, m) == Eval(LeafOf(t, InModel(m)), m)
  {
    if t.Ite? { LeafValue(Next(t, InModel(m)), m); }
  }

  lemma {:induction false} PathExtends(t: Term, p: Term, e: Truth)
    requires PathTo(t, p, e) && p.Ite?
    ensures PathTo(t, Next(p, e), e)
  {
    if t != p { PathExtends(Next(t, e), p, e); }
  }

  /** A path to another term ends with a step from a parent. */
  lemma {:induction false} PathParent(t: Term, u: Term, e: Truth) returns (p: Term)
    requires PathTo(t, u, e) && t != u
    ensures p in Branches(t) && p.Ite? && PathTo(t, p, e) && Next(p, e) == u
  {
    if Next(t, e) == u {
      p := t;
    } else {
      p := PathParent(Next(t, e), u, e);
    }
  }

  /** What is known of a sub-dag. */
  ghost predicate SubDag(nodes: seq<DagNode>, nodeOf: map<Term, nat>, root: Term) {
    DagOk(nodes, nodeOf) && WellFormed(root) && root.Ite? && forall t :: t in nodeOf <==> t in Branches(root)
  }

  lemma SubDagNode(nodes: seq<DagNode>, nodeOf: map<Term, nat>, root: Term, i: nat)
    requires SubDag(nodes, nodeOf, root) && i < |nodes|
    ensures nodes[i].term in Branches(root) && WellFormed(nodes[i].term) && NodeOk(nodes, i)
    ensures nodes[i].Inner? ==> WellFormed(nodes[i].cond) && IsBool(nodes[i].cond)
  {
    BranchesNested(root, nodes[i].term);
    SubtermsNested(root, nodes[i].term);
    if nodes[i].Inner? {
      assert NodeOk(nodes, i);
      var t := nodes[i].term;
      assert Args(t)[0] == t.cond;
    }
  }

  /** The root has no parent, and every other node has one. */
  lemma RootParents(nodes: seq<DagNode>, nodeOf: map<Term, nat>, root: Term, c: nat)
    requires SubDag(nodes, nodeOf, root) && c < |nodes|
    ensures ParentsOf(nodes, c) == [] <==> nodes[c].term == root
  {
    if ParentsOf(nodes, c) != [] { HasElement(ParentsOf(nodes, c)); }
    if nodes[c].term == root {
      forall p: Parent | p in ParentsOf(nodes, c) ensures false {
        SubDagNode(nodes, nodeOf, root, p.nr);
        BranchSize(root, nodes[p.nr].term);
        BranchSize(nodes[p.nr].term, root);
      }
    } else {
      SubDagNode(nodes, nodeOf, root, c);
      var p := HasParent(nodes, nodeOf, root, nodes[c].term);
      assert NodeOk(nodes, p.nr);
      assert p in ParentsOf(nodes, c);
    }
  }

  lemma {:induction false} BranchSize(t: Term, u: Term)
    requires u in Branches(t)
    ensures u == t || Size(u) < Size(t)
  {
    if u != t {
      assert Args(t)[1] == t.thn && Args(t)[2] == t.els;
      ArgSmaller(t, 3, 1);
      ArgSmaller(t, 3, 2);
      if u in Branches(t.thn) { BranchSize(t.thn, u); } else { BranchSize(t.els, u); }
    }
  }

  /** The path condition of a node holds exactly when evaluation passes through it. */
  lemma {:induction false} PathExact(nodes: seq<DagNode>, nodeOf: map<Term, nat>, root: Term, c: nat, rank: Order,
                                     e: Truth)
    requires SubDag(nodes, nodeOf, root) && c < |nodes| && Boolean(e)
    ensures WellFormed(PathCond(nodes, c, rank)) && IsBool(PathCond(nodes, c, rank))
    ensures e(PathCond(nodes, c, rank)) <==> PathTo(root, nodes[c].term, e)
    decreases |nodes| - c
  {
    RootParents(nodes, nodeOf, root, c);
    if ParentsOf(nodes, c) == [] {
      OneTruth(True, rank, e);
    } else {
      var ts, ps := EdgeConds(nodes, c, rank), ParentsOf(nodes, c);
      forall k | 0 <= k < |ts|
        ensures WellFormed(ts[k]) && IsBool(ts[k])
        ensures e(ts[k]) <==> TakesEdge(nodes, root, ps[k], e)
      {
        PathExact(nodes, nodeOf, root, ps[k].nr, rank, e);
        EdgeExact(nodes, nodeOf, root, ps[k], PathCond(nodes, ps[k].nr, rank), rank, e);
      }
      JoinExact(nodes, nodeOf, root, c, ts, rank, e);
    }
  }

  lemma OneTruth(t: Term, rank: Order, e: Truth)
    requires WellFormed(t) && IsBool(t) && Boolean(e)
    ensures WellFormed(MkOr([t], rank)) && IsBool(MkOr([t], rank)) && e(MkOr([t], rank)) == e(t)
  {
    var ts := [t];
    assert AllBool(ts);
    MkOrMeaning(ts, rank, AnyModel);
    MkOrTruth(ts, rank, e);
    if e(t) { assert e(ts[0]); }
  }

  /** Evaluation passes through the parent and takes this edge. */
  ghost predicate TakesEdge(nodes: seq<DagNode>, root: Term, p: Parent, e: Truth)
    requires p.nr < |nodes| && nodes[p.nr].Inner?
  {
    PathTo(root, nodes[p.nr].term, e) && e(nodes[p.nr].cond) == p.sign
  }

  lemma EdgeExact(nodes: seq<DagNode>, nodeOf: map<Term, nat>, root: Term, p: Parent, cond: Term, rank: Order, e: Truth)
    requires SubDag(nodes, nodeOf, root) && p.nr < |nodes| && nodes[p.nr].Inner? && Boolean(e)
    requires WellFormed(cond) && IsBool(cond) && (e(cond) <==> PathTo(root, nodes[p.nr].term, e))
    ensures var t := EdgeCond(nodes, p, cond, rank);
            WellFormed(t) && IsBool(t) && (e(t) <==> TakesEdge(nodes, root, p, e))
  {
    SubDagNode(nodes, nodeOf, root, p.nr);
    var c := nodes[p.nr].cond;
    NotTruth(c, e);
    PairTruth(cond, if p.sign then c else MkNot(c), rank, e);
  }

  /** Evaluation passes through a node other than the root exactly when it takes an edge into it. */
  lemma TakesSomeEdge(nodes: seq<DagNode>, nodeOf: map<Term, nat>, root: Term, c: nat, e: Truth)
    requires SubDag(nodes, nodeOf, root) && c < |nodes| && nodes[c].term != root
    ensures PathTo(root, nodes[c].term, e)
       <==> exists k :: 0 <= k < |ParentsOf(nodes, c)| && TakesEdgeAt(nodes, root, c, k, e)
  {
    var ps, u := ParentsOf(nodes, c), nodes[c].term;
    if PathTo(root, u, e) {
      var p := PathParent(root, u, e);
      var q := Parent(nodeOf[p], e(p.cond));
      assert NodeOk(nodes, q.nr);
      assert q in ps;
      var k :| 0 <= k < |ps| && ps[k] == q;
      assert TakesEdgeAt(nodes, root, c, k, e);
    }
    if k :| 0 <= k < |ps| && TakesEdgeAt(nodes, root, c, k, e) {
      assert ps[k] in ps;
      assert NodeOk(nodes, ps[k].nr);
      PathExtends(root, nodes[ps[k].nr].term, e);
    }
  }

  ghost predicate TakesEdgeAt(nodes: seq<DagNode>, root: Term, c: nat, k: nat, e: Truth)
    requires c < |nodes| && k < |ParentsOf(nodes, c)|
  {
    ParentsOf(nodes, c)[k] in ParentsOf(nodes, c) && TakesEdge(nodes, root, ParentsOf(nodes, c)[k], e)
  }

  lemma JoinExact(nodes: seq<DagNode>, nodeOf: map<Term, nat>, root: Term, c: nat, ts: seq<Term>, rank: Order, e: Truth)
    requires SubDag(nodes, nodeOf, root) && c < |nodes| && nodes[c].term != root && Boolean(e)
    requires |ts| == |ParentsOf(nodes, c)| && ts == EdgeConds(nodes, c, rank) && ParentsOf(nodes, c) != []
    requires forall k :: 0 <= k < |ts| ==> WellFormed(ts[k]) && IsBool(ts[k])
    requires forall k :: 0 <= k < |ts| ==>
               ParentsOf(nodes, c)[k] in ParentsOf(nodes, c)
                 && (e(ts[k]) <==> TakesEdge(nodes, root, ParentsOf(nodes, c)[k], e))
    ensures WellFormed(PathCond(nodes, c, rank)) && IsBool(PathCond(nodes, c, rank))
    ensures e(PathCond(nodes, c, rank)) <==> PathTo(root, nodes[c].term, e)
  {
    assert PathCond(nodes, c, rank) == MkOr(ts, rank);
    assert AllBool(ts);
    MkOrMeaning(ts, rank, AnyModel);
    MkOrTruth(ts, rank, e);
    TakesSomeEdge(nodes, nodeOf, root, c, e);
    hide EdgeConds, PathCond, PathTo, Boolean, ParentsOf, TakesEdge, SubDag, WellFormed, SortOf, Respects, EdgeCond;
    forall k | 0 <= k < |ts| ensures e(ts[k]) <==> TakesEdgeAt(nodes, root, c, k, e) {
    }
    if OneTrue(ts, e) {
      var k :| 0 <= k < |ts| && e(ts[k]);
      assert TakesEdgeAt(nodes, root, c, k, e);
    }
    if k :| 0 <= k < |ts| && TakesEdgeAt(nodes, root, c, k, e) {
      assert e(ts[k]);
    }
  }

  // ---------- switches ----------

  lemma ImplTruth(a: Term, b: Term, rank: Order, e: Truth)
    requires WellFormed(a) && IsBool(a) && WellFormed(b) && IsBool(b) && Boolean(e)
    ensures WellFormed(MkImpl(a, b, rank)) && IsBool(MkImpl(a, b, rank))
    ensures e(MkImpl(a, b, rank)) <==> (e(a) ==> e(b))
  {
    MkImplMeaning(a, b, rank, AnyModel);
    NotTruth(a, e);
    var ts := [MkNot(a), b];
    assert AllBool(ts);
    MkOrTruth(ts, rank, e);
    assert OneTrue(ts, e) <==> e(ts[0]) || e(ts[1]);
  }

  /** For every leaf: its path condition implies that the ite equals the leaf's value. */
  function SwitchCases(root: Term, cvs: seq<CondVal>, rank: Order): (r: seq<Term>)
    ensures |r| == |cvs|
    ensures forall i :: 0 <= i < |r| ==> r[i] == MkImpl(cvs[i].cond, MkEq(root, cvs[i].val, rank), rank)
  {
    seq(|cvs|, i requires 0 <= i < |cvs| => MkImpl(cvs[i].cond, MkEq(root, cvs[i].val, rank), rank))
  }

  /** The switch was built from the sub-dag of the ite. */
  ghost predicate IsSwitch(sw: Term, root: Term, nodes: seq<DagNode>, nodeOf: map<Term, nat>, leaves: seq<nat>,
                           rank: Order) {
    && SubDag(nodes, nodeOf, root) && Ascending(leaves)
    && (forall l: nat :: l in leaves <==> l < |nodes| && nodes[l].Leaf?)
    && sw == MkAnd(SwitchCases(root, CondValsFrom(nodes, leaves, 0, rank), rank), rank)
  }

  /** Builds the switch of a top-level ite from the dag of the formula. */
  method MakeSwitch(main: Dag, root: Term, rank: Order)
    returns (sw: Term, ghost nodes: seq<DagNode>, ghost nodeOf: map<Term, nat>, ghost leaves: seq<nat>)
    requires DagOk(main.nodes, main.nodeOf) && root in main.nodeOf && root.Ite? && WellFormed(root)
    ensures IsSwitch(sw, root, nodes, nodeOf, leaves, rank) && WellFormed(sw) && IsBool(sw)
    ensures forall e: Truth :: Boolean(e) ==> (e(sw) <==> e(MkEq(root, LeafOf(root, e), rank)))
  {
    hide *;
    sw, nodes, nodeOf, leaves := SwitchOfDag(main, root, rank);
    ModelBoolean(AnyModel);
    SwitchTruth(sw, root, nodes, nodeOf, leaves, rank, InModel(AnyModel));
    forall e: Truth | Boolean(e) ensures e(sw) <==> e(MkEq(root, LeafOf(root, e), rank)) {
      SwitchTruth(sw, root, nodes, nodeOf, leaves, rank, e);
    }
  }

  method SwitchOfDag(main: Dag, root: Term, rank: Order)
    returns (sw: Term, ghost nodes: seq<DagNode>, ghost nodeOf: map<Term, nat>, ghost leaves: seq<nat>)
    requires DagOk(main.nodes, main.nodeOf) && root in main.nodeOf && root.Ite? && WellFormed(root)
    ensures IsSwitch(sw, root, nodes, nodeOf, leaves, rank)
  {
    hide PathCond, Branches;
    var dag := GetReachableSubGraph(main, root);
    assert root in Branches(root);
    dag.AnnotateWithParentInfo(root);
    forall c | 0 <= c < |dag.nodes| ensures dag.parents[c] == ParentsOf(dag.nodes, c) {
      ParentsListed(dag.nodes, dag.nodeOf, dag.parents[c], c);
    }
    var rootSwitches := dag.GetCondValPairs(rank);
    nodes, nodeOf, leaves := dag.nodes, dag.nodeOf, dag.leaves;
    var cases: seq<Term> := [];
    for i := 0 to |rootSwitches|
      invariant cases == SwitchCases(root, rootSwitches, rank)[..i]
    {
      cases := cases + [MkImpl(rootSwitches[i].cond, MkEq(root, rootSwitches[i].val, rank), rank)];
    }
    assert cases == SwitchCases(root, rootSwitches, rank);
    sw := MkAnd(cases, rank);
  }

  /** Every pair of the list belongs to a leaf. */
  lemma {:induction false} CondValLeaf(nodes: seq<DagNode>, leaves: seq<nat>, j: nat, rank: Order, i: nat)
    returns (l: nat)
    requires j <= |leaves| && (forall l :: l in leaves ==> l < |nodes|) && i < |CondValsFrom(nodes, leaves, j, rank)|
    ensures l in leaves && CondValsFrom(nodes, leaves, j, rank)[i] == CondVal(PathCond(nodes, l, rank), nodes[l].term)
    decreases |leaves| - j
  {
    hide PathCond;
    assert leaves[j] in leaves;
    if i < |CondValsFrom(nodes, leaves, j + 1, rank)| {
      l := CondValLeaf(nodes, leaves, j + 1, rank, i);
    } else {
      l := leaves[j];
    }
  }

  /** Every leaf has its pair in the list. */
  lemma {:induction false} LeafCondVal(nodes: seq<DagNode>, leaves: seq<nat>, j: nat, rank: Order, k: nat)
    returns (i: nat)
    requires j <= k < |leaves| && forall l :: l in leaves ==> l < |nodes|
    ensures leaves[k] in leaves && i < |CondValsFrom(nodes, leaves, j, rank)|
    ensures CondValsFrom(nodes, leaves, j, rank)[i] == CondVal(PathCond(nodes, leaves[k], rank), nodes[leaves[k]].term)
    decreases |leaves| - j
  {
    hide PathCond;
    assert leaves[k] in leaves && leaves[j] in leaves;
    if j < k {
      i := LeafCondVal(nodes, leaves, j + 1, rank, k);
    } else {
      i := |CondValsFrom(nodes, leaves, j + 1, rank)|;
    }
  }

  /** Case i of the switch is that of a leaf, and holds exactly if reaching the leaf makes the ite equal to it. */
  lemma CaseTruth(sw: Term, root: Term, nodes: seq<DagNode>, nodeOf: map<Term, nat>, leaves: seq<nat>, rank: Order,
                  e: Truth, i: nat)
    requires IsSwitch(sw, root, nodes, nodeOf, leaves, rank) && Boolean(e)
    requires i < |CondValsFrom(nodes, leaves, 0, rank)|
    ensures var cvs := CondValsFrom(nodes, leaves, 0, rank);
            var t := SwitchCases(root, cvs, rank)[i];
            && WellFormed(t) && IsBool(t) && !cvs[i].val.Ite?
            && (e(t) <==> (cvs[i].val == LeafOf(root, e) ==> e(MkEq(root, cvs[i].val, rank))))
  {
    var cvs := CondValsFrom(nodes, leaves, 0, rank);
    var l := CondValLeaf(nodes, leaves, 0, rank, i);
    PathExact(nodes, nodeOf, root, l, rank, e);
    SubDagNode(nodes, nodeOf, root, l);
    var v := nodes[l].term;
    LeafPath(root, v, e);
    BranchSort(root, v);
    MkEqMeaning(root, v, rank, AnyModel);
    ImplTruth(cvs[i].cond, MkEq(root, v, rank), rank, e);
  }

  lemma {:induction false} BranchSort(t: Term, u: Term)
    requires WellFormed(t) && u in Branches(t)
    ensures SortOf(u) == SortOf(t) && WellFormed(u)
  {
    if u != t {
      assert Args(t)[1] == t.thn && Args(t)[2] == t.els;
      if u in Branches(t.thn) { BranchSort(t.thn, u); } else { BranchSort(t.els, u); }
    }
  }

  /** The switch holds exactly when the ite equals the leaf that evaluation reaches. */
  lemma SwitchTruth(sw: Term, root: Term, nodes: seq<DagNode>, nodeOf: map<Term, nat>, leaves: seq<nat>, rank: Order,
                    e: Truth)
    requires IsSwitch(sw, root, nodes, nodeOf, leaves, rank) && Boolean(e)
    ensures WellFormed(sw) && IsBool(sw)
    ensures e(sw) <==> e(MkEq(root, LeafOf(root, e), rank))
  {
    hide PathCond, Boolean;
    var cvs := CondValsFrom(nodes, leaves, 0, rank);
    var ts, v := SwitchCases(root, cvs, rank), LeafOf(root, e);
    forall i | 0 <= i < |ts|
      ensures WellFormed(ts[i]) && IsBool(ts[i])
      ensures e(ts[i]) <==> (cvs[i].val == v ==> e(MkEq(root, v, rank)))
    {
      CaseTruth(sw, root, nodes, nodeOf, leaves, rank, e, i);
    }
    CasesJoin(ts, rank, e);
    LeafPath(root, v, e);
    assert NodeOk(nodes, nodeOf[v]);
    assert nodeOf[v] in leaves;
    var k :| 0 <= k < |leaves| && leaves[k] == nodeOf[v];
    var i := LeafCondVal(nodes, leaves, 0, rank, k);
    assert cvs[i].val == v;
  }

  lemma CasesJoin(ts: seq<Term>, rank: Order, e: Truth)
    requires AllBool(ts) && Boolean(e)
    ensures WellFormed(MkAnd(ts, rank)) && IsBool(MkAnd(ts, rank)) && e(MkAnd(ts, rank)) == EachTrue(ts, e)
  {
    MkAndMeaning(ts, rank, AnyModel);
    MkAndTruth(ts, rank, e);
  }

  /** The pairs in order: one for every leaf, the last leaf first. */
  lemma {:induction false} CondValAt(nodes: seq<DagNode>, leaves: seq<nat>, j: nat, rank: Order, i: nat)
    requires j <= |leaves| && (forall l :: l in leaves ==> l < |nodes|) && i < |leaves| - j
    ensures |CondValsFrom(nodes, leaves, j, rank)| == |leaves| - j && leaves[|leaves| - 1 - i] in leaves
    ensures var l := leaves[|leaves| - 1 - i];
            CondValsFrom(nodes, leaves, j, rank)[i] == CondVal(PathCond(nodes, l, rank), nodes[l].term)
    decreases |leaves| - j
  {
    hide PathCond;
    assert leaves[j] in leaves;
    if i < |leaves| - j - 1 {
      CondValAt(nodes, leaves, j + 1, rank, i);
    } else if j + 1 < |leaves| {
      CondValAt(nodes, leaves, j + 1, rank, 0);
    }
  }

  /** Whatever the truth values, exactly one leaf has a condition that holds: the leaf that evaluation reaches. */
  lemma OneCondition(nodes: seq<DagNode>, nodeOf: map<Term, nat>, root: Term, leaves: seq<nat>, rank: Order, e: Truth)
    returns (i: nat)
    requires SubDag(nodes, nodeOf, root) && Boolean(e)
    requires Ascending(leaves) && forall l: nat :: l in leaves <==> l < |nodes| && nodes[l].Leaf?
    ensures var cvs := CondValsFrom(nodes, leaves, 0, rank);
            i < |cvs| && cvs[i].val == LeafOf(root, e) && forall k :: 0 <= k < |cvs| ==> (e(cvs[k].cond) <==> k == i)
  {
    hide PathCond, Boolean;
    var cvs, v := CondValsFrom(nodes, leaves, 0, rank), LeafOf(root, e);
    LeafPath(root, v, e);
    assert NodeOk(nodes, nodeOf[v]);
    assert nodeOf[v] in leaves;
    var q :| 0 <= q < |leaves| && leaves[q] == nodeOf[v];
    i := |leaves| - 1 - q;
    CondValAt(nodes, leaves, 0, rank, i);
    forall k | 0 <= k < |cvs| ensures e(cvs[k].cond) <==> k == i {
      ConditionOfLeaf(nodes, nodeOf, root, leaves, rank, e, k);
    }
  }

  lemma ConditionOfLeaf(nodes: seq<DagNode>, nodeOf: map<Term, nat>, root: Term, leaves: seq<nat>, rank: Order,
                        e: Truth, k: nat)
    requires SubDag(nodes, nodeOf, root) && Boolean(e) && LeafOf(root, e) in nodeOf
    requires Ascending(leaves) && forall l: nat :: l in leaves <==> l < |nodes| && nodes[l].Leaf?
    requires k < |leaves| == |CondValsFrom(nodes, leaves, 0, rank)|
    ensures e(CondValsFrom(nodes, leaves, 0, rank)[k].cond) <==> leaves[|leaves| - 1 - k] == nodeOf[LeafOf(root, e)]
  {
    CondValAt(nodes, leaves, 0, rank, k);
    var l := leaves[|leaves| - 1 - k];
    assert NodeOk(nodes, l);
    hide PathCond, Boolean, CondValsFrom;
    PathExact(nodes, nodeOf, root, l, rank, e);
    LeafPath(root, nodes[l].term, e);
  }
}
