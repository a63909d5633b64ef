/**
 The two topological sorts of a proof graph: from the leaves down to the root, and from the
 root up to the leaves.
 */
module TopologicalOrder {
  import opened Sequences

  datatype ProofNode = ProofNode(ant1: Option<nat>, ant2: Option<nat>, resolvents: set<nat>)

  /** Nodes by identifier; a deleted node leaves a gap. */
  type Graph = seq<Option<ProofNode>>

  predicate Live(g: Graph, id: nat) {
    id < |g| && g[id].Some?
  }

  predicate IsAnt(n: ProofNode, a: nat) {
    n.ant1 == Some(a) || n.ant2 == Some(a)
  }

  /** The antecedents and the resolvents of live nodes mirror each other. */
  ghost predicate Linked(g: Graph) {
    && (forall n: nat, a: nat :: Live(g, n) && IsAnt(g[n].value, a) ==> Live(g, a) && n in g[a].value.resolvents)
    && (forall n: nat, a: nat :: Live(g, a) && n in g[a].value.resolvents && Live(g, n) ==> IsAnt(g[n].value, a))
  }

  /** A list of distinct live nodes is no longer than the graph. */
  lemma FewerThanNodes(g: Graph, xs: seq<nat>)
    requires Distinct(xs) && forall x :: x in xs ==> Live(g, x)
    ensures |xs| <= |g|
  {
    DistinctSize(xs);
    SubsetSize(ToSet(xs), UpTo(|g|));
  }

  // ---------- from the leaves ----------

  /** Both antecedents of the node are in the set. */
  ghost predicate AntsIn(n: ProofNode, xs: set<nat>) {
    (n.ant1.Some? ==> n.ant1.value in xs) && (n.ant2.Some? ==> n.ant2.value in xs)
  }

  /** The node is listed as a leaf or is the resolvent of a node in the set. */
  ghost predicate Offered(g: Graph, leaves: set<nat>, xs: set<nat>, id: nat)
    requires Live(g, id)
  {
    id in leaves || exists a :: a in xs && IsAnt(g[id].value, a)
  }

  /** Every node that can be derived from the set in one step is in it. */
  ghost predicate Closed(g: Graph, leaves: set<nat>, xs: set<nat>) {
    forall id: nat :: Live(g, id) && AntsIn(g[id].value, xs) && Offered(g, leaves, xs, id) ==> id in xs
  }

  /** Every node of the list follows both its antecedents, and was offered by a leaf or an earlier node. */
  ghost predicate Justified(g: Graph, leaves: set<nat>, order: seq<nat>) {
    forall k :: 0 <= k < |order| ==>
      Live(g, order[k]) && AntsIn(g[order[k]].value, ToSet(order[..k]))
        && Offered(g, leaves, ToSet(order[..k]), order[k])
  }

  /** The nodes that are derivable from the leaves: the least closed set. */
  ghost predicate Derivable(g: Graph, leaves: set<nat>, xs: set<nat>) {
    Closed(g, leaves, xs) && forall ys: set<nat> :: Closed(g, leaves, ys) ==> xs <= ys
  }

  /** What is justified is in every closed set. */
  lemma {:induction false} JustifiedLeast(g: Graph, leaves: set<nat>, order: seq<nat>, ys: set<nat>)
    requires Justified(g, leaves, order) && Closed(g, leaves, ys)
    ensures ToSet(order) <= ys
  {
    if order != [] {
      var n := |order| - 1;
      var r := order[..n];
      assert order == r + [order[n]];
      forall k | 0 <= k < n ensures order[..k] == r[..k] {}
      JustifiedLeast(g, leaves, r, ys);
      assert ToSet(order[..n]) <= ys;
      assert AntsIn(g[order[n]].value, ys) && Offered(g, leaves, ys, order[n]);
    }
  }

  /** The state of the traversal from the leaves. */
  ghost predicate TopDown(g: Graph, leaves: set<nat>, q: seq<nat>, visited: set<nat>, order: seq<nat>) {
    && visited == ToSet(order) && Distinct(order) && Justified(g, leaves, order)
    && (forall id :: id in q ==> Live(g, id) && Offered(g, leaves, visited, id))
    && (forall id: nat ::
          Live(g, id) && id !in visited && AntsIn(g[id].value, visited) && Offered(g, leaves, visited, id) ==> id in q)
  }

  lemma TopDownStarts(g: Graph, leaves: set<nat>, q: seq<nat>)
    requires (forall id :: id in leaves ==> Live(g, id)) && forall id :: id in q <==> id in leaves
    ensures TopDown(g, leaves, q, {}, [])
  {
    assert ToSet<nat>([]) == {};
  }

  lemma TopDownDrop(g: Graph, leaves: set<nat>, q: seq<nat>, visited: set<nat>, order: seq<nat>)
    requires TopDown(g, leaves, q, visited, order) && q != []
    requires Live(g, q[0]) ==> q[0] in visited || !AntsIn(g[q[0]].value, visited)
    ensures TopDown(g, leaves, q[1..], visited, order)
  {
    assert q == [q[0]] + q[1..];
    hide AntsIn, Offered, Justified, Distinct, Live;
  }

  lemma TopDownVisit(g: Graph, leaves: set<nat>, q: seq<nat>, visited: set<nat>, order: seq<nat>, rs: seq<nat>)
    requires TopDown(g, leaves, q, visited, order) && q != [] && Linked(g) && Live(g, q[0])
    requires q[0] !in visited && AntsIn(g[q[0]].value, visited)
    requires forall r :: r in rs <==> r in g[q[0]].value.resolvents && Live(g, r)
    ensures TopDown(g, leaves, q[1..] + rs, visited + {q[0]}, order + [q[0]])
  {
    var id := q[0];
    var visited', order', q' := visited + {id}, order + [id], q[1..] + rs;
    assert q == [id] + q[1..];
    assert ToSet(order') == visited';
    DistinctPush(order, id);
    forall k | 0 <= k < |order| ensures order'[..k] == order[..k] {}
    assert order'[..|order|] == order;
    assert Justified(g, leaves, order');
    forall x | x in q' ensures Live(g, x) && Offered(g, leaves, visited', x) {
      if x in rs { assert IsAnt(g[x].value, id); }
    }
    forall x: nat | Live(g, x) && x !in visited' && AntsIn(g[x].value, visited') && Offered(g, leaves, visited', x)
      ensures x in q'
    {
      if IsAnt(g[x].value, id) {
        assert x in rs;
      } else {
        assert AntsIn(g[x].value, visited) && Offered(g, leaves, visited, x);
      }
    }
  }

  lemma TopDownEnds(g: Graph, leaves: set<nat>, visited: set<nat>, order: seq<nat>)
    requires TopDown(g, leaves, [], visited, order)
    ensures Derivable(g, leaves, ToSet(order)) && Distinct(order) && Justified(g, leaves, order)
  {
    forall ys: set<nat> | Closed(g, leaves, ys) ensures ToSet(order) <= ys {
      JustifiedLeast(g, leaves, order, ys);
    }
  }

  /** The elements of a set, one after the other, that are live nodes. */
  method LiveNodes(g: Graph, ids: set<nat>) returns (r: seq<nat>)
    ensures forall x :: x in r <==> x in ids && Live(g, x)
  {
    r := [];
    var left := ids;
    while left != {}
      invariant left <= ids && forall x :: x in r <==> x in ids - left && Live(g, x)
      decreases left
    {
      var x :| x in left;
      if Live(g, x) { r := r + [x]; }
      left := left - {x};
    }
  }

  /**
   Sorts the nodes that are derivable from the leaves: each occurs once, after both its
   antecedents. A node that is met too early is dropped; its last antecedent offers it again.
   */
  method TopolSortingTopDown(g: Graph, leaves: set<nat>) returns (order: seq<nat>)
    requires Linked(g) && leaves != {} && forall id :: id in leaves ==> Live(g, id)
    ensures Distinct(order) && Justified(g, leaves, order) && Derivable(g, leaves, ToSet(order))
  {
    var q := LiveNodes(g, leaves);
    var visited: set<nat> := {};
    order := [];
    TopDownStarts(g, leaves, q);
    hide TopDown, Linked, Justified, Derivable, Distinct, AntsIn;
    while q != []
      invariant TopDown(g, leaves, q, visited, order)
      decreases |g| - |order|, |q|
    {
      TopDownFirst(g, leaves, q, visited, order);
      var id := q[0];
      var n := g[id].value;
      ghost var q0 := q;
      q := q[1..];
      if id !in visited && HasAnts(n, visited) {
        var rs := LiveNodes(g, n.resolvents);
        TopDownVisit(g, leaves, q0, visited, order, rs);
        visited, order, q := visited + {id}, order + [id], q + rs;
        TopDownBound(g, leaves, q, visited, order);
      } else {
        TopDownDrop(g, leaves, q0, visited, order);
      }
    }
    TopDownEnds(g, leaves, visited, order);
  }

  predicate HasAnts(n: ProofNode, visited: set<nat>)
    ensures HasAnts(n, visited) <==> AntsIn(n, visited)
  {
    (n.ant1.None? || n.ant1.value in visited) && (n.ant2.None? || n.ant2.value in visited)
  }

  lemma TopDownFirst(g: Graph, leaves: set<nat>, q: seq<nat>, visited: set<nat>, order: seq<nat>)
    requires TopDown(g, leaves, q, visited, order) && q != []
    ensures Live(g, q[0])
  {
  }

  lemma TopDownBound(g: Graph, leaves: set<nat>, q: seq<nat>, visited: set<nat>, order: seq<nat>)
    requires TopDown(g, leaves, q, visited, order)
    ensures |order| <= |g|
  {
    forall x | x in order ensures Live(g, x) {
      var k :| 0 <= k < |order| && order[k] == x;
    }
    FewerThanNodes(g, order);
  }

  // ---------- from the root ----------

  /** A node has two different antecedents or none. */
  ghost predicate Binary(g: Graph) {
    forall id: nat :: Live(g, id) ==> TwoOrNone(g[id].value)
  }

  predicate TwoOrNone(n: ProofNode) {
    (n.ant1.None? && n.ant2.None?) || (n.ant1.Some? && n.ant2.Some? && n.ant1 != n.ant2)
  }

  /** The graph has no cycle: antecedents have a smaller rank. */
  ghost predicate Acyclic(g: Graph, rank: nat -> nat) {
    forall n: nat, a: nat :: Live(g, n) && IsAnt(g[n].value, a) ==> rank(a) < rank(n)
  }

  ghost predicate ProofDag(g: Graph, rank: nat -> nat) {
    Linked(g) && Binary(g) && Acyclic(g, rank)
  }

  /** The nodes the proof of a node consists of. */
  ghost function Proof(g: Graph, rank: nat -> nat, id: nat): set<nat>
    requires ProofDag(g, rank) && Live(g, id)
    decreases rank(id)
  {
    var n := g[id].value;
    if n.ant1.Some? && n.ant2.Some? then
      assert IsAnt(n, n.ant1.value) && IsAnt(n, n.ant2.value);
      {id} + Proof(g, rank, n.ant1.value) + Proof(g, rank, n.ant2.value)
    else {id}
  }

  lemma {:induction false} ProofFacts(g: Graph, rank: nat -> nat, id: nat, x: nat)
    requires ProofDag(g, rank) && Live(g, id) && x in Proof(g, rank, id)
    ensures Live(g, x) && (x == id || rank(x) < rank(id))
    ensures forall a :: IsAnt(g[x].value, a) ==> a in Proof(g, rank, id)
    ensures x != id ==> exists r :: r in Proof(g, rank, id) && r in g[x].value.resolvents && Live(g, r)
    decreases rank(id)
  {
    var n := g[id].value;
    assert TwoOrNone(n);
    if n.ant1.Some? {
      var a, b := n.ant1.value, n.ant2.value;
      assert IsAnt(n, a) && IsAnt(n, b);
      SelfProof(g, rank, a);
      SelfProof(g, rank, b);
      SelfProof(g, rank, id);
      if x == id {
      } else if x in Proof(g, rank, a) {
        ProofFacts(g, rank, a, x);
        if x == a { assert id in g[x].value.resolvents; }
      } else {
        ProofFacts(g, rank, b, x);
        if x == b { assert id in g[x].value.resolvents; }
      }
    }
  }

  lemma SelfProof(g: Graph, rank: nat -> nat, id: nat)
    requires ProofDag(g, rank) && Live(g, id)
    ensures id in Proof(g, rank, id)
  {
  }

  /** All resolvents of the proof's nodes, the root aside, belong to the proof. */
  ghost predicate Enclosed(g: Graph, rank: nat -> nat, root: nat)
    requires ProofDag(g, rank) && Live(g, root)
  {
    var p := Proof(g, rank, root);
    forall x :: x in p && x != root ==> Live(g, x) && g[x].value.resolvents <= p
  }

  /** How many resolvents of the node are in the list. */
  ghost function Seen(g: Graph, order: seq<nat>, x: nat): nat
    requires Live(g, x)
  {
    |g[x].value.resolvents * ToSet(order)|
  }

  /** How often the node occurs in the list. */
  function Pops(q: seq<nat>, x: nat): nat {
    if q == [] then 0 else Pops(q[..|q| - 1], x) + if q[|q| - 1] == x then 1 else 0
  }

  lemma {:induction false} PopsAppend(p: seq<nat>, q: seq<nat>, x: nat)
    ensures Pops(p + q, x) == Pops(p, x) + Pops(q, x)
  {
    if q == [] {
      assert p + q == p;
    } else {
      assert (p + q)[..|p + q| - 1] == p + q[..|q| - 1];
      PopsAppend(p, q[..|q| - 1], x);
    }
  }

  lemma PopsLast(q: seq<nat>, x: nat)
    requires q != []
    ensures Pops(q, x) == Pops(q[..|q| - 1], x) + if q[|q| - 1] == x then 1 else 0
  {
  }

  /** Every visit and every pending visit of a node is due to a resolvent in the list. */
  ghost predicate Counted(g: Graph, root: nat, q: seq<nat>, count: seq<nat>, order: seq<nat>) {
    && |count| == |g|
    && (forall x: nat :: Live(g, x) && x != root ==> count[x] + Pops(q, x) == Seen(g, order, x))
    && (forall x: nat :: Live(g, x) && x != root && 0 < count[x] == |g[x].value.resolvents| ==> x in order)
    && (forall x :: x in order && x != root ==> Live(g, x) && count[x] == |g[x].value.resolvents|)
  }

  /** Every node of the list is in the root's proof and follows all its resolvents. */
  ghost predicate Descending(g: Graph, rank: nat -> nat, root: nat, order: seq<nat>)
    requires ProofDag(g, rank) && Live(g, root)
  {
    && Distinct(order) && (forall x :: x in order ==> x in Proof(g, rank, root) && Live(g, x))
    && (forall k :: 0 <= k < |order| && order[k] != root ==>
        Live(g, order[k]) && g[order[k]].value.resolvents <= ToSet(order[..k]))
  }

  /** The state of the traversal from the root. */
  ghost predicate BotUp(g: Graph, rank: nat -> nat, root: nat, q: seq<nat>, count: seq<nat>, order: seq<nat>) {
    && ProofDag(g, rank) && Live(g, root)
    && Counted(g, root, q, count, order) && Descending(g, rank, root, order)
    && (forall x :: x in q ==> x in Proof(g, rank, root) && Live(g, x))
    && (if root in order then root !in q else q == [root] && order == [])
  }

  lemma SeenStep(g: Graph, order: seq<nat>, id: nat, x: nat)
    requires Linked(g) && Live(g, x) && Live(g, id) && id !in order
    ensures Seen(g, order + [id], x) == Seen(g, order, x) + if IsAnt(g[id].value, x) then 1 else 0
    ensures IsAnt(g[id].value, x) ==> Seen(g, order, x) < |g[x].value.resolvents|
  {
    var rs := g[x].value.resolvents;
    assert ToSet(order + [id]) == ToSet(order) + {id};
    if IsAnt(g[id].value, x) {
      assert rs * ToSet(order + [id]) == rs * ToSet(order) + {id};
      SubsetSize(rs * ToSet(order) + {id}, rs);
    } else {
      assert rs * ToSet(order + [id]) == rs * ToSet(order);
    }
  }

  lemma SeenAll(g: Graph, order: seq<nat>, x: nat)
    requires Live(g, x)
    ensures Seen(g, order, x) <= |g[x].value.resolvents|
    ensures Seen(g, order, x) == |g[x].value.resolvents| <==> g[x].value.resolvents <= ToSet(order)
  {
    var rs := g[x].value.resolvents;
    SubsetSize(rs * ToSet(order), rs);
    if rs <= ToSet(order) { assert rs * ToSet(order) == rs; }
  }

  /** The antecedents of a node, in the order they are pushed. */
  function Ants(n: ProofNode): seq<nat> {
    if n.ant1.Some? && n.ant2.Some? then [n.ant1.value, n.ant2.value] else []
  }

  lemma AntsOnce(n: ProofNode, x: nat)
    requires TwoOrNone(n)
    ensures Pops(Ants(n), x) == if IsAnt(n, x) then 1 else 0
    ensures x in Ants(n) <==> IsAnt(n, x)
  {
    if n.ant1.Some? {
      var a, b := n.ant1.value, n.ant2.value;
      assert [a, b][..1] == [a] && [a][..0] == [];
      assert Pops([a], x) == if a == x then 1 else 0;
    }
  }

  /** The list after a visit of the node. */
  function Listed(g: Graph, root: nat, id: nat, count: seq<nat>, order: seq<nat>): seq<nat>
    requires Live(g, id) && id < |count|
  {
    if count[id] + 1 == |g[id].value.resolvents| || id == root then order + [id] else order
  }

  /** The stack after a visit of the node. */
  function Pending(g: Graph, root: nat, id: nat, count: seq<nat>, rest: seq<nat>): seq<nat>
    requires Live(g, id) && id < |count|
  {
    if count[id] + 1 == |g[id].value.resolvents| || id == root then rest + Ants(g[id].value) else rest
  }

  /** A node that is popped again has not been listed; if it is due now, its resolvents have. */
  lemma Popped(g: Graph, rank: nat -> nat, root: nat, q: seq<nat>, count: seq<nat>, order: seq<nat>)
    requires BotUp(g, rank, root, q, count, order) && q != []
    ensures var id := q[|q| - 1];
            && Live(g, id) && id < |count| && id !in order && id in Proof(g, rank, root)
            && (count[id] + 1 == |g[id].value.resolvents| && id != root ==> g[id].value.resolvents <= ToSet(order))
  {
    var id := q[|q| - 1];
    assert id in q;
    PopsLast(q, id);
    SeenAll(g, order, id);
    hide Proof, Seen;
  }

  lemma CountedStep(g: Graph, rank: nat -> nat, root: nat, q: seq<nat>, count: seq<nat>, order: seq<nat>)
    requires BotUp(g, rank, root, q, count, order) && q != [] && Live(g, q[|q| - 1]) && q[|q| - 1] < |count|
    requires q[|q| - 1] !in order
    ensures var id := q[|q| - 1];
            Counted(g, root, Pending(g, root, id, count, q[..|q| - 1]), count[id := count[id] + 1],
                    Listed(g, root, id, count, order))
  {
    hide *;
    var id, rest := q[|q| - 1], q[..|q| - 1];
    CountedParts(g, rank, root, q, count, order);
    VisitIs(g, root, id, count, rest, order);
    forall x: nat | Live(g, x) && x != root
      ensures count[id := count[id] + 1][x] + Pops(Pending(g, root, id, count, rest), x) ==
                Seen(g, Listed(g, root, id, count, order), x)
    {
      SeenGrows(g, root, q, count, order, x);
    }
    CountedAgain(g, root, q, count, order, id, Pending(g, root, id, count, rest), Listed(g, root, id, count, order));
  }

  lemma CountedParts(g: Graph, rank: nat -> nat, root: nat, q: seq<nat>, count: seq<nat>, order: seq<nat>)
    requires BotUp(g, rank, root, q, count, order)
    ensures Linked(g) && Binary(g) && Counted(g, root, q, count, order)
    ensures |count| == |g| && forall x: nat :: Live(g, x) ==> x < |count|
  {
  }

  lemma CountedAgain(g: Graph, root: nat, q: seq<nat>, count: seq<nat>, order: seq<nat>, id: nat, q': seq<nat>,
                     order': seq<nat>)
    requires Counted(g, root, q, count, order) && Live(g, id) && id < |count| && id !in order
    requires forall x :: x in order' <==> x in order || (x == id && order' != order)
    requires order' != order <==> count[id] + 1 == |g[id].value.resolvents| || id == root
    requires forall x: nat :: Live(g, x) && x != root ==>
      count[id := count[id] + 1][x] + Pops(q', x) == Seen(g, order', x)
    ensures Counted(g, root, q', count[id := count[id] + 1], order')
  {
    hide Seen, Pops;
  }

  lemma SeenGrows(g: Graph, root: nat, q: seq<nat>, count: seq<nat>, order: seq<nat>, x: nat)
    requires Linked(g) && Binary(g) && Counted(g, root, q, count, order) && Live(g, x) && x != root
    requires q != [] && Live(g, q[|q| - 1]) && q[|q| - 1] < |count| && q[|q| - 1] !in order
    ensures var id := q[|q| - 1];
            count[id := count[id] + 1][x] + Pops(Pending(g, root, id, count, q[..|q| - 1]), x) ==
              Seen(g, Listed(g, root, id, count, order), x)
  {
    var id, rest := q[|q| - 1], q[..|q| - 1];
    assert TwoOrNone(g[id].value);
    PopsLast(q, x);
    SeenStep(g, order, id, x);
    AntsOnce(g[id].value, x);
    PopsAppend(rest, Ants(g[id].value), x);
    hide Seen, Pops, Ants, Linked;
  }

  lemma DescendingStep(g: Graph, rank: nat -> nat, root: nat, order: seq<nat>, id: nat)
    requires ProofDag(g, rank) && Live(g, root) && Descending(g, rank, root, order) && Live(g, id)
    requires id in Proof(g, rank, root) && id !in order && (id != root ==> g[id].value.resolvents <= ToSet(order))
    ensures Descending(g, rank, root, order + [id])
  {
    var order' := order + [id];
    DistinctPush(order, id);
    forall k | 0 <= k < |order'| && order'[k] != root
      ensures Live(g, order'[k]) && g[order'[k]].value.resolvents <= ToSet(order'[..k])
    {
      if k < |order| {
        assert order'[..k] == order[..k];
      } else {
        assert order'[..k] == order;
      }
    }
  }

  /** The antecedents of a node of the proof belong to it, and are not its root. */
  lemma AntsBelong(g: Graph, rank: nat -> nat, root: nat, id: nat)
    requires ProofDag(g, rank) && Live(g, root) && Live(g, id) && id in Proof(g, rank, root)
    ensures forall x :: x in Ants(g[id].value) ==> Live(g, x) && x in Proof(g, rank, root) && x != root
  {
    ProofFacts(g, rank, root, id);
    forall x | x in Ants(g[id].value) ensures Live(g, x) && x in Proof(g, rank, root) && x != root {
      AntsOnce(g[id].value, x);
      assert rank(x) < rank(id);
    }
  }

  lemma BotUpStep(g: Graph, rank: nat -> nat, root: nat, q: seq<nat>, count: seq<nat>, order: seq<nat>)
    requires BotUp(g, rank, root, q, count, order) && q != []
    ensures var id := q[|q| - 1];
            && Live(g, id) && id < |count|
            && BotUp(g, rank, root, Pending(g, root, id, count, q[..|q| - 1]), count[id := count[id] + 1],
                     Listed(g, root, id, count, order))
  {
    hide *;
    var id, rest := q[|q| - 1], q[..|q| - 1];
    BotUpParts(g, rank, root, q, count, order);
    Popped(g, rank, root, q, count, order);
    CountedStep(g, rank, root, q, count, order);
    AntsBelong(g, rank, root, id);
    var q', order' := Pending(g, root, id, count, rest), Listed(g, root, id, count, order);
    VisitIs(g, root, id, count, rest, order);
    if order' != order { DescendingStep(g, rank, root, order, id); }
    BotUpAgain(g, rank, root, q, count, order, q', count[id := count[id] + 1], order');
  }

  lemma BotUpParts(g: Graph, rank: nat -> nat, root: nat, q: seq<nat>, count: seq<nat>, order: seq<nat>)
    requires BotUp(g, rank, root, q, count, order)
    ensures ProofDag(g, rank) && Live(g, root) && Descending(g, rank, root, order)
  {
  }

  lemma VisitIs(g: Graph, root: nat, id: nat, count: seq<nat>, rest: seq<nat>, order: seq<nat>)
    requires Live(g, id) && id < |count| && id !in order
    ensures var (q', order') := (Pending(g, root, id, count, rest), Listed(g, root, id, count, order));
            && (order' != order <==> count[id] + 1 == |g[id].value.resolvents| || id == root)
            && (order' != order ==> order' == order + [id])
            && (id == root ==> id in order')
            && (forall x :: x in q' ==> x in rest || x in Ants(g[id].value))
            && (forall x :: x in order' <==> x in order || (x == id && order' != order))
            && (order' == order ==> id != root)
  {
    hide Ants;
  }

  lemma BotUpAgain(g: Graph, rank: nat -> nat, root: nat, q: seq<nat>, count: seq<nat>, order: seq<nat>,
                   q': seq<nat>, count': seq<nat>, order': seq<nat>)
    requires BotUp(g, rank, root, q, count, order) && q != [] && Live(g, q[|q| - 1])
    requires Counted(g, root, q', count', order') && Descending(g, rank, root, order')
    requires forall x :: x in q' ==> x in q[..|q| - 1] || x in Ants(g[q[|q| - 1]].value)
    requires forall x :: x in Ants(g[q[|q| - 1]].value) ==> Live(g, x) && x in Proof(g, rank, root) && x != root
    requires forall x :: x in order' <==> x in order || (x == q[|q| - 1] && order' != order)
    requires order' == order ==> q[|q| - 1] != root
    requires q[|q| - 1] == root ==> root in order'
    ensures BotUp(g, rank, root, q', count', order')
  {
    hide Counted, Descending, ProofDag, Proof, Ants, Live;
  }

  lemma BotUpStarts(g: Graph, rank: nat -> nat, root: nat)
    requires ProofDag(g, rank) && Live(g, root)
    ensures BotUp(g, rank, root, [root], seq(|g|, _ => 0), [])
  {
    SelfProof(g, rank, root);
    assert ToSet<nat>([]) == {};
    assert [root][..0] == [];
    forall x: nat | Live(g, x) && x != root ensures Seen(g, [], x) == 0 == Pops([root], x) {
      assert g[x].value.resolvents * ToSet<nat>([]) == {};
    }
  }

  lemma BotUpBound(g: Graph, rank: nat -> nat, root: nat, q: seq<nat>, count: seq<nat>, order: seq<nat>)
    requires BotUp(g, rank, root, q, count, order)
    ensures |order| <= |g|
  {
    FewerThanNodes(g, order);
  }

  /** When a node is listed, its antecedents have not been visited as often as they have resolvents. */
  lemma AntsUnfinished(g: Graph, rank: nat -> nat, root: nat, q: seq<nat>, count: seq<nat>, order: seq<nat>)
    requires BotUp(g, rank, root, q, count, order) && q != [] && Live(g, q[|q| - 1])
    ensures forall x :: x in Ants(g[q[|q| - 1]].value) ==>
      Live(g, x) && x < |count| && count[x] < |g[x].value.resolvents|
  {
    var id := q[|q| - 1];
    Popped(g, rank, root, q, count, order);
    AntsBelong(g, rank, root, id);
    hide Proof, Seen, Descending, Ants;
    forall x | x in Ants(g[id].value) ensures x < |count| && count[x] < |g[x].value.resolvents| {
      assert TwoOrNone(g[id].value);
      AntsOnce(g[id].value, x);
      SeenStep(g, order, id, x);
    }
  }

  /** If all resolvents belong to the proof, the traversal lists every node of the proof. */
  lemma {:induction false} AllListed(g: Graph, rank: nat -> nat, root: nat, count: seq<nat>, order: seq<nat>, x: nat)
    requires BotUp(g, rank, root, [], count, order) && Enclosed(g, rank, root) && x in Proof(g, rank, root)
    ensures x in order
    decreases rank(root) - rank(x)
  {
    ProofFacts(g, rank, root, x);
    if x != root {
      var rs := g[x].value.resolvents;
      forall r | r in rs ensures r in order {
        ProofFacts(g, rank, root, r);
        assert IsAnt(g[r].value, x);
        AllListed(g, rank, root, count, order, r);
      }
      SeenAll(g, order, x);
      assert count[x] == Seen(g, order, x);
    }
  }

  lemma BotUpEnds(g: Graph, rank: nat -> nat, root: nat, count: seq<nat>, order: seq<nat>)
    requires BotUp(g, rank, root, [], count, order)
    ensures Descending(g, rank, root, order) && root in order
    ensures ToSet(order) == Proof(g, rank, root) <==> Enclosed(g, rank, root)
  {
    var p := Proof(g, rank, root);
    if Enclosed(g, rank, root) {
      forall x | x in p ensures x in order { AllListed(g, rank, root, count, order, x); }
      assert ToSet(order) == p;
    }
    if ToSet(order) == p {
      forall x | x in p && x != root ensures Live(g, x) && g[x].value.resolvents <= p {
        assert x in ToSet(order);
        var k :| 0 <= k < |order| && order[k] == x;
        assert ToSet(order[..k]) <= ToSet(order);
      }
    }
  }

  /** A node that is a premise of listed nodes alone is listed. */
  ghost predicate Complete(g: Graph, order: seq<nat>) {
    forall x: nat :: Live(g, x) && g[x].value.resolvents != {} && g[x].value.resolvents <= ToSet(order) ==> x in order
  }

  lemma NoneDue(g: Graph, rank: nat -> nat, root: nat, count: seq<nat>, order: seq<nat>)
    requires BotUp(g, rank, root, [], count, order)
    ensures Complete(g, order)
  {
    hide Proof, Descending;
    forall x: nat | Live(g, x) && g[x].value.resolvents != {} && g[x].value.resolvents <= ToSet(order)
      ensures x in order
    {
      SeenAll(g, order, x);
    }
  }

  /**
   Sorts the nodes of the root's proof: each node listed occurs once, after all its
   resolvents, and every node whose resolvents are listed is listed itself. All nodes are
   listed exactly if the resolvents of every node but the root belong to the proof.
   */
  method TopolSortingBotUp(g: Graph, root: nat, ghost rank: nat -> nat) returns (order: seq<nat>)
    requires ProofDag(g, rank) && Live(g, root)
    ensures Descending(g, rank, root, order) && root in order && Complete(g, order)
    ensures ToSet(order) == Proof(g, rank, root) <==> Enclosed(g, rank, root)
  {
    var q := [root];
    var visitedCount: seq<nat> := seq(|g|, _ => 0);
    order := [];
    BotUpStarts(g, rank, root);
    hide BotUp, ProofDag, Descending, Enclosed, Complete, Proof, Ants;
    while q != []
      invariant BotUp(g, rank, root, q, visitedCount, order)
      decreases |g| - |order|, |q|
    {
      var id, rest := q[|q| - 1], q[..|q| - 1];
      BotUpStep(g, rank, root, q, visitedCount, order);
      BotUpBound(g, rank, root, Pending(g, root, id, visitedCount, rest), visitedCount[id := visitedCount[id] + 1],
                 Listed(g, root, id, visitedCount, order));
      AntsUnfinished(g, rank, root, q, visitedCount, order);
      var node := g[id].value;
      if visitedCount[id] + 1 == |node.resolvents| || id == root {
        q := PushAnts(g, node, rest, visitedCount);
        order := order + [id];
      } else {
        q := rest;
      }
      visitedCount := visitedCount[id := visitedCount[id] + 1];
    }
    BotUpEnds(g, rank, root, visitedCount, order);
    NoneDue(g, rank, root, visitedCount, order);
  }

  /** Nodes 1 and 2 are leaves, each of them with the resolvents 0 and 3. */
  function Shared(): Graph {
    var leaf := ProofNode(None, None, {0, 3});
    var inner := ProofNode(Some(1), Some(2), {});
    [Some(inner), Some(leaf), Some(leaf), Some(inner)]
  }

  lemma SharedIsDag(rank: nat -> nat)
    requires rank(0) == rank(3) == 1 && rank(1) == rank(2) == 0
    ensures ProofDag(Shared(), rank) && Live(Shared(), 0)
  {
    var g := Shared();
    forall n: nat | Live(g, n)
      ensures TwoOrNone(g[n].value)
      ensures forall a: nat :: IsAnt(g[n].value, a) <==> Live(g, a) && n in g[a].value.resolvents
    {
      assert n == 0 || n == 1 || n == 2 || n == 3;
    }
    hide Shared;
  }

  lemma SharedProof(rank: nat -> nat)
    requires ProofDag(Shared(), rank) && Live(Shared(), 0)
    ensures Proof(Shared(), rank, 0) == {0, 1, 2}
  {
    var g := Shared();
    hide ProofDag;
    assert Proof(g, rank, 1) == {1} && Proof(g, rank, 2) == {2};
  }

  /** Nothing but the root is listed: the other nodes have the resolvent 3. */
  lemma OnlyRoot(rank: nat -> nat, order: seq<nat>)
    requires ProofDag(Shared(), rank) && Live(Shared(), 0) && Descending(Shared(), rank, 0, order) && 0 in order
    ensures order == [0]
  {
    SharedProof(rank);
    hide ProofDag, Proof;
    forall k | 0 <= k < |order| ensures order[k] == 0 {
      assert order[k] in order && 3 !in ToSet(order[..k]);
    }
    assert ToSet(order) == {0};
    DistinctSize(order);
  }

  /** The resolvent 3 of the leaves lies outside the proof of node 0, so the leaves are left out. */
  method BotUpMissesNodes() returns (order: seq<nat>)
    ensures order == [0] && Live(Shared(), 0)
    ensures forall rank: nat -> nat :: ProofDag(Shared(), rank) ==> Proof(Shared(), rank, 0) == {0, 1, 2}
  {
    ghost var rank := (x: nat) => if x == 0 || x == 3 then 1 else 0;
    SharedIsDag(rank);
    order := TopolSortingBotUp(Shared(), 0, rank);
    OnlyRoot(rank, order);
    forall r: nat -> nat | ProofDag(Shared(), r) ensures Proof(Shared(), r, 0) == {0, 1, 2} { SharedProof(r); }
  }

  /** Pushes the antecedents, none of which may have been visited from all its resolvents. */
  method PushAnts(g: Graph, node: ProofNode, rest: seq<nat>, ghost count: seq<nat>) returns (q: seq<nat>)
    requires forall x :: x in Ants(node) ==> Live(g, x) && x < |count| && count[x] < |g[x].value.resolvents|
    ensures q == rest + Ants(node)
  {
    q := rest;
    if node.ant1.Some? && node.ant2.Some? {
      q := q + [node.ant1.value];
      q := q + [node.ant2.value];
    }
  }
}
