/**
 The clauses of a resolution proof. The inner clauses can be dropped to save memory, and are
 recomputed from the leaves by resolution.
 */
module ProofFilling {
  import opened Literals
  import opened Resolution
  import opened Sequences
  import opened TopologicalOrder

  predicate IsLeaf(n: ProofNode) {
    n.ant1.None?
  }

  /** The clause of every inner node is the resolvent of its antecedents' clauses on its pivot. */
  ghost predicate ResolutionProof(g: Graph, pivots: seq<nat>, clauses: seq<seq<Lit>>, nodes: set<nat>) {
    |pivots| == |clauses| == |g| && forall id :: id in nodes ==>
      Live(g, id) && Resolves(g[id].value, id, pivots, clauses)
  }

  ghost predicate Resolves(n: ProofNode, id: nat, pivots: seq<nat>, clauses: seq<seq<Lit>>)
    requires |pivots| == |clauses| && id < |pivots|
  {
    if n.ant1.None? || n.ant2.None? then Strict(clauses[id])
    else
      var a, b := n.ant1.value, n.ant2.value;
      && a < |clauses| && b < |clauses| && Strict(clauses[a]) && Strict(clauses[b])
      && Mentions(clauses[a], pivots[id]) && Mentions(clauses[b], pivots[id])
      && IsResolvent(clauses[a], clauses[b], pivots[id], clauses[id])
  }

  /** No pivot occurs with the same sign in both antecedents. */
  ghost predicate AllClash(g: Graph, pivots: seq<nat>, clauses: seq<seq<Lit>>, nodes: set<nat>) {
    && |pivots| == |clauses| == |g|
    && forall id :: id in nodes && Live(g, id) && g[id].value.ant1.Some? && g[id].value.ant2.Some? ==>
         var a, b := g[id].value.ant1.value, g[id].value.ant2.value;
         a < |g| && b < |g| && Clashing(clauses[a], clauses[b], pivots[id])
  }

  // ---------- a proof is sound ----------

  /** If the leaves of a proof hold, so does every clause of it. */
  lemma {:induction false} ProofSound(g: Graph, rank: nat -> nat, id: nat, pivots: seq<nat>, clauses: seq<seq<Lit>>,
                                      sigma: Assignment)
    requires ProofDag(g, rank) && Live(g, id)
    requires ResolutionProof(g, pivots, clauses, Proof(g, rank, id)) && AllClash(g, pivots, clauses, Proof(g, rank, id))
    requires forall l :: l in Proof(g, rank, id) && Live(g, l) && IsLeaf(g[l].value) ==> ClauseTrue(clauses[l], sigma)
    ensures ClauseTrue(clauses[id], sigma)
    decreases rank(id)
  {
    var n := g[id].value;
    assert TwoOrNone(n);
    SelfProof(g, rank, id);
    if n.ant1.Some? {
      var a, b := n.ant1.value, n.ant2.value;
      assert IsAnt(n, a) && IsAnt(n, b);
      assert Proof(g, rank, id) == {id} + Proof(g, rank, a) + Proof(g, rank, b);
      ProofSound(g, rank, a, pivots, clauses, sigma);
      ProofSound(g, rank, b, pivots, clauses, sigma);
      assert Resolves(n, id, pivots, clauses);
      hide *;
      NodeSound(n, id, pivots, clauses, sigma);
    }
  }

  lemma NodeSound(n: ProofNode, id: nat, pivots: seq<nat>, clauses: seq<seq<Lit>>, sigma: Assignment)
    requires |pivots| == |clauses| && id < |pivots| && n.ant1.Some? && n.ant2.Some? && Resolves(n, id, pivots, clauses)
    requires Clashing(clauses[n.ant1.value], clauses[n.ant2.value], pivots[id])
    requires ClauseTrue(clauses[n.ant1.value], sigma) && ClauseTrue(clauses[n.ant2.value], sigma)
    ensures ClauseTrue(clauses[id], sigma)
  {
    ClashEntails(clauses[n.ant1.value], clauses[n.ant2.value], pivots[id], clauses[id], sigma);
  }

  /** A proof of the empty clause refutes its leaves. */
  lemma Refutation(g: Graph, rank: nat -> nat, root: nat, pivots: seq<nat>, clauses: seq<seq<Lit>>, sigma: Assignment)
    returns (l: nat)
    requires ProofDag(g, rank) && Live(g, root) && root < |clauses| && clauses[root] == []
    requires ResolutionProof(g, pivots, clauses, Proof(g, rank, root))
      && AllClash(g, pivots, clauses, Proof(g, rank, root))
    ensures l in Proof(g, rank, root) && Live(g, l) && IsLeaf(g[l].value) && l < |clauses|
      && !ClauseTrue(clauses[l], sigma)
  {
    if forall l :: l in Proof(g, rank, root) && Live(g, l) && IsLeaf(g[l].value) ==> ClauseTrue(clauses[l], sigma) {
      ProofSound(g, rank, root, pivots, clauses, sigma);
    }
    l :| l in Proof(g, rank, root) && Live(g, l) && IsLeaf(g[l].value) && !ClauseTrue(clauses[l], sigma);
  }

  // ---------- resolvents are unique ----------

  lemma {:induction false} SameLiterals(r: seq<Lit>, s: seq<Lit>)
    requires Strict(r) && Strict(s) && forall l :: l in r <==> l in s
    ensures r == s
  {
    if r == [] {
      SomeLiteral(s);
    } else {
      assert r[0] in r;
      assert s[0] in s;
      var i :| 0 <= i < |s| && s[i] == r[0];
      var j :| 0 <= j < |r| && r[j] == s[0];
      assert r[0] == s[0];
      hide Strict;
      TailLiterals(r, s);
      TailLiterals(s, r);
      SameLiterals(r[1..], s[1..]);
      assert r == [r[0]] + r[1..] && s == [s[0]] + s[1..];
    }
  }

  lemma SomeLiteral(s: seq<Lit>)
    ensures s != [] ==> exists l :: l in s
  {
    if s != [] { assert s[0] in s; }
  }

  lemma TailLiterals(r: seq<Lit>, s: seq<Lit>)
    requires r != [] && s != [] && r[0] == s[0] && Strict(r) && Strict(s) && forall l :: l in r <==> l in s
    ensures forall l :: l in r[1..] ==> l in s[1..]
  {
    forall l | l in r[1..] ensures l in s[1..] {
      var k :| 0 <= k < |r[1..]| && r[1..][k] == l;
      assert r[k + 1] == l && l in s && l != s[0];
      var i :| 0 <= i < |s| && s[i] == l;
      assert s[1..][i - 1] == l;
    }
  }

  // ---------- dropping and refilling ----------

  /** The state of the refilling: the path from the root to the node on top of the stack, and the nodes done. */
  ghost predicate Filling(g: Graph, rank: nat -> nat, root: nat, full: seq<seq<Lit>>, clauses: seq<seq<Lit>>,
                          q: seq<nat>, visited: set<nat>) {
    && ProofDag(g, rank) && Live(g, root) && |clauses| == |full| == |g|
    && (forall n :: n in visited ==>
        n in Proof(g, rank, root) && Live(g, n) && clauses[n] == full[n] && AntsIn(g[n].value, visited))
    && (forall n :: n in Proof(g, rank, root) && Live(g, n) && IsLeaf(g[n].value) ==> clauses[n] == full[n])
    && (forall n :: n in q ==> n in Proof(g, rank, root) && Live(g, n) && n !in visited)
    && (forall i, j :: 0 <= i < j < |q| ==> rank(q[j]) < rank(q[i]))
    && (root in visited || root in q)
  }

  ghost function Undone(g: Graph, rank: nat -> nat, root: nat, visited: set<nat>): set<nat>
    requires ProofDag(g, rank) && Live(g, root)
  {
    Proof(g, rank, root) - visited
  }

  lemma PivotsThere(g: Graph, pivots: seq<nat>, full: seq<seq<Lit>>, nodes: set<nat>)
    requires ResolutionProof(g, pivots, full, nodes)
    ensures |pivots| == |full| == |g|
  {
  }

  lemma FillingTop(g: Graph, rank: nat -> nat, root: nat, full: seq<seq<Lit>>, clauses: seq<seq<Lit>>, q: seq<nat>,
                   visited: set<nat>)
    requires Filling(g, rank, root, full, clauses, q, visited) && q != []
    ensures var id := q[|q| - 1]; Live(g, id) && id in Proof(g, rank, root) && id !in visited && TwoOrNone(g[id].value)
    ensures |clauses| == |full| == |g|
  {
    assert q[|q| - 1] in q;
  }

  lemma FillingPush(g: Graph, rank: nat -> nat, root: nat, full: seq<seq<Lit>>, clauses: seq<seq<Lit>>, q: seq<nat>,
                    visited: set<nat>, a: nat)
    requires Filling(g, rank, root, full, clauses, q, visited) && q != []
    requires Live(g, q[|q| - 1]) && IsAnt(g[q[|q| - 1]].value, a) && a !in visited
    ensures Filling(g, rank, root, full, clauses, q + [a], visited) && rank(a) < rank(q[|q| - 1])
  {
    var id := q[|q| - 1];
    assert id in q;
    ProofFacts(g, rank, root, id);
    ProofFacts(g, rank, root, a);
    hide Proof;
  }

  /** A node whose antecedents are done gets its clause. */
  lemma FillingVisit(g: Graph, rank: nat -> nat, root: nat, pivots: seq<nat>, full: seq<seq<Lit>>,
                     clauses: seq<seq<Lit>>,
                     q: seq<nat>, visited: set<nat>, c: seq<Lit>)
    requires Filling(g, rank, root, full, clauses, q, visited) && q != []
    requires ResolutionProof(g, pivots, full, Proof(g, rank, root))
    requires Live(g, q[|q| - 1]) && AntsIn(g[q[|q| - 1]].value, visited)
    requires var (n, id) := (g[q[|q| - 1]].value, q[|q| - 1]);
             if n.ant1.Some? && n.ant2.Some?
             then n.ant1.value < |g| && n.ant2.value < |g|
               && IsResolvent(clauses[n.ant1.value], clauses[n.ant2.value], pivots[id], c)
             else c == clauses[id]
    ensures var id := q[|q| - 1];
            Filling(g, rank, root, full, clauses[id := c], q[..|q| - 1], visited + {id})
    ensures Undone(g, rank, root, visited + {q[|q| - 1]}) < Undone(g, rank, root, visited)
  {
    var id := q[|q| - 1];
    assert id in q;
    var n := g[id].value;
    assert TwoOrNone(n);
    if n.ant1.Some? {
      assert Resolves(n, id, pivots, full);
      SameResolvent(full[n.ant1.value], full[n.ant2.value], pivots[id], c, full[id]);
    }
    hide *;
    VisitedAgain(g, rank, root, full, clauses, q, visited, c);
  }

  lemma SameResolvent(a: seq<Lit>, b: seq<Lit>, pivot: nat, r: seq<Lit>, s: seq<Lit>)
    requires IsResolvent(a, b, pivot, r) && IsResolvent(a, b, pivot, s)
    ensures r == s
  {
    SameLiterals(r, s);
  }

  lemma VisitedAgain(g: Graph, rank: nat -> nat, root: nat, full: seq<seq<Lit>>, clauses: seq<seq<Lit>>,
                     q: seq<nat>, visited: set<nat>, c: seq<Lit>)
    requires Filling(g, rank, root, full, clauses, q, visited) && q != []
    requires var id := q[|q| - 1]; Live(g, id) && id < |full| && c == full[id] && AntsIn(g[id].value, visited)
    ensures var id := q[|q| - 1];
            id < |clauses| && Filling(g, rank, root, full, clauses[id := c], q[..|q| - 1], visited + {id})
    ensures Undone(g, rank, root, visited + {q[|q| - 1]}) < Undone(g, rank, root, visited)
  {
    var id, rest := q[|q| - 1], q[..|q| - 1];
    assert id in q;
    RestOfPath(rank, q);
    AntsInMore(g, visited, visited + {id});
    hide Proof, ProofDag, AntsIn, IsLeaf;
  }

  lemma AntsInMore(g: Graph, xs: set<nat>, ys: set<nat>)
    requires xs <= ys
    ensures forall n: nat :: Live(g, n) && AntsIn(g[n].value, xs) ==> AntsIn(g[n].value, ys)
  {
  }

  lemma RestOfPath(rank: nat -> nat, q: seq<nat>)
    requires q != [] && forall i, j :: 0 <= i < j < |q| ==> rank(q[j]) < rank(q[i])
    ensures forall k :: k in q <==> k in q[..|q| - 1] || k == q[|q| - 1]
    ensures q[|q| - 1] !in q[..|q| - 1]
  {
    var rest := q[..|q| - 1];
    assert q == rest + [q[|q| - 1]];
    forall k | k in rest ensures k != q[|q| - 1] {
      var i :| 0 <= i < |rest| && rest[i] == k;
      assert rank(q[|q| - 1]) < rank(q[i]);
    }
  }

  /** The antecedents' clauses are there and mention the pivot. */
  lemma FillingMerge(g: Graph, rank: nat -> nat, root: nat, pivots: seq<nat>, full: seq<seq<Lit>>,
                     clauses: seq<seq<Lit>>,
                     q: seq<nat>, visited: set<nat>)
    requires Filling(g, rank, root, full, clauses, q, visited) && q != []
    requires ResolutionProof(g, pivots, full, Proof(g, rank, root))
    requires Live(g, q[|q| - 1]) && AntsIn(g[q[|q| - 1]].value, visited)
    requires g[q[|q| - 1]].value.ant1.Some? && g[q[|q| - 1]].value.ant2.Some?
    ensures var (n, v) := (g[q[|q| - 1]].value, pivots[q[|q| - 1]]);
            var (a, b) := (n.ant1.value, n.ant2.value);
            && a < |clauses| && b < |clauses| && Strict(clauses[a]) && Strict(clauses[b])
            && Mentions(clauses[a], v) && Mentions(clauses[b], v)
  {
    assert q[|q| - 1] in q;
    assert Resolves(g[q[|q| - 1]].value, q[|q| - 1], pivots, full);
    hide Proof, IsResolvent, Strict, Mentions;
  }

  /** The leaves among the nodes have their clauses. */
  ghost predicate LeavesFilled(g: Graph, nodes: set<nat>, full: seq<seq<Lit>>, clauses: seq<seq<Lit>>) {
    && |clauses| == |full| == |g|
    && forall n :: n in nodes && Live(g, n) && IsLeaf(g[n].value) ==> clauses[n] == full[n]
  }

  lemma FillingStarts(g: Graph, rank: nat -> nat, root: nat, full: seq<seq<Lit>>, clauses: seq<seq<Lit>>)
    requires ProofDag(g, rank) && Live(g, root) && LeavesFilled(g, Proof(g, rank, root), full, clauses)
    ensures Filling(g, rank, root, full, clauses, [root], {})
  {
    SelfProof(g, rank, root);
  }

  lemma {:induction false} ClosedUnderAnts(g: Graph, rank: nat -> nat, id: nat, visited: set<nat>)
    requires ProofDag(g, rank) && Live(g, id) && id in visited
    requires forall n :: n in visited ==> Live(g, n) && AntsIn(g[n].value, visited)
    ensures Proof(g, rank, id) <= visited
    decreases rank(id)
  {
    var n := g[id].value;
    if n.ant1.Some? && n.ant2.Some? {
      assert IsAnt(n, n.ant1.value) && IsAnt(n, n.ant2.value);
      ClosedUnderAnts(g, rank, n.ant1.value, visited);
      ClosedUnderAnts(g, rank, n.ant2.value, visited);
    }
  }

  lemma FillingEnds(g: Graph, rank: nat -> nat, root: nat, full: seq<seq<Lit>>, clauses: seq<seq<Lit>>,
                    visited: set<nat>)
    requires Filling(g, rank, root, full, clauses, [], visited)
    ensures |clauses| == |full| && forall n :: n in Proof(g, rank, root) ==> n < |full| && clauses[n] == full[n]
  {
    ClosedUnderAnts(g, rank, root, visited);
  }

  class ProofGraph {
    const graph: Graph
    const root: nat
    const pivots: seq<nat>
    var clauses: seq<seq<Lit>>

    constructor (graph: Graph, root: nat, pivots: seq<nat>, clauses: seq<seq<Lit>>)
      ensures this.graph == graph && this.root == root && this.pivots == pivots && this.clauses == clauses
    {
      this.graph, this.root, this.pivots, this.clauses := graph, root, pivots, clauses;
    }

    /** Drops the clauses of the inner nodes. */
    method EmptyProofGraph()
      requires |clauses| == |graph|
      modifies this
      ensures |clauses| == |graph|
      ensures forall i :: 0 <= i < |graph| ==>
                clauses[i] == if graph[i].Some? && !IsLeaf(graph[i].value) then [] else old(clauses)[i]
    {
      for i := 0 to |graph|
        invariant |clauses| == |graph|
        invariant forall j :: 0 <= j < |graph| ==>
                    clauses[j] == if j < i && graph[j].Some? && !IsLeaf(graph[j].value) then [] else old(clauses)[j]
      {
        if graph[i].Some? && !IsLeaf(graph[i].value) { clauses := clauses[i := []]; }
      }
    }

    /**
     Recomputes the clauses of the root's proof from those of its leaves, antecedents first.
     Whatever proof has these leaves and pivots, its clauses come back.
     */
    method FillProofGraph(ghost rank: nat -> nat, ghost full: seq<seq<Lit>>)
      requires ProofDag(graph, rank) && Live(graph, root) && |clauses| == |graph|
      requires ResolutionProof(graph, pivots, full, Proof(graph, rank, root))
      requires LeavesFilled(graph, Proof(graph, rank, root), full, clauses)
      modifies this
      ensures |clauses| == |full| && forall n :: n in Proof(graph, rank, root) ==> n < |full| && clauses[n] == full[n]
    {
      var visited1: set<nat> := {};
      var q := [root];
      hide *;
      PivotsThere(graph, pivots, full, Proof(graph, rank, root));
      FillingStarts(graph, rank, root, full, clauses);
      while q != []
        invariant Filling(graph, rank, root, full, clauses, q, visited1)
        decreases Undone(graph, rank, root, visited1), if q == [] then 0 else rank(q[|q| - 1])
      {
        FillingTop(graph, rank, root, full, clauses, q, visited1);
        var id := q[|q| - 1];
        var next := NextAnt(graph[id].value, visited1);
        if next.Some? {
          FillingPush(graph, rank, root, full, clauses, q, visited1, next.value);
          q := q + [next.value];
        } else {
          var c := ClauseOf(id, rank, full, q, visited1);
          FillingVisit(graph, rank, root, pivots, full, clauses, q, visited1, c);
          clauses := clauses[id := c];
          visited1 := visited1 + {id};
          q := q[..|q| - 1];
        }
      }
      FillingEnds(graph, rank, root, full, clauses, visited1);
    }

    /** The clause of a node whose antecedents are done: a leaf keeps its own. */
    method ClauseOf(id: nat, ghost rank: nat -> nat, ghost full: seq<seq<Lit>>, ghost q: seq<nat>,
                    ghost visited: set<nat>)
      returns (c: seq<Lit>)
      requires Filling(graph, rank, root, full, clauses, q, visited) && q != [] && id == q[|q| - 1]
      requires ResolutionProof(graph, pivots, full, Proof(graph, rank, root))
      requires Live(graph, id) && id < |pivots| && id < |clauses| && AntsIn(graph[id].value, visited)
      requires TwoOrNone(graph[id].value)
      ensures var n := graph[id].value;
              if n.ant1.Some? && n.ant2.Some?
              then n.ant1.value < |clauses| && n.ant2.value < |clauses|
                   && IsResolvent(clauses[n.ant1.value], clauses[n.ant2.value], pivots[id], c)
              else c == clauses[id]
    {
      var n := graph[id].value;
      c := clauses[id];
      if !IsLeaf(n) {
        FillingMerge(graph, rank, root, pivots, full, clauses, q, visited);
        c := MergeClauses(clauses[n.ant1.value], clauses[n.ant2.value], [], pivots[id]);
      }
    }
  }

  /** The first antecedent that is not visited. */
  function NextAnt(n: ProofNode, visited: set<nat>): (r: Option<nat>)
    ensures r.Some? ==> IsAnt(n, r.value) && r.value !in visited
    ensures r.None? <==> AntsIn(n, visited)
  {
    if n.ant1.Some? && n.ant1.value !in visited then n.ant1
    else if n.ant2.Some? && n.ant2.value !in visited then n.ant2
    else None
  }
}
