/**
 Function models: the values of a function are recorded in a tree with one level for every
 argument, and the tree is turned into a body of nested ites.
 */
module ValuationTrees {
  import opened Sequences

  /** A formal argument or a value. */
  datatype Ref = Argument(id: nat) | Constant(c: nat)

  /** The variable is the argument to look at next, or the result at a leaf. The value leads here from the parent. */
  datatype ValuationNode = ValuationNode(variable: Ref, value: Option<nat>, children: seq<nat>)

  /** All nodes, by identifier. */
  type Nodes = seq<ValuationNode>

  ghost predicate Inside(nodes: Nodes) {
    forall x :: 0 <= x < |nodes| ==> ChildrenAbove(nodes, x)
  }

  ghost predicate ChildrenAbove(nodes: Nodes, x: nat)
    requires x < |nodes|
  {
    forall k :: 0 <= k < |nodes[x].children| ==> x < nodes[x].children[k] < |nodes|
  }

  // ---------- looking up ----------

  /** The first child with the value. */
  function FindChild(nodes: Nodes, cs: seq<nat>, v: nat): (r: Option<nat>)
    requires forall k :: 0 <= k < |cs| ==> cs[k] < |nodes|
    ensures r.Some? ==> r.value in cs && r.value < |nodes| && nodes[r.value].value == Some(v)
    ensures r.None? ==> forall c :: c in cs && c < |nodes| ==> nodes[c].value != Some(v)
  {
    if cs == [] then None
    else if nodes[cs[0]].value == Some(v) then Some(cs[0])
    else
      assert cs == [cs[0]] + cs[1..];
      FindChild(nodes, cs[1..], v)
  }

  /** What is recorded below the node for the remaining arguments. */
  function Lookup(nodes: Nodes, x: nat, t: seq<nat>): Option<Ref>
    requires Inside(nodes) && x < |nodes|
    decreases |t|
  {
    if t == [] then Some(nodes[x].variable)
    else
      assert ChildrenAbove(nodes, x);
      match FindChild(nodes, nodes[x].children, t[0])
      case None => None
      case Some(c) => Lookup(nodes, c, t[1..])
  }

  // ---------- the shape of the trees ----------

  /** Where a node is: its tree and the values that lead to it. */
  datatype Key = Key(root: nat, path: seq<nat>)

  /** Every node but a root is the child of one node, and no two nodes are at one place. */
  ghost predicate Trees(nodes: Nodes, keys: seq<Key>) {
    && |keys| == |nodes| && Inside(nodes)
    && (forall x :: 0 <= x < |nodes| ==> KeyOk(nodes, keys, x))
    && (forall x, y :: 0 <= x < y < |keys| ==> keys[x] != keys[y])
  }

  ghost predicate KeyOk(nodes: Nodes, keys: seq<Key>, x: nat)
    requires |keys| == |nodes| && x < |nodes|
  {
    && (forall k :: 0 <= k < |nodes[x].children| && nodes[x].children[k] < |nodes| ==>
        IsChild(nodes, keys, x, nodes[x].children[k]))
    && (if keys[x].path == [] then keys[x].root == x else exists y ::
        0 <= y < |nodes| && x in nodes[y].children && IsChild(nodes, keys, y, x))
    && keys[x].root < |nodes| && keys[keys[x].root] == Key(keys[x].root, [])
  }

  /** The child's place is the parent's place and the child's value. */
  ghost predicate IsChild(nodes: Nodes, keys: seq<Key>, x: nat, c: nat)
    requires |keys| == |nodes| && x < |nodes| && c < |nodes|
  {
    nodes[c].value.Some? && keys[c] == Key(keys[x].root, keys[x].path + [nodes[c].value.value])
  }

  lemma SameKey(nodes: Nodes, keys: seq<Key>, x: nat, y: nat)
    requires Trees(nodes, keys) && x < |nodes| && y < |nodes|
    ensures keys[x] == keys[y] ==> x == y
  {
  }

  /** The child that is found is the node at the longer place. */
  lemma FoundChild(nodes: Nodes, keys: seq<Key>, x: nat, v: nat)
    requires Trees(nodes, keys) && x < |nodes|
    ensures ChildrenAbove(nodes, x)
    ensures var r := FindChild(nodes, nodes[x].children, v);
            && (r.Some? ==> x < r.value < |nodes| && keys[r.value] == Key(keys[x].root, keys[x].path + [v]))
            && (r.None? ==> forall c :: 0 <= c < |nodes| ==> keys[c] != Key(keys[x].root, keys[x].path + [v]))
  {
    assert ChildrenAbove(nodes, x) && KeyOk(nodes, keys, x);
    var r := FindChild(nodes, nodes[x].children, v);
    if r.Some? {
      var k :| 0 <= k < |nodes[x].children| && nodes[x].children[k] == r.value;
      assert IsChild(nodes, keys, x, nodes[x].children[k]);
    } else {
      forall c | 0 <= c < |nodes| ensures keys[c] != Key(keys[x].root, keys[x].path + [v]) {
        NoChild(nodes, keys, x, v, c);
      }
    }
  }

  lemma NoChild(nodes: Nodes, keys: seq<Key>, x: nat, v: nat, c: nat)
    requires Trees(nodes, keys) && x < |nodes| && c < |nodes| && ChildrenAbove(nodes, x)
    requires FindChild(nodes, nodes[x].children, v).None?
    ensures keys[c] != Key(keys[x].root, keys[x].path + [v])
  {
    assert KeyOk(nodes, keys, c);
    if keys[c].path != [] {
      var y :| 0 <= y < |nodes| && c in nodes[y].children && IsChild(nodes, keys, y, c);
      LastEqual(keys[y].path, nodes[c].value.value, keys[x].path, v);
      SameKey(nodes, keys, x, y);
    }
  }

  lemma LastEqual(p: seq<nat>, a: nat, q: seq<nat>, b: nat)
    ensures p + [a] == q + [b] ==> p == q && a == b
  {
    assert (p + [a])[..|p|] == p && (q + [b])[..|q|] == q;
    assert (p + [a])[|p|] == a && (q + [b])[|q|] == b;
  }

  /** Looking up from the root leads through the node. */
  lemma {:induction false} LookupThrough(nodes: Nodes, keys: seq<Key>, x: nat, t: seq<nat>)
    requires Trees(nodes, keys) && x < |nodes|
    ensures keys[x].root < |nodes| && Lookup(nodes, keys[x].root, keys[x].path + t) == Lookup(nodes, x, t)
    decreases |keys[x].path|
  {
    assert KeyOk(nodes, keys, x);
    var p := keys[x].path;
    if p == [] {
      assert p + t == t;
    } else {
      var y :| 0 <= y < |nodes| && x in nodes[y].children && IsChild(nodes, keys, y, x);
      var v := nodes[x].value.value;
      LookupThrough(nodes, keys, y, [v] + t);
      assert keys[y].path + ([v] + t) == p + t;
      FoundChild(nodes, keys, y, v);
      var c := FindChild(nodes, nodes[y].children, v);
      assert c.Some?;
      SameKey(nodes, keys, x, c.value);
      assert ([v] + t)[1..] == t;
    }
  }

  // ---------- adding a child ----------

  /** The nodes after a new child was added to a node. */
  function WithChild(nodes: Nodes, x: nat, variable: Ref, v: nat): Nodes
    requires x < |nodes|
  {
    nodes[x := nodes[x].(children := nodes[x].children + [|nodes|])] + [ValuationNode(variable, Some(v), [])]
  }

  ghost function WithKey(keys: seq<Key>, x: nat, v: nat): seq<Key>
    requires x < |keys|
  {
    keys + [Key(keys[x].root, keys[x].path + [v])]
  }

  lemma WithChildTrees(nodes: Nodes, keys: seq<Key>, x: nat, variable: Ref, v: nat)
    requires Trees(nodes, keys) && x < |nodes| && ChildrenAbove(nodes, x)
      && FindChild(nodes, nodes[x].children, v).None?
    ensures Trees(WithChild(nodes, x, variable, v), WithKey(keys, x, v))
  {
    var nodes', keys' := WithChild(nodes, x, variable, v), WithKey(keys, x, v);
    forall y: nat | y < |nodes'| ensures ChildrenAbove(nodes', y) && KeyOk(nodes', keys', y) {
      WithChildAt(nodes, keys, x, variable, v, y);
    }
    forall c | 0 <= c < |nodes| ensures keys[c] != Key(keys[x].root, keys[x].path + [v]) {
      NoChild(nodes, keys, x, v, c);
    }
  }

  lemma WithChildAt(nodes: Nodes, keys: seq<Key>, x: nat, variable: Ref, v: nat, y: nat)
    requires Trees(nodes, keys) && x < |nodes| && y <= |nodes|
    ensures ChildrenAbove(WithChild(nodes, x, variable, v), y)
      && KeyOk(WithChild(nodes, x, variable, v), WithKey(keys, x, v), y)
  {
    var nodes', keys' := WithChild(nodes, x, variable, v), WithKey(keys, x, v);
    assert KeyOk(nodes, keys, x);
    if y == |nodes| {
      assert nodes'[x].children[|nodes[x].children|] == y;
      assert y in nodes'[x].children && IsChild(nodes', keys', x, y);
    } else {
      assert ChildrenAbove(nodes, y) && KeyOk(nodes, keys, y);
      if keys[y].path != [] { var z := ParentStays(nodes, keys, x, variable, v, y); }
    }
  }

  lemma ParentStays(nodes: Nodes, keys: seq<Key>, x: nat, variable: Ref, v: nat, y: nat) returns (z: nat)
    requires Trees(nodes, keys) && x < |nodes| && y < |nodes| && keys[y].path != []
    ensures z < |nodes| && y in WithChild(nodes, x, variable, v)[z].children
    ensures IsChild(WithChild(nodes, x, variable, v), WithKey(keys, x, v), z, y)
  {
    assert KeyOk(nodes, keys, y);
    z :| 0 <= z < |nodes| && y in nodes[z].children && IsChild(nodes, keys, z, y);
  }

  lemma FindAppended(nodes: Nodes, nodes': Nodes, cs: seq<nat>, n: nat, v: nat)
    requires (forall k :: 0 <= k < |cs| ==> cs[k] < |nodes|) && n < |nodes'| && |nodes| <= |nodes'|
    requires forall c :: 0 <= c < |nodes| ==> nodes'[c].value == nodes[c].value
    ensures var r := FindChild(nodes, cs, v);
            FindChild(nodes', cs + [n], v) == if r.Some? then r else if nodes'[n].value == Some(v) then Some(n)
              else None
    decreases |cs|
  {
    if cs == [] {
      assert (cs + [n])[1..] == [];
    } else {
      assert (cs + [n])[1..] == cs[1..] + [n];
      FindAppended(nodes, nodes', cs[1..], n, v);
    }
  }

  lemma FindSame(nodes: Nodes, nodes': Nodes, cs: seq<nat>, v: nat)
    requires (forall k :: 0 <= k < |cs| ==> cs[k] < |nodes|) && |nodes| <= |nodes'|
    requires forall c :: 0 <= c < |nodes| ==> nodes'[c].value == nodes[c].value
    ensures FindChild(nodes', cs, v) == FindChild(nodes, cs, v)
    decreases |cs|
  {
    if cs != [] { FindSame(nodes, nodes', cs[1..], v); }
  }

  /** The children found after a child was added: as before, and the new one at its parent. */
  lemma FindWithChild(nodes: Nodes, keys: seq<Key>, x: nat, variable: Ref, v: nat, y: nat, w: nat)
    requires Trees(nodes, keys) && x < |nodes| && y < |nodes| && ChildrenAbove(nodes, y)
      && Inside(WithChild(nodes, x, variable, v))
    requires ChildrenAbove(WithChild(nodes, x, variable, v), y)
    ensures var (nodes', r) := (WithChild(nodes, x, variable, v), FindChild(nodes, nodes[y].children, w));
            FindChild(nodes', nodes'[y].children, w) == if r.None? && y == x && w == v then Some(|nodes|) else r
  {
    var nodes' := WithChild(nodes, x, variable, v);
    if y == x {
      FindAppended(nodes, nodes', nodes[y].children, |nodes|, w);
    } else {
      FindSame(nodes, nodes', nodes[y].children, w);
    }
  }

  /** Only tuples that lead through the new node are looked up differently, and they had nothing recorded. */
  lemma {:induction false} LookupWithChild(nodes: Nodes, keys: seq<Key>, x: nat, variable: Ref, v: nat, y: nat,
                                           t: seq<nat>)
    requires Trees(nodes, keys) && x < |nodes| && y < |nodes| && ChildrenAbove(nodes, x)
    requires Trees(WithChild(nodes, x, variable, v), WithKey(keys, x, v))
    requires FindChild(nodes, nodes[x].children, v).None?
    ensures var (q, p) := (keys[x].path + [v], keys[y].path + t);
            if keys[y].root == keys[x].root && keys[y].path <= keys[x].path && q <= p
            then Lookup(nodes, y, t) == None
                 && Lookup(WithChild(nodes, x, variable, v), y, t) == if p == q then Some(variable) else None
            else Lookup(WithChild(nodes, x, variable, v), y, t) == Lookup(nodes, y, t)
    decreases |t|
  {
    var nodes' := WithChild(nodes, x, variable, v);
    var q, p := keys[x].path + [v], keys[y].path + t;
    if t == [] {
      assert p == keys[y].path;
    } else {
      var w := t[0];
      assert ChildrenAbove(nodes, y) && ChildrenAbove(nodes', y);
      FindWithChild(nodes, keys, x, variable, v, y, w);
      FoundChild(nodes, keys, y, w);
      SameKey(nodes, keys, x, y);
      var r := FindChild(nodes, nodes[y].children, w);
      assert p == (keys[y].path + [w]) + t[1..];
      PathStep(keys[x].path, keys[y].path, v, w, p);
      if r.Some? {
        LookupWithChild(nodes, keys, x, variable, v, r.value, t[1..]);
      } else if y == x && w == v {
        NewLeaf(nodes', |nodes|, t[1..]);
        assert q <= p && (p == q <==> t[1..] == []);
      } else {
        NothingBelow(nodes, keys, x, y, w);
      }
    }
  }

  lemma PathStep(px: seq<nat>, py: seq<nat>, v: nat, w: nat, p: seq<nat>)
    requires |p| > |py| && py <= p && p[|py|] == w
    ensures px != py && py <= px && px + [v] <= p ==> py + [w] <= px
    ensures py + [w] <= px ==> py <= px
    ensures px == py && px + [v] <= p ==> v == w
  {
    if px != py && py <= px && px + [v] <= p {
      assert |px| > |py|;
      assert px[|py|] == p[|py|];
    }
    if px == py && px + [v] <= p { assert (px + [v])[|py|] == p[|py|]; }
  }

  /** If a node has no child with the value, nothing is below that place. */
  lemma NothingBelow(nodes: Nodes, keys: seq<Key>, x: nat, y: nat, w: nat)
    requires Trees(nodes, keys) && x < |nodes| && y < |nodes| && ChildrenAbove(nodes, y)
    requires FindChild(nodes, nodes[y].children, w).None?
    ensures !(keys[x].root == keys[y].root && keys[y].path + [w] <= keys[x].path)
  {
    if keys[x].root == keys[y].root && keys[y].path + [w] <= keys[x].path {
      var z := Ancestor(nodes, keys, x, keys[y].path + [w]);
      NoChild(nodes, keys, y, w, z);
    }
  }

  lemma {:induction false} Ancestor(nodes: Nodes, keys: seq<Key>, x: nat, p: seq<nat>) returns (z: nat)
    requires Trees(nodes, keys) && x < |nodes| && p <= keys[x].path
    ensures z < |nodes| && keys[z] == Key(keys[x].root, p)
    decreases |keys[x].path|
  {
    assert KeyOk(nodes, keys, x);
    if p == keys[x].path {
      z := x;
    } else {
      var y :| 0 <= y < |nodes| && x in nodes[y].children && IsChild(nodes, keys, y, x);
      z := Ancestor(nodes, keys, y, p);
    }
  }

  lemma NewLeaf(nodes: Nodes, x: nat, t: seq<nat>)
    requires Inside(nodes) && x < |nodes| && nodes[x].children == []
    ensures Lookup(nodes, x, t) == if t == [] then Some(nodes[x].variable) else None
  {
  }

  // ---------- recording a value ----------

  /** The nodes after a new root was made. */
  function WithRoot(nodes: Nodes, variable: Ref): Nodes {
    nodes + [ValuationNode(variable, None, [])]
  }

  lemma WithRootTrees(nodes: Nodes, keys: seq<Key>, variable: Ref)
    requires Trees(nodes, keys)
    ensures Trees(WithRoot(nodes, variable), keys + [Key(|nodes|, [])])
  {
    var nodes', keys' := WithRoot(nodes, variable), keys + [Key(|nodes|, [])];
    forall y: nat | y < |nodes'| ensures ChildrenAbove(nodes', y) && KeyOk(nodes', keys', y) {
      if y < |nodes| { RootApart(nodes, keys, variable, y); }
    }
    forall y | 0 <= y < |nodes| ensures keys[y] != Key(|nodes|, []) { assert KeyOk(nodes, keys, y); }
  }

  lemma RootApart(nodes: Nodes, keys: seq<Key>, variable: Ref, y: nat)
    requires Trees(nodes, keys) && y < |nodes|
    ensures ChildrenAbove(WithRoot(nodes, variable), y)
      && KeyOk(WithRoot(nodes, variable), keys + [Key(|nodes|, [])], y)
  {
    var nodes', keys' := WithRoot(nodes, variable), keys + [Key(|nodes|, [])];
    assert ChildrenAbove(nodes, y) && KeyOk(nodes, keys, y);
    if keys[y].path != [] {
      var z :| 0 <= z < |nodes| && y in nodes[z].children && IsChild(nodes, keys, z, y);
      assert y in nodes'[z].children && IsChild(nodes', keys', z, y);
    }
  }

  lemma {:induction false} LookupWithRoot(nodes: Nodes, keys: seq<Key>, variable: Ref, y: nat, t: seq<nat>)
    requires Trees(nodes, keys) && y < |nodes| && Inside(WithRoot(nodes, variable))
    ensures Lookup(WithRoot(nodes, variable), y, t) == Lookup(nodes, y, t)
    decreases |t|
  {
    var nodes' := WithRoot(nodes, variable);
    if t != [] {
      assert ChildrenAbove(nodes, y) && ChildrenAbove(nodes', y);
      FindSame(nodes, nodes', nodes[y].children, t[0]);
      FoundChild(nodes, keys, y, t[0]);
      var r := FindChild(nodes, nodes[y].children, t[0]);
      if r.Some? { LookupWithRoot(nodes, keys, variable, r.value, t[1..]); }
    }
  }

  /** Every root is a node. */
  ghost predicate IsRoot(keys: seq<Key>, r: nat) {
    r < |keys| && keys[r] == Key(r, [])
  }

  ghost predicate SameAt(nodes0: Nodes, nodes: Nodes, r: nat, t: seq<nat>) {
    Inside(nodes0) && Inside(nodes) && r < |nodes0| && r < |nodes| && Lookup(nodes, r, t) == Lookup(nodes0, r, t)
  }

  ghost predicate Extends(nodes0: Nodes, keys0: seq<Key>, nodes: Nodes, keys: seq<Key>) {
    Trees(nodes0, keys0) && Trees(nodes, keys) && |keys0| <= |keys| && keys[..|keys0|] == keys0
  }

  /** Nothing new is recorded: neither for tuples of n arguments at root r0, nor at other roots. */
  ghost predicate Unchanged(nodes0: Nodes, keys0: seq<Key>, nodes: Nodes, keys: seq<Key>, r0: nat, n: nat) {
    && Extends(nodes0, keys0, nodes, keys)
    && forall r, t :: IsRoot(keys0, r) && (r != r0 || |t| == n) ==> SameAt(nodes0, nodes, r, t)
  }

  /** The value is recorded for the tuple, which had none, and nothing else is. */
  ghost predicate Recorded(nodes0: Nodes, keys0: seq<Key>, nodes: Nodes, keys: seq<Key>, r0: nat, vals: seq<nat>,
                           value: Ref) {
    && Extends(nodes0, keys0, nodes, keys) && r0 < |nodes0| && Lookup(nodes0, r0, vals) == None
    && Lookup(nodes, r0, vals) == Some(value)
    && forall r, t :: IsRoot(keys0, r) && (r != r0 || (|t| == |vals| && t != vals)) ==> SameAt(nodes0, nodes, r, t)
  }

  lemma RootKey(nodes0: Nodes, keys0: seq<Key>, nodes: Nodes, keys: seq<Key>, r: nat)
    requires Extends(nodes0, keys0, nodes, keys) && IsRoot(keys0, r)
    ensures IsRoot(keys, r) && r < |nodes| && r < |nodes0|
  {
    assert keys[..|keys0|][r] == keys[r];
  }

  lemma UnchangedSelf(nodes: Nodes, keys: seq<Key>, r0: nat, n: nat)
    requires Trees(nodes, keys)
    ensures Unchanged(nodes, keys, nodes, keys, r0, n)
  {
  }

  /** A child that is not a leaf records nothing. */
  lemma InnerChild(nodes0: Nodes, keys0: seq<Key>, nodes: Nodes, keys: seq<Key>, r0: nat, n: nat, x: nat,
                   variable: Ref, v: nat)
    requires Unchanged(nodes0, keys0, nodes, keys, r0, n) && x < |nodes| && IsRoot(keys0, r0)
    requires keys[x].root == r0 && |keys[x].path| + 1 < n
    requires ChildrenAbove(nodes, x) && FindChild(nodes, nodes[x].children, v).None?
    ensures Unchanged(nodes0, keys0, WithChild(nodes, x, variable, v), WithKey(keys, x, v), r0, n)
  {
    WithChildTrees(nodes, keys, x, variable, v);
    var nodes', keys' := WithChild(nodes, x, variable, v), WithKey(keys, x, v);
    forall r, t | IsRoot(keys0, r) && (r != r0 || |t| == n) ensures SameAt(nodes0, nodes', r, t) {
      RootKey(nodes0, keys0, nodes, keys, r);
      assert SameAt(nodes0, nodes, r, t);
      LookupWithChild(nodes, keys, x, variable, v, r, t);
    }
  }

  /** A leaf records its value. */
  lemma {:induction false} LeafChild(nodes0: Nodes, keys0: seq<Key>, nodes: Nodes, keys: seq<Key>, r0: nat,
                                     vals: seq<nat>, x: nat, variable: Ref)
    requires vals != [] && Unchanged(nodes0, keys0, nodes, keys, r0, |vals|) && x < |nodes| && IsRoot(keys0, r0)
    requires keys[x] == Key(r0, vals[..|vals| - 1])
    requires ChildrenAbove(nodes, x) && FindChild(nodes, nodes[x].children, vals[|vals| - 1]).None?
    ensures var v := vals[|vals| - 1];
            Recorded(nodes0, keys0, WithChild(nodes, x, variable, v), WithKey(keys, x, v), r0, vals, variable)
  {
    hide Unchanged, SameAt, ChildrenAbove, FindChild, Lookup, Extends, Inside, IsRoot, WithChild, WithKey;
    var v := vals[|vals| - 1];
    LeafThere(nodes0, keys0, nodes, keys, r0, vals, x, variable);
    var nodes' := WithChild(nodes, x, variable, v);
    forall r, t | IsRoot(keys0, r) && (r != r0 || (|t| == |vals| && t != vals)) ensures SameAt(nodes0, nodes', r, t) {
      LeafElsewhere(nodes0, keys0, nodes, keys, r0, vals, x, variable, r, t);
    }
  }

  lemma {:induction false} LeafThere(nodes0: Nodes, keys0: seq<Key>, nodes: Nodes, keys: seq<Key>, r0: nat,
                                     vals: seq<nat>, x: nat, variable: Ref)
    requires vals != [] && Unchanged(nodes0, keys0, nodes, keys, r0, |vals|) && x < |nodes| && IsRoot(keys0, r0)
    requires keys[x] == Key(r0, vals[..|vals| - 1])
    requires ChildrenAbove(nodes, x) && FindChild(nodes, nodes[x].children, vals[|vals| - 1]).None?
    ensures var v := vals[|vals| - 1];
            var (nodes', keys') := (WithChild(nodes, x, variable, v), WithKey(keys, x, v));
            && Extends(nodes0, keys0, nodes', keys') && r0 < |nodes0| && Inside(nodes0) && Inside(nodes')
            && r0 < |nodes'| && Lookup(nodes0, r0, vals) == None && Lookup(nodes', r0, vals) == Some(variable)
  {
    var v := vals[|vals| - 1];
    assert vals == vals[..|vals| - 1] + [v];
    WithChildTrees(nodes, keys, x, variable, v);
    RootKey(nodes0, keys0, nodes, keys, r0);
    LookupWithChild(nodes, keys, x, variable, v, r0, vals);
    assert SameAt(nodes0, nodes, r0, vals);
    hide Lookup, FindChild, ChildrenAbove;
  }

  lemma {:induction false} LeafElsewhere(nodes0: Nodes, keys0: seq<Key>, nodes: Nodes, keys: seq<Key>, r0: nat,
                                         vals: seq<nat>, x: nat, variable: Ref, r: nat, t: seq<nat>)
    requires vals != [] && Unchanged(nodes0, keys0, nodes, keys, r0, |vals|) && x < |nodes|
    requires IsRoot(keys0, r0) && IsRoot(keys0, r) && (r != r0 || (|t| == |vals| && t != vals))
    requires keys[x] == Key(r0, vals[..|vals| - 1])
    requires ChildrenAbove(nodes, x) && FindChild(nodes, nodes[x].children, vals[|vals| - 1]).None?
    ensures SameAt(nodes0, WithChild(nodes, x, variable, vals[|vals| - 1]), r, t)
  {
    var v := vals[|vals| - 1];
    assert vals == vals[..|vals| - 1] + [v];
    WithChildTrees(nodes, keys, x, variable, v);
    RootKey(nodes0, keys0, nodes, keys, r);
    assert SameAt(nodes0, nodes, r, t);
    LookupWithChild(nodes, keys, x, variable, v, r, t);
    if r == r0 { SameLengthPrefix(vals, t); }
  }

  lemma SameLengthPrefix(p: seq<nat>, t: seq<nat>)
    requires |p| == |t|
    ensures p <= t <==> p == t
  {
  }

  // ---------- the levels of a tree ----------

  /** Above the leaves a node asks for the argument of its level; the open node may lack children still. */
  ghost predicate Leveled(nodes: Nodes, keys: seq<Key>, r: nat, args: seq<nat>, open: Option<nat>) {
    |keys| == |nodes| && forall x :: 0 <= x < |nodes| && keys[x].root == r ==>
      LevelOk(nodes[x], keys[x].path, args, open == Some(x))
  }

  ghost predicate LevelOk(node: ValuationNode, path: seq<nat>, args: seq<nat>, open: bool) {
    && |path| <= |args|
    && if |path| < |args| then node.variable == Argument(args[|path|]) && (open || node.children != [])
       else node.variable.Constant? && node.children == []
  }

  lemma LeveledChild(nodes: Nodes, keys: seq<Key>, r: nat, args: seq<nat>, x: nat, variable: Ref, v: nat)
    requires Leveled(nodes, keys, r, args, Some(x)) && x < |nodes| && keys[x].root == r && |keys[x].path| < |args|
    requires variable == if |keys[x].path| + 1 < |args| then Argument(args[|keys[x].path| + 1]) else variable
    requires |keys[x].path| + 1 == |args| ==> variable.Constant?
    ensures Leveled(WithChild(nodes, x, variable, v), WithKey(keys, x, v), r, args, Some(|nodes|))
  {
    var nodes', keys' := WithChild(nodes, x, variable, v), WithKey(keys, x, v);
    forall y | 0 <= y < |nodes'| && keys'[y].root == r
      ensures LevelOk(nodes'[y], keys'[y].path, args, Some(|nodes|) == Some(y))
    {
      if y < |nodes| { assert LevelOk(nodes[y], keys[y].path, args, Some(x) == Some(y)); }
    }
  }

  lemma LeveledOther(nodes: Nodes, keys: seq<Key>, r: nat, args: seq<nat>, x: nat, variable: Ref, v: nat)
    requires Leveled(nodes, keys, r, args, None) && x < |nodes| && keys[x].root != r
    ensures Leveled(WithChild(nodes, x, variable, v), WithKey(keys, x, v), r, args, None)
  {
    var nodes', keys' := WithChild(nodes, x, variable, v), WithKey(keys, x, v);
    forall y | 0 <= y < |nodes'| && keys'[y].root == r ensures LevelOk(nodes'[y], keys'[y].path, args, false) {
      assert LevelOk(nodes[y], keys[y].path, args, false);
    }
  }

  // ---------- the body ----------

  /** The function's body: a reference, or a choice by the value of an argument. */
  datatype Body = Result(ref: Ref) | Choice(variable: Ref, val: nat, thn: Body, els: Body)

  /** A choice between equal bodies is not made. */
  function MkIte(variable: Ref, val: nat, thn: Body, els: Body): Body {
    if thn == els then thn else Choice(variable, val, thn, els)
  }

  function RefValue(ref: Ref, env: nat -> nat): nat {
    match ref
    case Argument(a) => env(a)
    case Constant(c) => c
  }

  function EvalBody(b: Body, env: nat -> nat): nat {
    match b
    case Result(ref) => RefValue(ref, env)
    case Choice(x, v, thn, els) => if RefValue(x, env) == v then EvalBody(thn, env) else EvalBody(els, env)
  }

  lemma MkIteEval(variable: Ref, val: nat, thn: Body, els: Body, env: nat -> nat)
    ensures EvalBody(MkIte(variable, val, thn, els), env) ==
              if RefValue(variable, env) == val then EvalBody(thn, env) else EvalBody(els, env)
  {
  }

  /** The body of a node: the choices between its children from the first to the last, then the default. */
  function BodyOf(nodes: Nodes, x: nat, def: nat): Body
    requires Inside(nodes) && x < |nodes|
    decreases |nodes| - x, 0, 0
  {
    if nodes[x].children == [] then Result(nodes[x].variable) else Choices(nodes, x, 0, def)
  }

  /** The choices from child k on. */
  function Choices(nodes: Nodes, x: nat, k: nat, def: nat): Body
    requires Inside(nodes) && x < |nodes| && k <= |nodes[x].children|
    decreases |nodes| - x - 1, 1, |nodes[x].children| - k
  {
    if k == |nodes[x].children| then Result(Constant(def))
    else
      assert ChildrenAbove(nodes, x);
      var c := nodes[x].children[k];
      MkIte(nodes[x].variable, ValueOf(nodes, c), BodyOf(nodes, c, def), Choices(nodes, x, k + 1, def))
  }

  function ValueOf(nodes: Nodes, c: nat): nat
    requires c < |nodes|
  {
    if nodes[c].value.Some? then nodes[c].value.value else 0
  }

  /** The arguments of the level and the tuple agree. */
  ghost predicate Binds(env: nat -> nat, args: seq<nat>, t: seq<nat>) {
    |args| == |t| && forall i :: 0 <= i < |args| ==> env(args[i]) == t[i]
  }

  ghost function ResultOf(r: Option<Ref>, def: nat): nat {
    if r.Some? && r.value.Constant? then r.value.c else def
  }

  /** The choices from child k on pick the first child with the argument's value. */
  lemma {:induction false} ChoicesPick(nodes: Nodes, keys: seq<Key>, x: nat, k: nat, def: nat, env: nat -> nat)
    requires Trees(nodes, keys) && x < |nodes| && k <= |nodes[x].children| && ChildrenAbove(nodes, x)
    ensures var r := FindChild(nodes, nodes[x].children[k..], RefValue(nodes[x].variable, env));
            EvalBody(Choices(nodes, x, k, def), env) == if r.Some? then EvalBody(BodyOf(nodes, r.value, def), env)
              else def
    decreases |nodes[x].children| - k
  {
    var cs := nodes[x].children;
    if k < |cs| {
      var c := cs[k];
      assert KeyOk(nodes, keys, x) && IsChild(nodes, keys, x, c);
      assert cs[k..][0] == c && cs[k..][1..] == cs[k + 1..];
      ChoicesPick(nodes, keys, x, k + 1, def, env);
      MkIteEval(nodes[x].variable, ValueOf(nodes, c), BodyOf(nodes, c, def), Choices(nodes, x, k + 1, def), env);
    }
  }

  /** The body evaluates to what is recorded for the arguments, or to the default. */
  lemma {:induction false} BodyAgrees(nodes: Nodes, keys: seq<Key>, x: nat, args: seq<nat>, def: nat, env: nat -> nat,
                                      t: seq<nat>)
    requires Trees(nodes, keys) && x < |nodes| && Leveled(nodes, keys, keys[x].root, args, None)
    requires Binds(env, args, t) && |keys[x].path| <= |t|
    ensures EvalBody(BodyOf(nodes, x, def), env) == ResultOf(Lookup(nodes, x, t[|keys[x].path|..]), def)
    decreases |t| - |keys[x].path|
  {
    var i := |keys[x].path|;
    assert LevelOk(nodes[x], keys[x].path, args, false);
    assert ChildrenAbove(nodes, x);
    if i < |t| {
      var w, rest := t[i], t[i..];
      assert rest[0] == w && rest[1..] == t[i + 1..];
      ChoicesPick(nodes, keys, x, 0, def, env);
      assert nodes[x].children[0..] == nodes[x].children;
      FoundChild(nodes, keys, x, w);
      var r := FindChild(nodes, nodes[x].children, w);
      if r.Some? { BodyAgrees(nodes, keys, r.value, args, def, env, t); }
    }
  }

  // ---------- building the body ----------

  /** A node on the stack, and the child to look at next. */
  datatype Pending = Pending(node: nat, nextChild: nat)

  /** The path from the root to the node on top, and the formulas of the nodes that are done. */
  ghost predicate Building(nodes: Nodes, root: nat, stack: seq<Pending>, formulas: map<nat, Body>, def: nat) {
    && Inside(nodes) && (forall x :: x in formulas ==> x < |nodes| && formulas[x] == BodyOf(nodes, x, def))
    && (forall i :: 0 <= i < |stack| ==> PendingOk(nodes, formulas, stack, i))
    && (forall i, j :: 0 <= i < j < |stack| ==> stack[i].node < stack[j].node)
    && (if stack == [] then root in formulas else stack[0].node == root)
  }

  ghost predicate PendingOk(nodes: Nodes, formulas: map<nat, Body>, stack: seq<Pending>, i: nat)
    requires i < |stack|
  {
    var e := stack[i];
    && e.node < |nodes| && e.node !in formulas && e.nextChild <= |nodes[e.node].children|
    && (i + 1 < |stack| ==> e.nextChild > 0 && nodes[e.node].children[e.nextChild - 1] == stack[i + 1].node)
    && forall k :: 0 <= k < (if i + 1 < |stack| then e.nextChild - 1 else e.nextChild) ==>
      nodes[e.node].children[k] in formulas
  }

  function OnStack(stack: seq<Pending>): set<nat> {
    set e | e in stack :: e.node
  }

  ghost function Open(nodes: Nodes, formulas: map<nat, Body>): set<nat> {
    UpTo(|nodes|) - formulas.Keys
  }

  ghost function Waiting(nodes: Nodes, formulas: map<nat, Body>, stack: seq<Pending>): set<nat> {
    UpTo(|nodes|) - formulas.Keys - OnStack(stack)
  }

  ghost function Ahead(nodes: Nodes, stack: seq<Pending>): int {
    if stack == [] || stack[|stack| - 1].node >= |nodes| then 0
    else |nodes[stack[|stack| - 1].node].children| - stack[|stack| - 1].nextChild
  }

  lemma BuildingTop(nodes: Nodes, root: nat, stack: seq<Pending>, formulas: map<nat, Body>, def: nat)
    requires Building(nodes, root, stack, formulas, def) && stack != []
    ensures var e := stack[|stack| - 1];
            && Inside(nodes) && e.node < |nodes| && ChildrenAbove(nodes, e.node) && e.node !in formulas
            && e.nextChild <= |nodes[e.node].children|
            && (e.nextChild == |nodes[e.node].children| ==>
                  forall k :: 0 <= k < |nodes[e.node].children| ==> nodes[e.node].children[k] in formulas)
    ensures forall x :: x in formulas ==> x < |nodes| && formulas[x] == BodyOf(nodes, x, def)
  {
    assert PendingOk(nodes, formulas, stack, |stack| - 1);
  }

  /** The next child of the top is done already. */
  lemma BuildingSkip(nodes: Nodes, root: nat, stack: seq<Pending>, formulas: map<nat, Body>, def: nat)
    requires Building(nodes, root, stack, formulas, def) && stack != []
    requires var e := stack[|stack| - 1];
             e.node < |nodes| && e.nextChild < |nodes[e.node].children|
               && nodes[e.node].children[e.nextChild] in formulas
    ensures var (n, e) := (|stack| - 1, stack[|stack| - 1]);
            var stack' := stack[..n] + [Pending(e.node, e.nextChild + 1)];
            && Building(nodes, root, stack', formulas, def)
            && Waiting(nodes, formulas, stack') == Waiting(nodes, formulas, stack)
            && Ahead(nodes, stack') < Ahead(nodes, stack)
  {
    var n, e := |stack| - 1, stack[|stack| - 1];
    var stack' := stack[..n] + [Pending(e.node, e.nextChild + 1)];
    forall i | 0 <= i < |stack'| ensures PendingOk(nodes, formulas, stack', i) {
      assert PendingOk(nodes, formulas, stack, i);
    }
    SameNodes(stack, stack');
  }

  lemma SameNodes(stack: seq<Pending>, stack': seq<Pending>)
    requires |stack'| == |stack| && forall i :: 0 <= i < |stack| ==> stack'[i].node == stack[i].node
    ensures OnStack(stack') == OnStack(stack)
  {
    forall x | x in OnStack(stack') ensures x in OnStack(stack) {
      var i :| 0 <= i < |stack'| && stack'[i].node == x;
      assert stack[i] in stack;
    }
    forall x | x in OnStack(stack) ensures x in OnStack(stack') {
      var i :| 0 <= i < |stack| && stack[i].node == x;
      assert stack'[i] in stack';
    }
  }

  /** The next child of the top is pushed. */
  lemma BuildingPush(nodes: Nodes, root: nat, stack: seq<Pending>, formulas: map<nat, Body>, def: nat)
    requires Building(nodes, root, stack, formulas, def) && stack != []
    requires var e := stack[|stack| - 1];
             e.node < |nodes| && e.nextChild < |nodes[e.node].children|
               && nodes[e.node].children[e.nextChild] !in formulas
    ensures var (n, e) := (|stack| - 1, stack[|stack| - 1]);
            var stack' := stack[..n] + [Pending(e.node, e.nextChild + 1)]
              + [Pending(nodes[e.node].children[e.nextChild], 0)];
            && Building(nodes, root, stack', formulas, def)
            && Waiting(nodes, formulas, stack') < Waiting(nodes, formulas, stack)
  {
    var n, e := |stack| - 1, stack[|stack| - 1];
    var c := nodes[e.node].children[e.nextChild];
    assert ChildrenAbove(nodes, e.node);
    var stack' := stack[..n] + [Pending(e.node, e.nextChild + 1)] + [Pending(c, 0)];
    forall i | 0 <= i < |stack'| ensures PendingOk(nodes, formulas, stack', i) {
      PendingPushed(nodes, formulas, stack, stack', i);
    }
    hide PendingOk, Waiting, BodyOf, Inside;
    PushedNodes(nodes, formulas, stack, stack', c);
  }

  lemma PendingPushed(nodes: Nodes, formulas: map<nat, Body>, stack: seq<Pending>, stack': seq<Pending>, i: nat)
    requires stack != [] && |stack'| == |stack| + 1 && i < |stack'| && forall k :: 0 <= k < |stack| ==>
      PendingOk(nodes, formulas, stack, k)
    requires var e := stack[|stack| - 1];
             && e.node < |nodes| && e.nextChild < |nodes[e.node].children|
             && stack'[|stack| - 1] == Pending(e.node, e.nextChild + 1)
             && stack'[|stack|] == Pending(nodes[e.node].children[e.nextChild], 0)
             && nodes[e.node].children[e.nextChild] < |nodes| && nodes[e.node].children[e.nextChild] !in formulas
    requires forall k :: 0 <= k < |stack| - 1 ==> stack'[k] == stack[k]
    ensures PendingOk(nodes, formulas, stack', i)
  {
    if i < |stack| { assert PendingOk(nodes, formulas, stack, i); }
  }

  lemma PushedNodes(nodes: Nodes, formulas: map<nat, Body>, stack: seq<Pending>, stack': seq<Pending>, c: nat)
    requires |stack'| == |stack| + 1 && stack'[|stack|].node == c < |nodes| && c !in formulas
    requires forall i :: 0 <= i < |stack| ==> stack'[i].node == stack[i].node < c
    ensures Waiting(nodes, formulas, stack') < Waiting(nodes, formulas, stack)
  {
    assert stack'[|stack|] in stack';
    forall x | x in OnStack(stack) ensures x in OnStack(stack') {
      var i :| 0 <= i < |stack| && stack[i].node == x;
      assert stack'[i] in stack';
    }
    assert c in Waiting(nodes, formulas, stack);
    assert c !in Waiting(nodes, formulas, stack');
  }

  /** The top gets its formula. */
  lemma BuildingPop(nodes: Nodes, root: nat, stack: seq<Pending>, formulas: map<nat, Body>, def: nat)
    requires Building(nodes, root, stack, formulas, def) && stack != [] && stack[|stack| - 1].node < |nodes|
    ensures var (n, x) := (|stack| - 1, stack[|stack| - 1].node);
            && Building(nodes, root, stack[..n], formulas[x := BodyOf(nodes, x, def)], def)
            && Open(nodes, formulas[x := BodyOf(nodes, x, def)]) < Open(nodes, formulas)
  {
    var n, x := |stack| - 1, stack[|stack| - 1].node;
    var stack', formulas' := stack[..n], formulas[x := BodyOf(nodes, x, def)];
    assert PendingOk(nodes, formulas, stack, n);
    forall i | 0 <= i < n ensures PendingOk(nodes, formulas', stack', i) {
      assert PendingOk(nodes, formulas, stack, i);
      assert stack[i].node < stack[n].node;
    }
    assert x in Open(nodes, formulas) && x !in Open(nodes, formulas');
  }

  /** The formula of a node from those of its children, the last child first. */
  method NodeFormula(nodes: Nodes, x: nat, formulas: map<nat, Body>, def: nat) returns (f: Body)
    requires Inside(nodes) && x < |nodes| && ChildrenAbove(nodes, x)
    requires forall k :: 0 <= k < |nodes[x].children| ==> nodes[x].children[k] in formulas
    requires forall y :: y in formulas ==> y < |nodes| && formulas[y] == BodyOf(nodes, y, def)
    ensures f == BodyOf(nodes, x, def)
  {
    var cs := nodes[x].children;
    if |cs| == 0 { return Result(nodes[x].variable); }
    f := Result(Constant(def));
    var i := |cs| - 1;
    while i >= 0
      invariant -1 <= i < |cs| && f == Choices(nodes, x, i + 1, def)
    {
      f := MkIte(nodes[x].variable, ValueOf(nodes, cs[i]), formulas[cs[i]], f);
      i := i - 1;
    }
  }

  /** Builds the body bottom up, with an explicit stack. */
  method ValuationTreeToFunctionBody(nodes: Nodes, root: nat, def: nat) returns (body: Body)
    requires Inside(nodes) && root < |nodes|
    ensures body == BodyOf(nodes, root, def)
  {
    var formulas: map<nat, Body> := map[];
    var queue := [Pending(root, 0)];
    assert Building(nodes, root, queue, formulas, def);
    hide *;
    while queue != []
      invariant Building(nodes, root, queue, formulas, def)
      decreases Open(nodes, formulas), Waiting(nodes, formulas, queue), Ahead(nodes, queue)
    {
      BuildingTop(nodes, root, queue, formulas, def);
      var n := |queue| - 1;
      var el := queue[n];
      if el.nextChild < |nodes[el.node].children| {
        var child := nodes[el.node].children[el.nextChild];
        if child in formulas {
          BuildingSkip(nodes, root, queue, formulas, def);
          queue := queue[..n] + [Pending(el.node, el.nextChild + 1)];
        } else {
          BuildingPush(nodes, root, queue, formulas, def);
          queue := queue[..n] + [Pending(el.node, el.nextChild + 1)] + [Pending(child, 0)];
        }
      } else {
        var f := NodeFormula(nodes, el.node, formulas, def);
        BuildingPop(nodes, root, queue, formulas, def);
        formulas, queue := formulas[el.node := f], queue[..n];
      }
    }
    BuildingEnds(nodes, root, formulas, def);
    body := formulas[root];
  }

  lemma BuildingEnds(nodes: Nodes, root: nat, formulas: map<nat, Body>, def: nat)
    requires Building(nodes, root, [], formulas, def)
    ensures Inside(nodes) && root < |nodes| && root in formulas && formulas[root] == BodyOf(nodes, root, def)
  {
  }

  // ---------- the descent ----------

  /** The levels of the other trees are as they were. */
  ghost predicate OthersLeveled(nodes0: Nodes, keys0: seq<Key>, nodes: Nodes, keys: seq<Key>, r: nat) {
    forall q: nat, args :: q != r && Leveled(nodes0, keys0, q, args, None) && q < |keys0| ==>
      Leveled(nodes, keys, q, args, None)
  }

  /** The first i values have led to the current node; below it nothing is there if it was created on the way. */
  ghost predicate Descent(nodes0: Nodes, keys0: seq<Key>, nodes: Nodes, keys: seq<Key>, r: nat, args: seq<nat>,
                          vals: seq<nat>,
                          value: nat, i: nat, current: nat, created: bool) {
    && |args| == |vals| && i <= |vals| && IsRoot(keys0, r)
    && Trees(nodes, keys) && current < |nodes| && keys[current] == Key(r, vals[..i])
    && Leveled(nodes, keys, r, args, Some(current)) && OthersLeveled(nodes0, keys0, nodes, keys, r)
    && (created ==> nodes[current].children == [])
    && if created && i == |vals| then Recorded(nodes0, keys0, nodes, keys, r, vals, Constant(value))
       else Unchanged(nodes0, keys0, nodes, keys, r, |vals|)
  }

  lemma DescentStarts(nodes0: Nodes, keys0: seq<Key>, r: nat, args: seq<nat>, vals: seq<nat>, value: nat)
    requires |args| == |vals| && vals != [] && Trees(nodes0, keys0) && IsRoot(keys0, r)
      && Leveled(nodes0, keys0, r, args, Some(r))
    ensures Descent(nodes0, keys0, nodes0, keys0, r, args, vals, value, 0, r, false)
  {
    UnchangedSelf(nodes0, keys0, r, |vals|);
    assert vals[..0] == [];
  }

  lemma DescentAt(nodes0: Nodes, keys0: seq<Key>, nodes: Nodes, keys: seq<Key>, r: nat, args: seq<nat>, vals: seq<nat>,
                  value: nat, i: nat, current: nat, created: bool)
    requires Descent(nodes0, keys0, nodes, keys, r, args, vals, value, i, current, created)
    ensures current < |nodes| && ChildrenAbove(nodes, current) && |args| == |vals| && |keys| == |nodes|
  {
    assert ChildrenAbove(nodes, current);
  }

  lemma DescentFound(nodes0: Nodes, keys0: seq<Key>, nodes: Nodes, keys: seq<Key>, r: nat, args: seq<nat>,
                     vals: seq<nat>,
                     value: nat, i: nat, current: nat, created: bool)
    requires Descent(nodes0, keys0, nodes, keys, r, args, vals, value, i, current, created) && i < |vals|
    requires current < |nodes| && ChildrenAbove(nodes, current)
      && FindChild(nodes, nodes[current].children, vals[i]).Some?
    ensures var c := FindChild(nodes, nodes[current].children, vals[i]).value;
            Descent(nodes0, keys0, nodes, keys, r, args, vals, value, i + 1, c, created)
  {
    var c := FindChild(nodes, nodes[current].children, vals[i]).value;
    FoundChild(nodes, keys, current, vals[i]);
    assert vals[..i + 1] == vals[..i] + [vals[i]];
    hide Unchanged, Recorded, OthersLeveled, Trees;
    forall x | 0 <= x < |nodes| && keys[x].root == r ensures LevelOk(nodes[x], keys[x].path, args, Some(c) == Some(x)) {
      assert LevelOk(nodes[x], keys[x].path, args, Some(current) == Some(x));
    }
  }

  lemma DescentNew(nodes0: Nodes, keys0: seq<Key>, nodes: Nodes, keys: seq<Key>, r: nat, args: seq<nat>, vals: seq<nat>,
                   value: nat, i: nat, current: nat, created: bool, variable: Ref)
    requires Descent(nodes0, keys0, nodes, keys, r, args, vals, value, i, current, created) && i < |vals|
    requires current < |nodes| && ChildrenAbove(nodes, current)
      && FindChild(nodes, nodes[current].children, vals[i]).None?
    requires |args| == |vals| && variable == if i == |vals| - 1 then Constant(value) else Argument(args[i + 1])
    requires |keys| == |nodes|
    ensures Descent(nodes0, keys0, WithChild(nodes, current, variable, vals[i]), WithKey(keys, current, vals[i]),
                    r, args, vals, value, i + 1, |nodes|, true)
  {
    var v := vals[i];
    assert vals[..i + 1] == vals[..i] + [v];
    WithChildTrees(nodes, keys, current, variable, v);
    LeveledChild(nodes, keys, r, args, current, variable, v);
    OthersNew(nodes0, keys0, nodes, keys, r, current, variable, v);
    if i == |vals| - 1 {
      LeafChild(nodes0, keys0, nodes, keys, r, vals, current, variable);
    } else {
      InnerChild(nodes0, keys0, nodes, keys, r, |vals|, current, variable, v);
    }
    hide Unchanged, Recorded, OthersLeveled, Trees, Leveled;
  }

  lemma OthersNew(nodes0: Nodes, keys0: seq<Key>, nodes: Nodes, keys: seq<Key>, r: nat, x: nat, variable: Ref, v: nat)
    requires OthersLeveled(nodes0, keys0, nodes, keys, r) && |keys| == |nodes| && x < |nodes| && keys[x].root == r
    ensures OthersLeveled(nodes0, keys0, WithChild(nodes, x, variable, v), WithKey(keys, x, v), r)
  {
    hide Leveled;
    forall q: nat, args | q != r && Leveled(nodes0, keys0, q, args, None) && q < |keys0|
      ensures Leveled(WithChild(nodes, x, variable, v), WithKey(keys, x, v), q, args, None)
    {
      LeveledOther(nodes, keys, q, args, x, variable, v);
    }
  }

  /** What is looked up afterwards: the first value recorded for a tuple stays, and the new one is there. */
  ghost predicate Added(nodes0: Nodes, nodes: Nodes, r: nat, vals: seq<nat>, value: nat) {
    && Inside(nodes0) && Inside(nodes) && r < |nodes0| && r < |nodes|
    && forall t :: |t| == |vals| ==> AddedAt(nodes0, nodes, r, vals, value, t)
  }

  ghost predicate AddedAt(nodes0: Nodes, nodes: Nodes, r: nat, vals: seq<nat>, value: nat, t: seq<nat>)
    requires Inside(nodes0) && Inside(nodes) && r < |nodes0| && r < |nodes|
  {
    Lookup(nodes, r, t) == if Lookup(nodes0, r, t).None? && t == vals then Some(Constant(value))
      else Lookup(nodes0, r, t)
  }

  lemma DescentEnds(nodes0: Nodes, keys0: seq<Key>, nodes: Nodes, keys: seq<Key>, r: nat, args: seq<nat>,
                    vals: seq<nat>,
                    value: nat, current: nat, created: bool)
    requires Descent(nodes0, keys0, nodes, keys, r, args, vals, value, |vals|, current, created)
    ensures Extends(nodes0, keys0, nodes, keys) && Leveled(nodes, keys, r, args, None)
    ensures OthersLeveled(nodes0, keys0, nodes, keys, r) && Added(nodes0, nodes, r, vals, value)
    ensures forall q, t :: IsRoot(keys0, q) && q != r ==> SameAt(nodes0, nodes, q, t)
  {
    RootKey(nodes0, keys0, nodes, keys, r);
    assert vals[..|vals|] == vals;
    LookupThrough(nodes, keys, current, []);
    assert vals + [] == vals;
    forall x | 0 <= x < |nodes| && keys[x].root == r ensures LevelOk(nodes[x], keys[x].path, args, false) {
      assert LevelOk(nodes[x], keys[x].path, args, Some(current) == Some(x));
    }
    forall t | |t| == |vals| ensures AddedAt(nodes0, nodes, r, vals, value, t) {
      if created {
        if t != vals { assert SameAt(nodes0, nodes, r, t); }
      } else {
        assert SameAt(nodes0, nodes, r, t);
      }
    }
  }

  // ---------- the model builder ----------

  /** The formal arguments of a function and the root of its tree. */
  datatype Definition = Definition(args: seq<nat>, root: nat)

  /** What a table says about a tuple. */
  ghost function Entry(table: map<seq<nat>, nat>, t: seq<nat>): Option<Ref> {
    if t in table then Some(Constant(table[t])) else None
  }

  /** The tree of a function records exactly its table. */
  ghost predicate DefinitionOk(nodes: Nodes, keys: seq<Key>, d: Definition, n: nat, uniqueNum: nat,
                               table: map<seq<nat>, nat>) {
    && Trees(nodes, keys) && |d.args| == n > 0 && Distinct(d.args) && (forall a :: a in d.args ==> a < uniqueNum)
    && IsRoot(keys, d.root) && Leveled(nodes, keys, d.root, d.args, None)
    && (forall t :: t in table ==> |t| == n) && forall t :: |t| == n ==> EntryAt(nodes, d.root, table, t)
  }

  ghost predicate EntryAt(nodes: Nodes, r: nat, table: map<seq<nat>, nat>, t: seq<nat>) {
    Inside(nodes) && r < |nodes| && Lookup(nodes, r, t) == Entry(table, t)
  }

  /** The table after a value was given: the first value of a tuple counts. */
  ghost function First(table: map<seq<nat>, nat>, vals: seq<nat>, val: nat): map<seq<nat>, nat> {
    if vals in table then table else table[vals := val]
  }

  ghost predicate AllDefined(nodes: Nodes, keys: seq<Key>, definitions: map<nat, Definition>, arity: nat -> nat,
                             uniqueNum: nat,
                             tables: map<nat, map<seq<nat>, nat>>) {
    && Trees(nodes, keys) && definitions.Keys == tables.Keys
    && (forall f :: f in definitions ==> DefinitionOk(nodes, keys, definitions[f], arity(f), uniqueNum, tables[f]))
    && forall f, g :: f in definitions && g in definitions && f != g ==> definitions[f].root != definitions[g].root
  }

  lemma OldDefinition(nodes0: Nodes, keys0: seq<Key>, nodes: Nodes, keys: seq<Key>, r: nat, d: Definition, n: nat,
                      u0: nat, u: nat,
                      table: map<seq<nat>, nat>)
    requires DefinitionOk(nodes0, keys0, d, n, u0, table) && d.root != r && u0 <= u
    requires Extends(nodes0, keys0, nodes, keys) && OthersLeveled(nodes0, keys0, nodes, keys, r)
    requires forall q, t :: IsRoot(keys0, q) && q != r ==> SameAt(nodes0, nodes, q, t)
    ensures DefinitionOk(nodes, keys, d, n, u, table)
  {
    RootKey(nodes0, keys0, nodes, keys, d.root);
    hide Leveled, Trees;
    forall t | |t| == n ensures EntryAt(nodes, d.root, table, t) {
      assert EntryAt(nodes0, d.root, table, t) && SameAt(nodes0, nodes, d.root, t);
    }
  }

  lemma NewEntry(nodes0: Nodes, keys0: seq<Key>, nodes: Nodes, keys: seq<Key>, d: Definition, n: nat, u: nat,
                 table: map<seq<nat>, nat>, vals: seq<nat>, val: nat)
    requires DefinitionOk(nodes0, keys0, d, n, u, table) && |vals| == n
    requires Extends(nodes0, keys0, nodes, keys) && Leveled(nodes, keys, d.root, d.args, None)
      && Added(nodes0, nodes, d.root, vals, val)
    ensures DefinitionOk(nodes, keys, d, n, u, First(table, vals, val))
  {
    RootKey(nodes0, keys0, nodes, keys, d.root);
    hide Leveled, Trees;
    forall t | |t| == n ensures EntryAt(nodes, d.root, First(table, vals, val), t) {
      assert EntryAt(nodes0, d.root, table, t) && AddedAt(nodes0, nodes, d.root, vals, val, t);
    }
  }

  ghost predicate EmptyTree(nodes: Nodes, r: nat) {
    Inside(nodes) && r < |nodes| && forall t :: t != [] ==> Lookup(nodes, r, t) == None
  }

  /** A tree of a root alone records nothing for tuples. */
  lemma RootAlone(nodes: Nodes, keys: seq<Key>, args: seq<nat>)
    requires Trees(nodes, keys) && args != []
    ensures var (nodes', keys') := (WithRoot(nodes, Argument(args[0])), keys + [Key(|nodes|, [])]);
            && Extends(nodes, keys, nodes', keys') && IsRoot(keys', |nodes|)
            && Leveled(nodes', keys', |nodes|, args, Some(|nodes|))
            && OthersLeveled(nodes, keys, nodes', keys', |nodes|)
            && EmptyTree(nodes', |nodes|)
            && (forall q, t :: IsRoot(keys, q) ==> SameAt(nodes, nodes', q, t))
  {
    var nodes', keys' := WithRoot(nodes, Argument(args[0])), keys + [Key(|nodes|, [])];
    WithRootTrees(nodes, keys, Argument(args[0]));
    forall x | 0 <= x < |nodes| ensures keys[x].root < |nodes| { assert KeyOk(nodes, keys, x); }
    forall x | 0 <= x < |nodes'| && keys'[x].root == |nodes|
      ensures LevelOk(nodes'[x], keys'[x].path, args, Some(|nodes|) == Some(x))
    {
    }
    forall q, t | IsRoot(keys, q) ensures SameAt(nodes, nodes', q, t) {
      LookupWithRoot(nodes, keys, Argument(args[0]), q, t);
    }
    forall q: nat, as' | q != |nodes| && Leveled(nodes, keys, q, as', None) && q < |keys|
      ensures Leveled(nodes', keys', q, as', None)
    {
      forall x | 0 <= x < |nodes'| && keys'[x].root == q ensures LevelOk(nodes'[x], keys'[x].path, as', false) {
        assert LevelOk(nodes[x], keys[x].path, as', false);
      }
    }
  }

  lemma FirstEntry(nodes: Nodes, keys: seq<Key>, args: seq<nat>, uniqueNum: nat, r: nat, vals: seq<nat>, val: nat,
                   nodes': Nodes, keys': seq<Key>)
    requires Trees(nodes, keys) && IsRoot(keys, r) && |args| == |vals| > 0 && Distinct(args) && forall a ::
      a in args ==> a < uniqueNum
    requires EmptyTree(nodes, r)
    requires Extends(nodes, keys, nodes', keys') && Leveled(nodes', keys', r, args, None)
      && Added(nodes, nodes', r, vals, val)
    ensures DefinitionOk(nodes', keys', Definition(args, r), |args|, uniqueNum, First(map[], vals, val))
  {
    RootKey(nodes, keys, nodes', keys', r);
    hide Leveled, Trees;
    forall t | |t| == |args| ensures EntryAt(nodes', r, First(map[], vals, val), t) {
      assert t != [] && AddedAt(nodes, nodes', r, vals, val, t);
    }
  }

  /** Adding to a tree that is already there. */
  lemma AddedToOld(nodes0: Nodes, keys0: seq<Key>, nodes: Nodes, keys: seq<Key>, definitions: map<nat, Definition>,
                   arity: nat -> nat,
                   uniqueNum: nat, tables: map<nat, map<seq<nat>, nat>>, sr: nat, vals: seq<nat>, val: nat)
    requires AllDefined(nodes0, keys0, definitions, arity, uniqueNum, tables) && sr in definitions
      && |vals| == arity(sr)
    requires var d := definitions[sr];
             && Extends(nodes0, keys0, nodes, keys) && Leveled(nodes, keys, d.root, d.args, None)
             && OthersLeveled(nodes0, keys0, nodes, keys, d.root) && Added(nodes0, nodes, d.root, vals, val)
             && forall q, t :: IsRoot(keys0, q) && q != d.root ==> SameAt(nodes0, nodes, q, t)
    ensures AllDefined(nodes, keys, definitions, arity, uniqueNum, tables[sr := First(tables[sr], vals, val)])
  {
    hide *;
    DefinedParts(nodes0, keys0, definitions, arity, uniqueNum, tables, sr, sr);
    var r, tables' := definitions[sr].root, tables[sr := First(tables[sr], vals, val)];
    forall f | f in definitions
      ensures f in tables' && DefinitionOk(nodes, keys, definitions[f], arity(f), uniqueNum, tables'[f])
    {
      DefinedParts(nodes0, keys0, definitions, arity, uniqueNum, tables, f, sr);
      if f == sr {
        NewEntry(nodes0, keys0, nodes, keys, definitions[f], arity(f), uniqueNum, tables[f], vals, val);
      } else {
        OldDefinition(nodes0, keys0, nodes, keys, r, definitions[f], arity(f), uniqueNum, uniqueNum, tables[f]);
      }
    }
    DefinedAgain(nodes0, keys0, definitions, arity, uniqueNum, tables, nodes, keys, definitions, uniqueNum, tables');
  }

  lemma DefinedParts(nodes: Nodes, keys: seq<Key>, definitions: map<nat, Definition>, arity: nat -> nat, u: nat,
                     tables: map<nat, map<seq<nat>, nat>>, f: nat, g: nat)
    requires AllDefined(nodes, keys, definitions, arity, u, tables) && f in definitions
    ensures f in tables && DefinitionOk(nodes, keys, definitions[f], arity(f), u, tables[f])
      && definitions[f].root < |nodes|
    ensures g in definitions && f != g ==> definitions[f].root != definitions[g].root
  {
    RootBelow(nodes, keys, definitions[f], arity(f), u, tables[f]);
  }

  lemma DefinedTrees(nodes: Nodes, keys: seq<Key>, definitions: map<nat, Definition>, arity: nat -> nat, u: nat,
                     tables: map<nat, map<seq<nat>, nat>>)
    requires AllDefined(nodes, keys, definitions, arity, u, tables)
    ensures Trees(nodes, keys)
  {
  }

  lemma DefinedAgain(nodes0: Nodes, keys0: seq<Key>, definitions0: map<nat, Definition>, arity: nat -> nat, u0: nat,
                     tables0: map<nat, map<seq<nat>, nat>>, nodes: Nodes, keys: seq<Key>,
                       definitions: map<nat, Definition>,
                     u: nat, tables: map<nat, map<seq<nat>, nat>>)
    requires AllDefined(nodes0, keys0, definitions0, arity, u0, tables0) && Extends(nodes0, keys0, nodes, keys)
    requires definitions == definitions0 && tables.Keys == tables0.Keys
    requires forall f :: f in definitions ==>
      f in tables && DefinitionOk(nodes, keys, definitions[f], arity(f), u, tables[f])
    ensures AllDefined(nodes, keys, definitions, arity, u, tables)
  {
    hide DefinitionOk, Trees;
  }

  /** A new tree, of which node r is the root, and the value added to it. */
  lemma AddedToNew(nodes0: Nodes, keys0: seq<Key>, nodes1: Nodes, keys1: seq<Key>, nodes: Nodes, keys: seq<Key>,
                   definitions: map<nat, Definition>, arity: nat -> nat, u0: nat, u: nat,
                     tables: map<nat, map<seq<nat>, nat>>,
                   sr: nat, d: Definition, vals: seq<nat>, val: nat)
    requires AllDefined(nodes0, keys0, definitions, arity, u0, tables) && sr !in definitions
      && |vals| == arity(sr) > 0 && u0 <= u
    requires |d.args| == |vals| && Distinct(d.args) && (forall a :: a in d.args ==> a < u) && d.root == |nodes0|
    requires nodes1 == WithRoot(nodes0, Argument(d.args[0])) && keys1 == keys0 + [Key(|nodes0|, [])]
    requires Extends(nodes1, keys1, nodes, keys) && Leveled(nodes, keys, d.root, d.args, None)
    requires OthersLeveled(nodes1, keys1, nodes, keys, d.root) && Added(nodes1, nodes, d.root, vals, val)
    requires forall q, t :: IsRoot(keys1, q) && q != d.root ==> SameAt(nodes1, nodes, q, t)
    ensures AllDefined(nodes, keys, definitions[sr := d], arity, u, tables[sr := First(map[], vals, val)])
  {
    hide *;
    DefinedTrees(nodes0, keys0, definitions, arity, u0, tables);
    RootAlone(nodes0, keys0, d.args);
    FirstEntry(nodes1, keys1, d.args, u, d.root, vals, val, nodes, keys);
    var definitions', tables' := definitions[sr := d], tables[sr := First(map[], vals, val)];
    forall f | f in definitions
      ensures f in tables && DefinitionOk(nodes, keys, definitions[f], arity(f), u, tables[f])
        && definitions[f].root < |nodes0|
    {
      DefinedParts(nodes0, keys0, definitions, arity, u0, tables, f, sr);
      OldDefinition(nodes0, keys0, nodes1, keys1, |nodes0|, definitions[f], arity(f), u0, u, tables[f]);
      OldDefinition(nodes1, keys1, nodes, keys, d.root, definitions[f], arity(f), u, u, tables[f]);
    }
    DefinedMore(nodes0, keys0, definitions, arity, u0, tables, nodes1, keys1, nodes, keys, u, sr, d,
                First(map[], vals, val));
  }

  lemma DefinedMore(nodes0: Nodes, keys0: seq<Key>, definitions: map<nat, Definition>, arity: nat -> nat, u0: nat,
                    tables: map<nat, map<seq<nat>, nat>>, nodes1: Nodes, keys1: seq<Key>, nodes: Nodes,
                      keys: seq<Key>, u: nat,
                    sr: nat, d: Definition, table: map<seq<nat>, nat>)
    requires AllDefined(nodes0, keys0, definitions, arity, u0, tables) && Extends(nodes1, keys1, nodes, keys)
    requires sr !in definitions && d.root == |nodes0| && DefinitionOk(nodes, keys, d, arity(sr), u, table)
    requires forall f :: f in definitions ==>
               f in tables && DefinitionOk(nodes, keys, definitions[f], arity(f), u, tables[f])
                 && definitions[f].root < |nodes0|
    ensures AllDefined(nodes, keys, definitions[sr := d], arity, u, tables[sr := table])
  {
    hide DefinitionOk, Trees;
  }

  lemma RootBelow(nodes: Nodes, keys: seq<Key>, d: Definition, n: nat, u: nat, table: map<seq<nat>, nat>)
    requires DefinitionOk(nodes, keys, d, n, u, table)
    ensures d.root < |nodes|
  {
  }

  /** The sorts of the arguments and of the values of a function. */
  datatype Signature = Signature(domain: seq<nat>, range: nat)

  class ModelBuilder {
    /** The signatures of function symbols, the sorts of values, and the numbers of arguments. */
    const signature: nat -> Signature
    const sortOf: nat -> nat
    const arity: nat -> nat := (f: nat) => |signature(f).domain|
    var nodes: Nodes
    var definitions: map<nat, Definition>
    var uniqueNum: nat
    ghost var keys: seq<Key>
    /** The values given to each function, the first one for every tuple. */
    ghost var tables: map<nat, map<seq<nat>, nat>>

    ghost predicate Valid()
      reads this
    {
      AllDefined(nodes, keys, definitions, arity, uniqueNum, tables)
    }

    constructor (signature: nat -> Signature, sortOf: nat -> nat)
      ensures Valid() && tables == map[] && this.signature == signature && this.sortOf == sortOf
    {
      this.signature, this.sortOf := signature, sortOf;
      nodes, definitions, uniqueNum, keys, tables := [], map[], 0, [], map[];
    }

    /** Follows the values down the tree and makes the nodes that are missing. */
    method AddToValuationTree(args: seq<nat>, vals: seq<nat>, value: nat, root: nat)
      requires |args| == |vals| > 0 && Trees(nodes, keys) && IsRoot(keys, root)
        && Leveled(nodes, keys, root, args, Some(root))
      modifies this`nodes, this`keys
      ensures Extends(old(nodes), old(keys), nodes, keys) && Leveled(nodes, keys, root, args, None)
      ensures OthersLeveled(old(nodes), old(keys), nodes, keys, root) && Added(old(nodes), nodes, root, vals, value)
      ensures forall q, t :: IsRoot(old(keys), q) && q != root ==> SameAt(old(nodes), nodes, q, t)
    {
      ghost var created := false;
      var current: nat := root;
      hide *;
      DescentStarts(nodes, keys, root, args, vals, value);
      for i := 0 to |vals|
        invariant Descent(old(nodes), old(keys), nodes, keys, root, args, vals, value, i, current, created)
      {
        DescentAt(old(nodes), old(keys), nodes, keys, root, args, vals, value, i, current, created);
        ChildrenInside(nodes, current);
        var child := FindChild(nodes, nodes[current].children, vals[i]);
        if child.Some? {
          DescentFound(old(nodes), old(keys), nodes, keys, root, args, vals, value, i, current, created);
          current := child.value;
        } else {
          var variable := if i == |vals| - 1 then Constant(value) else Argument(args[i + 1]);
          DescentNew(old(nodes), old(keys), nodes, keys, root, args, vals, value, i, current, created, variable);
          var id := |nodes|;
          keys := WithKey(keys, current, vals[i]);
          nodes := WithChild(nodes, current, variable, vals[i]);
          created, current := true, id;
        }
      }
      DescentEnds(old(nodes), old(keys), nodes, keys, root, args, vals, value, current, created);
    }

    /** New names for the formal arguments. */
    method FormalArgs(n: nat) returns (args: seq<nat>)
      modifies this`uniqueNum
      ensures |args| == n && Distinct(args) && uniqueNum == old(uniqueNum) + n
      ensures forall a :: a in args ==> a < uniqueNum
    {
      args := [];
      for i := 0 to n
        invariant |args| == i && uniqueNum == old(uniqueNum) + i
        invariant Distinct(args) && forall a :: a in args ==> a < uniqueNum
      {
        DistinctPush(args, uniqueNum);
        args := args + [uniqueNum];
        uniqueNum := uniqueNum + 1;
      }
    }

    /** The tuple and the value have the sorts of the function. */
    ghost predicate Typed(sr: nat, vals: seq<nat>, val: nat) {
      && sortOf(val) == signature(sr).range && |vals| == |signature(sr).domain|
      && forall i :: 0 <= i < |vals| ==> sortOf(vals[i]) == signature(sr).domain[i]
    }

    /** Records the value of a function for a tuple; refuses whatever the signature does not allow. */
    method AddToTheoryFunction(sr: nat, vals: seq<nat>, val: nat) returns (ok: bool)
      requires Valid() && arity(sr) > 0
      modifies this
      ensures Valid() && ok == Typed(sr, vals, val)
      ensures tables == if !ok then old(tables)
                        else old(tables)[sr := if sr in old(tables) then First(old(tables)[sr], vals, val)
                                         else First(map[], vals, val)]
    {
      if signature(sr).range != sortOf(val) { return false; }
      if |signature(sr).domain| != |vals| { return false; }
      for i := 0 to |vals|
        invariant forall j :: 0 <= j < i ==> sortOf(vals[j]) == signature(sr).domain[j]
      {
        if signature(sr).domain[i] != sortOf(vals[i]) { return false; }
      }
      ok := true;
      if sr !in definitions {
        NewFunction(sr, vals, val);
      } else {
        OldFunction(sr, vals, val);
      }
    }

    method NewFunction(sr: nat, vals: seq<nat>, val: nat)
      requires Valid() && arity(sr) == |vals| > 0 && sr !in definitions
      modifies this
      ensures Valid() && tables == old(tables)[sr := First(map[], vals, val)] && sr !in old(tables)
    {
      hide *;
      ghost var nodes0, keys0, u0 := nodes, keys, uniqueNum;
      ValidParts();
      assert sr !in definitions.Keys;
      var args := FormalArgs(|vals|);
      var root := |nodes|;
      RootAlone(nodes, keys, args);
      KeysMatch(nodes, keys);
      keys := keys + [Key(root, [])];
      nodes := WithRoot(nodes, Argument(args[0]));
      ghost var nodes1, keys1 := nodes, keys;
      ExtendsTrees(nodes0, keys0, nodes, keys);
      AddToValuationTree(args, vals, val, root);
      AddedToNew(nodes0, keys0, nodes1, keys1, nodes, keys, definitions, arity, u0, uniqueNum, tables, sr,
                 Definition(args, root), vals, val);
      definitions := definitions[sr := Definition(args, root)];
      tables := tables[sr := First(map[], vals, val)];
      ValidAgain();
    }

    method OldFunction(sr: nat, vals: seq<nat>, val: nat)
      requires Valid() && arity(sr) == |vals| && sr in definitions
      modifies this
      ensures Valid() && sr in old(tables) && tables == old(tables)[sr := First(old(tables)[sr], vals, val)]
    {
      hide *;
      var d := definitions[sr];
      ghost var nodes0, keys0 := nodes, keys;
      ValidParts();
      DefinedParts(nodes, keys, definitions, arity, uniqueNum, tables, sr, sr);
      DefinitionReady(nodes, keys, d, arity(sr), uniqueNum, tables[sr]);
      AddToValuationTree(d.args, vals, val, d.root);
      AddedToOld(nodes0, keys0, nodes, keys, definitions, arity, uniqueNum, tables, sr, vals, val);
      tables := tables[sr := First(tables[sr], vals, val)];
      ValidAgain();
    }

    lemma ValidParts()
      requires Valid()
      ensures AllDefined(nodes, keys, definitions, arity, uniqueNum, tables)
      ensures Trees(nodes, keys) && definitions.Keys == tables.Keys
    {
    }

    lemma ValidAgain()
      requires AllDefined(nodes, keys, definitions, arity, uniqueNum, tables)
      ensures Valid()
    {
    }

    /** The body of a function: for every tuple the first value given for it, and the default for all others. */
    method FunctionBody(sr: nat, def: nat) returns (body: Body)
      requires Valid() && sr in definitions
      ensures sr in tables
      ensures forall env, t :: Binds(env, definitions[sr].args, t) ==>
                EvalBody(body, env) == if t in tables[sr] then tables[sr][t] else def
    {
      var d := definitions[sr];
      DefinitionReady(nodes, keys, d, arity(sr), uniqueNum, tables[sr]);
      body := ValuationTreeToFunctionBody(nodes, d.root, def);
      hide Leveled, Trees, Binds, EvalBody;
      forall env, t | Binds(env, d.args, t)
        ensures EvalBody(body, env) == if t in tables[sr] then tables[sr][t] else def
      {
        BodyEntry(nodes, keys, d, arity(sr), uniqueNum, tables[sr], def, env, t);
      }
    }
  }

  lemma ChildrenInside(nodes: Nodes, x: nat)
    requires x < |nodes| && ChildrenAbove(nodes, x)
    ensures forall k :: 0 <= k < |nodes[x].children| ==> nodes[x].children[k] < |nodes|
  {
  }

  lemma KeysMatch(nodes: Nodes, keys: seq<Key>)
    requires Trees(nodes, keys)
    ensures |keys| == |nodes|
  {
  }

  lemma ExtendsTrees(nodes0: Nodes, keys0: seq<Key>, nodes: Nodes, keys: seq<Key>)
    requires Extends(nodes0, keys0, nodes, keys)
    ensures Trees(nodes, keys)
  {
  }

  /** A tree that is complete can be extended from its root. */
  lemma DefinitionReady(nodes: Nodes, keys: seq<Key>, d: Definition, n: nat, u: nat, table: map<seq<nat>, nat>)
    requires DefinitionOk(nodes, keys, d, n, u, table)
    ensures Trees(nodes, keys) && Inside(nodes) && |d.args| == n > 0 && IsRoot(keys, d.root) && d.root < |nodes|
    ensures Leveled(nodes, keys, d.root, d.args, Some(d.root))
  {
    forall x | 0 <= x < |nodes| && keys[x].root == d.root
      ensures LevelOk(nodes[x], keys[x].path, d.args, Some(d.root) == Some(x))
    {
      assert LevelOk(nodes[x], keys[x].path, d.args, false);
    }
  }

  lemma BodyEntry(nodes: Nodes, keys: seq<Key>, d: Definition, n: nat, u: nat, table: map<seq<nat>, nat>, def: nat,
                  env: nat -> nat, t: seq<nat>)
    requires DefinitionOk(nodes, keys, d, n, u, table) && Binds(env, d.args, t) && Inside(nodes) && d.root < |nodes|
    ensures EvalBody(BodyOf(nodes, d.root, def), env) == if t in table then table[t] else def
  {
    BodyAgrees(nodes, keys, d.root, d.args, def, env, t);
    assert t[0..] == t;
    assert EntryAt(nodes, d.root, table, t);
  }
}
