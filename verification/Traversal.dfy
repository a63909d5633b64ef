/**
 The white-gray-black depth-first traversal over an explicit stack that the ite code uses three
 times. A node may be on the stack more than once; every node is finished after its children.
 */
module Traversal {

  /** The state: the stack, the nodes that are not white any more, and the black ones. */
  datatype Dfs<T> = Dfs(stack: seq<T>, visited: set<T>, black: set<T>)

  /** Children are smaller than their parent. */
  ghost predicate Shrinks<T(!new)>(kids: T -> seq<T>, size: T -> nat) {
    forall t, c :: c in kids(t) ==> size(c) < size(t)
  }

  /** The position at which a gray node waits: everything above it is smaller and hangs below it. */
  ghost predicate WaitsAt<T>(s: Dfs<T>, kids: T -> seq<T>, size: T -> nat, g: T, k: int) {
    && 0 <= k < |s.stack| && s.stack[k] == g
    && (forall l :: k < l < |s.stack| ==> size(s.stack[l]) < size(g))
    && (forall c :: c in kids(g) ==> c in s.visited || exists l :: k < l < |s.stack| && s.stack[l] == c)
  }

  ghost predicate Waits<T>(s: Dfs<T>, kids: T -> seq<T>, size: T -> nat, g: T) {
    exists k :: WaitsAt(s, kids, size, g, k)
  }

  ghost predicate Inv<T(!new)>(s: Dfs<T>, kids: T -> seq<T>, size: T -> nat, root: T, universe: set<T>) {
    && Shrinks(kids, size) && s.black <= s.visited <= universe
    && (forall t :: t in s.stack ==> t in universe)
    && (forall t, c :: t in universe && c in kids(t) ==> c in universe)
    && (root in s.black || (s.stack != [] && s.stack[0] == root))
    && (forall t, c :: t in s.black && c in kids(t) ==> c in s.black)
    && (forall g :: g in s.visited && g !in s.black ==> Waits(s, kids, size, g))
  }

  lemma Starts<T(!new)>(kids: T -> seq<T>, size: T -> nat, root: T, universe: set<T>)
    requires Shrinks(kids, size) && root in universe && forall t, c :: t in universe && c in kids(t) ==> c in universe
    ensures Inv(Dfs([root], {}, {}), kids, size, root, universe)
  {
  }

  /** Dropping a black top keeps everything waiting. */
  lemma DropWaits<T>(s: Dfs<T>, kids: T -> seq<T>, size: T -> nat, g: T)
    requires s.stack != [] && Waits(s, kids, size, g) && s.stack[|s.stack| - 1] != g
      && s.stack[|s.stack| - 1] in s.visited
    ensures Waits(s.(stack := s.stack[..|s.stack| - 1]), kids, size, g)
  {
    var r := s.(stack := s.stack[..|s.stack| - 1]);
    var k :| WaitsAt(s, kids, size, g, k);
    forall c | c in kids(g) && c !in s.visited ensures exists l :: k < l < |r.stack| && r.stack[l] == c {
      var l :| k < l < |s.stack| && s.stack[l] == c;
      assert r.stack[l] == c;
    }
    assert WaitsAt(r, kids, size, g, k);
  }

  lemma PopBlack<T(!new)>(s: Dfs<T>, kids: T -> seq<T>, size: T -> nat, root: T, universe: set<T>)
    requires Inv(s, kids, size, root, universe) && s.stack != [] && s.stack[|s.stack| - 1] in s.black
    ensures Inv(s.(stack := s.stack[..|s.stack| - 1]), kids, size, root, universe)
  {
    var r := s.(stack := s.stack[..|s.stack| - 1]);
    forall g | g in r.visited && g !in r.black ensures Waits(r, kids, size, g) {
      DropWaits(s, kids, size, g);
    }
  }

  /** A gray top waits at the top: its children have been visited. */
  lemma TopWaits<T(!new)>(s: Dfs<T>, kids: T -> seq<T>, size: T -> nat, root: T, universe: set<T>)
    requires Inv(s, kids, size, root, universe) && s.stack != []
    requires var t := s.stack[|s.stack| - 1]; t in s.visited && t !in s.black
    ensures forall c :: c in kids(s.stack[|s.stack| - 1]) ==> c in s.visited
  {
    var n := |s.stack| - 1;
    var k :| WaitsAt(s, kids, size, s.stack[n], k);
  }

  /** The top is visited and its white children are pushed; they are only for a white top. */
  lemma Push<T(!new)>(s: Dfs<T>, kids: T -> seq<T>, size: T -> nat, root: T, universe: set<T>, ps: seq<T>)
    requires Inv(s, kids, size, root, universe) && s.stack != [] && ps != []
    requires s.stack[|s.stack| - 1] !in s.black
    requires var t := s.stack[|s.stack| - 1]; forall c :: c in ps <==> c in kids(t) && c !in s.visited + {t}
    ensures s.stack[|s.stack| - 1] !in s.visited && s.stack[|s.stack| - 1] in universe
    ensures Inv(Dfs(s.stack + ps, s.visited + {s.stack[|s.stack| - 1]}, s.black), kids, size, root, universe)
  {
    var t := s.stack[|s.stack| - 1];
    assert t in s.stack && ps[0] in ps;
    if t in s.visited { TopWaits(s, kids, size, root, universe); }
    var r := Dfs(s.stack + ps, s.visited + {t}, s.black);
    forall g | g in r.visited && g !in r.black ensures Waits(r, kids, size, g) {
      PushWaits(s, kids, size, g, ps);
    }
  }

  lemma PushWaits<T>(s: Dfs<T>, kids: T -> seq<T>, size: T -> nat, g: T, ps: seq<T>)
    requires s.stack != []
    requires var t := s.stack[|s.stack| - 1];
             && (g == t || Waits(s, kids, size, g))
             && (forall c :: c in ps ==> size(c) < size(t))
             && (forall c :: c in kids(t) ==> c in ps || c in s.visited + {t})
    ensures Waits(Dfs(s.stack + ps, s.visited + {s.stack[|s.stack| - 1]}, s.black), kids, size, g)
  {
    var n := |s.stack| - 1;
    var t := s.stack[n];
    var r := Dfs(s.stack + ps, s.visited + {t}, s.black);
    forall l | n < l < |r.stack| ensures r.stack[l] in ps { assert r.stack[l] == ps[l - n - 1]; }
    if g == t {
      forall c | c in kids(t) && c !in r.visited ensures exists l :: n < l < |r.stack| && r.stack[l] == c {
        var i :| 0 <= i < |ps| && ps[i] == c;
        assert r.stack[n + 1 + i] == c;
      }
      assert WaitsAt(r, kids, size, g, n);
    } else {
      var k :| WaitsAt(s, kids, size, g, k);
      forall c | c in kids(g) && c !in s.visited ensures exists l :: k < l < |r.stack| && r.stack[l] == c {
        var l :| k < l < |s.stack| && s.stack[l] == c;
        assert r.stack[l] == c;
      }
      assert WaitsAt(r, kids, size, g, k);
    }
  }

  /** Without white children the top is finished: all its children are black. */
  lemma Finish<T(!new)>(s: Dfs<T>, kids: T -> seq<T>, size: T -> nat, root: T, universe: set<T>)
    requires Inv(s, kids, size, root, universe) && s.stack != [] && s.stack[|s.stack| - 1] !in s.black
    requires var t := s.stack[|s.stack| - 1]; forall c :: c in kids(t) ==> c in s.visited + {t}
    ensures var t := s.stack[|s.stack| - 1];
            && t in universe && (forall c :: c in kids(t) ==> c in s.black)
            && Inv(Dfs(s.stack[..|s.stack| - 1], s.visited + {t}, s.black + {t}), kids, size, root, universe)
  {
    var n := |s.stack| - 1;
    var t := s.stack[n];
    assert t in s.stack;
    forall c | c in kids(t) ensures c in s.black {
      assert size(c) < size(t);
      if c !in s.black {
        var k :| WaitsAt(s, kids, size, c, k);
      }
    }
    var m := s.(visited := s.visited + {t});
    var r := Dfs(s.stack[..n], s.visited + {t}, s.black + {t});
    forall g | g in r.visited && g !in r.black ensures Waits(r, kids, size, g) {
      var k :| WaitsAt(s, kids, size, g, k);
      assert WaitsAt(m, kids, size, g, k);
      DropWaits(m, kids, size, g);
      var k' :| WaitsAt(m.(stack := r.stack), kids, size, g, k');
      assert WaitsAt(r, kids, size, g, k');
    }
  }

  /** At the end the root is black, and with it everything below. */
  lemma Done<T(!new)>(s: Dfs<T>, kids: T -> seq<T>, size: T -> nat, root: T, universe: set<T>)
    requires Inv(s, kids, size, root, universe) && s.stack == []
    ensures root in s.black && s.black <= universe && forall t, c :: t in s.black && c in kids(t) ==> c in s.black
  {
  }

  /** The remaining work: nodes to finish, nodes to visit, the stack. */
  lemma Progress<T>(s: Dfs<T>, t: T, universe: set<T>)
    requires t in universe
    ensures t !in s.black ==> universe - (s.black + {t}) < universe - s.black
    ensures t !in s.visited ==> universe - (s.visited + {t}) < universe - s.visited
  {
    assert t !in s.black ==> t in universe - s.black && t !in universe - (s.black + {t});
    assert t !in s.visited ==> t in universe - s.visited && t !in universe - (s.visited + {t});
  }
}
