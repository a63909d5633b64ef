/**
 The term visitor: a depth-first traversal of a term over an explicit stack of entries that
 remember the next child, with marks for the terms that are finished.
 */
module TreeOps {
  import opened Terms
  import opened Facts

  /** A term on the visitor's stack with the number of children it has been asked for. */
  datatype DFSEntry = DFSEntry(term: Term, nextChild: nat)

  // ---------- progress ----------

  function Remaining(stack: seq<DFSEntry>): nat {
    if stack == [] then 0
    else
      var e := stack[|stack| - 1];
      Remaining(stack[..|stack| - 1]) + 1
      + if e.nextChild <= |Args(e.term)| then ArgsLeft(e.term, e.nextChild) else 0
  }

  function ArgsLeft(t: Term, n: nat): nat
    requires n <= |Args(t)|
    decreases |Args(t)| - n
  {
    if n == |Args(t)| then 0 else 2 * Size(Args(t)[n]) + ArgsLeft(t, n + 1)
  }

  lemma {:induction false} ArgsLeftSum(t: Term, n: nat)
    requires n <= |Args(t)|
    ensures ArgsLeft(t, n) == 2 * (SizeOfArgs(t, |Args(t)|) - SizeOfArgs(t, n))
    decreases |Args(t)| - n
  {
    if n < |Args(t)| { ArgsLeftSum(t, n + 1); }
  }

  lemma RemainingTop(rest: seq<DFSEntry>, e: DFSEntry)
    requires e.nextChild <= |Args(e.term)|
    ensures Remaining(rest + [e]) == Remaining(rest) + 1 + ArgsLeft(e.term, e.nextChild)
  {
    assert (rest + [e])[..|rest|] == rest;
  }

  /** Asking for the next child makes progress even if the child is pushed. */
  lemma RemainingNext(rest: seq<DFSEntry>, e: DFSEntry)
    requires e.nextChild < |Args(e.term)|
    ensures var next := rest + [e.(nextChild := e.nextChild + 1)];
            && Remaining(next) < Remaining(rest + [e])
            && Remaining(next + [DFSEntry(Args(e.term)[e.nextChild], 0)]) < Remaining(rest + [e])
  {
    var next, child := rest + [e.(nextChild := e.nextChild + 1)], Args(e.term)[e.nextChild];
    RemainingTop(rest, e);
    RemainingTop(rest, e.(nextChild := e.nextChild + 1));
    RemainingTop(next, DFSEntry(child, 0));
    ArgsLeftSum(child, 0);
  }

  /** The stack after moving to the next child, which is pushed unless it is marked. */
  function NextStack(stack: seq<DFSEntry>, marks: set<Term>): seq<DFSEntry>
    requires stack != [] && stack[|stack| - 1].nextChild < |Args(stack[|stack| - 1].term)|
  {
    var n := |stack| - 1;
    var e := stack[n];
    var child := Args(e.term)[e.nextChild];
    stack[..n] + [e.(nextChild := e.nextChild + 1)] + if child in marks then [] else [DFSEntry(child, 0)]
  }

  lemma NextShape(stack: seq<DFSEntry>, marks: set<Term>)
    requires stack != [] && stack[|stack| - 1].nextChild < |Args(stack[|stack| - 1].term)|
    ensures var n, after := |stack| - 1, NextStack(stack, marks);
            var e := stack[n];
            && |after| == (if Args(e.term)[e.nextChild] in marks then n + 1 else n + 2)
            && (forall k :: 0 <= k < n ==> after[k] == stack[k])
            && after[n] == e.(nextChild := e.nextChild + 1)
            && (|after| == n + 2 ==> after[n + 1] == DFSEntry(Args(e.term)[e.nextChild], 0))
  {
  }

  lemma NextProgress(stack: seq<DFSEntry>, marks: set<Term>)
    requires stack != [] && stack[|stack| - 1].nextChild < |Args(stack[|stack| - 1].term)|
    ensures Remaining(NextStack(stack, marks)) < Remaining(stack)
  {
    var n := |stack| - 1;
    assert stack == stack[..n] + [stack[n]];
    RemainingNext(stack[..n], stack[n]);
    var next := stack[..n] + [stack[n].(nextChild := stack[n].nextChild + 1)];
    assert next + [] == next;
  }

  lemma PopProgress(stack: seq<DFSEntry>)
    requires stack != []
    ensures Remaining(stack[..|stack| - 1]) < Remaining(stack)
  {
  }

  // ---------- the traversal ----------

  /** The children before the next one are marked, except the one just above on the stack. */
  ghost predicate ChildrenDone(stack: seq<DFSEntry>, marks: set<Term>, k: nat)
    requires k < |stack|
  {
    forall j :: 0 <= j < stack[k].nextChild && j < |Args(stack[k].term)| ==>
      Args(stack[k].term)[j] in marks || (k + 1 < |stack| && stack[k + 1].term == Args(stack[k].term)[j])
  }

  /** An unfinished term; only terms that are opened are asked for children. */
  ghost predicate OnStack(e: DFSEntry, marks: set<Term>, opens: Term -> bool) {
    e.term !in marks && e.nextChild <= |Args(e.term)| && (e.nextChild > 0 ==> opens(e.term))
  }

  ghost predicate Shrinking(stack: seq<DFSEntry>) {
    forall k, l :: 0 <= k < l < |stack| ==> Size(stack[l].term) < Size(stack[k].term) && stack[k].nextChild > 0
  }

  /** What the traversal keeps. */
  ghost predicate Walking(root: Term, stack: seq<DFSEntry>, marks: set<Term>, opens: Term -> bool) {
    && (root in marks || (stack != [] && stack[0].term == root))
    && (forall k: nat :: k < |stack| ==> OnStack(stack[k], marks, opens) && ChildrenDone(stack, marks, k))
    && Shrinking(stack)
  }

  lemma WalkStarts(root: Term, opens: Term -> bool)
    ensures Walking(root, [DFSEntry(root, 0)], {}, opens)
  {
  }

  lemma WalkTop(root: Term, stack: seq<DFSEntry>, marks: set<Term>, opens: Term -> bool)
    requires Walking(root, stack, marks, opens) && stack != []
    ensures var e := stack[|stack| - 1]; e.nextChild <= |Args(e.term)| && e.term !in marks
  {
    assert OnStack(stack[|stack| - 1], marks, opens);
  }

  lemma PopDone(stack: seq<DFSEntry>, marks: set<Term>, k: nat)
    requires k + 1 < |stack| && ChildrenDone(stack, marks, k)
    ensures var n := |stack| - 1; ChildrenDone(stack[..n], marks + {stack[n].term}, k)
  {
    hide Size, Args;
    var n := |stack| - 1;
    assert stack[..n][k] == stack[k] && (k + 1 < n ==> stack[..n][k + 1] == stack[k + 1]);
  }

  /** The top is marked and popped. */
  lemma WalkPop(root: Term, stack: seq<DFSEntry>, marks: set<Term>, opens: Term -> bool)
    requires Walking(root, stack, marks, opens) && stack != []
    ensures var t := stack[|stack| - 1].term; Walking(root, stack[..|stack| - 1], marks + {t}, opens)
  {
    hide Size;
    var n := |stack| - 1;
    var t, rest := stack[n].term, stack[..n];
    forall k: nat | k < |rest| ensures OnStack(rest[k], marks + {t}, opens) && ChildrenDone(rest, marks + {t}, k) {
      assert OnStack(stack[k], marks, opens) && ChildrenDone(stack, marks, k);
      assert Size(stack[n].term) < Size(stack[k].term);
      PopDone(stack, marks, k);
    }
  }

  /** When the top has been asked for all children they are marked. */
  lemma WalkArgs(root: Term, stack: seq<DFSEntry>, marks: set<Term>, opens: Term -> bool)
    requires Walking(root, stack, marks, opens) && stack != []
    requires stack[|stack| - 1].nextChild == |Args(stack[|stack| - 1].term)|
    ensures forall c :: c in Args(stack[|stack| - 1].term) ==> c in marks
  {
    assert ChildrenDone(stack, marks, |stack| - 1);
  }

  lemma NextSizes(stack: seq<DFSEntry>, marks: set<Term>)
    requires Shrinking(stack) && stack != []
    requires stack[|stack| - 1].nextChild < |Args(stack[|stack| - 1].term)|
    ensures Shrinking(NextStack(stack, marks))
  {
    var n := |stack| - 1;
    NextShape(stack, marks);
    ArgSmaller(stack[n].term, |Args(stack[n].term)|, stack[n].nextChild);
    assert Size(Args(stack[n].term)[stack[n].nextChild]) < Size(stack[n].term);
    hide Size, NextStack;
  }

  lemma NextDone(stack: seq<DFSEntry>, marks: set<Term>, opens: Term -> bool, k: nat)
    requires stack != [] && stack[|stack| - 1].nextChild < |Args(stack[|stack| - 1].term)|
    requires opens(stack[|stack| - 1].term) && k < |NextStack(stack, marks)|
    requires k < |stack| ==> OnStack(stack[k], marks, opens) && ChildrenDone(stack, marks, k)
    ensures OnStack(NextStack(stack, marks)[k], marks, opens) && ChildrenDone(NextStack(stack, marks), marks, k)
  {
    NextShape(stack, marks);
    hide NextStack, Args;
  }

  /** The top is asked for its next child. */
  lemma WalkNext(root: Term, stack: seq<DFSEntry>, marks: set<Term>, opens: Term -> bool)
    requires Walking(root, stack, marks, opens) && stack != []
    requires var e := stack[|stack| - 1]; opens(e.term) && e.nextChild < |Args(e.term)|
    ensures Walking(root, NextStack(stack, marks), marks, opens)
  {
    hide Size, OnStack, ChildrenDone, Shrinking, Args;
    forall k: nat | k < |NextStack(stack, marks)|
      ensures OnStack(NextStack(stack, marks)[k], marks, opens) && ChildrenDone(NextStack(stack, marks), marks, k)
    {
      NextDone(stack, marks, opens, k);
    }
    NextSizes(stack, marks);
    NextShape(stack, marks);
  }

  lemma WalkEnds(root: Term, marks: set<Term>, opens: Term -> bool)
    requires Walking(root, [], marks, opens)
    ensures root in marks
  {
  }

  // ---------- top-level conjuncts ----------

  /** The terms below the conjunctions at the top of a formula. */
  function TopConjuncts(t: Term): (r: set<Term>)
    ensures r <= Subterms(t)
  {
    if t.And? then
      var r := set i, c | 0 <= i < |t.args| && c in TopConjuncts(t.args[i]) :: c;
      assert forall i, c :: 0 <= i < |t.args| && c in TopConjuncts(t.args[i]) ==> c in Subterms(Args(t)[i]);
      r
    else {t}
  }

  lemma {:induction false} TopConjunctsBool(t: Term, c: Term)
    requires WellFormed(t) && IsBool(t) && c in TopConjuncts(t)
    ensures WellFormed(c) && IsBool(c) && !c.And? && TopConjuncts(c) == {c}
  {
    if t.And? {
      var i :| 0 <= i < |t.args| && c in TopConjuncts(t.args[i]);
      assert Args(t)[i] == t.args[i];
      TopConjunctsBool(t.args[i], c);
    }
  }

  /** The conjuncts below the marked terms have been collected, each once, and no others. */
  ghost predicate Collecting(fla: Term, stack: seq<DFSEntry>, marks: set<Term>, res: seq<Term>) {
    && (forall e :: e in stack ==> TopConjuncts(e.term) <= TopConjuncts(fla))
    && (forall t, c :: t in marks && c in TopConjuncts(t) ==> c in res)
    && (forall c :: c in res ==> c in marks && c in TopConjuncts(fla))
    && (forall i, j :: 0 <= i < j < |res| ==> res[i] != res[j])
  }

  lemma CollectLeaf(fla: Term, stack: seq<DFSEntry>, marks: set<Term>, res: seq<Term>)
    requires Collecting(fla, stack, marks, res) && stack != []
    requires var t := stack[|stack| - 1].term; !t.And? && t !in marks
    ensures var t := stack[|stack| - 1].term; Collecting(fla, stack[..|stack| - 1], marks + {t}, res + [t])
  {
    var t := stack[|stack| - 1].term;
    assert stack[|stack| - 1] in stack && TopConjuncts(t) == {t};
    hide TopConjuncts;
  }

  lemma CollectInner(fla: Term, stack: seq<DFSEntry>, marks: set<Term>, res: seq<Term>)
    requires Collecting(fla, stack, marks, res) && stack != []
    requires var t := stack[|stack| - 1].term; t.And? && forall c :: c in Args(t) ==> c in marks
    ensures Collecting(fla, stack[..|stack| - 1], marks + {stack[|stack| - 1].term}, res)
  {
    var t := stack[|stack| - 1].term;
    forall c | c in TopConjuncts(t) ensures c in res {
      var i :| 0 <= i < |t.args| && c in TopConjuncts(t.args[i]);
      assert Args(t)[i] in marks;
    }
    hide TopConjuncts;
  }

  lemma CollectNext(fla: Term, stack: seq<DFSEntry>, marks: set<Term>, res: seq<Term>)
    requires Collecting(fla, stack, marks, res) && stack != []
    requires var e := stack[|stack| - 1]; e.term.And? && e.nextChild < |Args(e.term)|
    ensures Collecting(fla, NextStack(stack, marks), marks, res)
  {
    var e := stack[|stack| - 1];
    assert e in stack;
    assert TopConjuncts(Args(e.term)[e.nextChild]) <= TopConjuncts(e.term);
    hide TopConjuncts;
  }

  /** The visitor collects the terms below the conjunctions at the top, each once. */
  method TopLevelConjuncts(fla: Term) returns (res: seq<Term>)
    ensures forall c :: c in res <==> c in TopConjuncts(fla)
    ensures forall i, j :: 0 <= i < j < |res| ==> res[i] != res[j]
  {
    if fla.Var? { return [fla]; }
    res := [];
    var marks: set<Term> := {};
    var stack := [DFSEntry(fla, 0)];
    ghost var opens := (t: Term) => t.And?;
    WalkStarts(fla, opens);
    assert Collecting(fla, stack, marks, res);
    hide Walking, Collecting, Remaining, TopConjuncts, Args, NextStack;
    while |stack| != 0
      invariant Walking(fla, stack, marks, opens) && Collecting(fla, stack, marks, res)
      decreases Remaining(stack)
    {
      var e, rest := stack[|stack| - 1], stack[..|stack| - 1];
      WalkTop(fla, stack, marks, opens);
      PopProgress(stack);
      if !e.term.And? {
        WalkPop(fla, stack, marks, opens);
        CollectLeaf(fla, stack, marks, res);
        res := res + [e.term];
        stack, marks := rest, marks + {e.term};
      } else if e.nextChild < |Args(e.term)| {
        WalkNext(fla, stack, marks, opens);
        CollectNext(fla, stack, marks, res);
        NextProgress(stack, marks);
        stack := NextStack(stack, marks);
      } else {
        WalkArgs(fla, stack, marks, opens);
        WalkPop(fla, stack, marks, opens);
        CollectInner(fla, stack, marks, res);
        stack, marks := rest, marks + {e.term};
      }
    }
    WalkEnds(fla, marks, opens);
    CollectEnds(fla, marks, res);
  }

  lemma CollectEnds(fla: Term, marks: set<Term>, res: seq<Term>)
    requires Collecting(fla, [], marks, res) && fla in marks
    ensures forall c :: c in res <==> c in TopConjuncts(fla)
    ensures forall i, j :: 0 <= i < j < |res| ==> res[i] != res[j]
  {
  }
}
