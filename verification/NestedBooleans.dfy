/**
 The Boolean terms below uninterpreted symbols, which have to be converted on their own.
 */
module NestedBooleans {
  import opened Terms
  import opened Facts

  // ---------- Boolean terms below uninterpreted symbols ----------

  predicate BooleanOperator(t: Term) {
    t.And? || t.Or? || t.Not? || t.Xor? || (t.Eq? && IsBool(t.lhs)) || (t.Ite? && IsBool(t))
  }

  /** A Boolean argument of a term that is no Boolean operator. */
  ghost predicate NestedRoot(root: Term, r: Term) {
    exists t, i :: Nested(root, r, t, i)
  }

  ghost predicate Nested(root: Term, r: Term, t: Term, i: int) {
    t in Subterms(root) && !BooleanOperator(t) && 0 <= i < |Args(t)| && IsBool(Args(t)[i]) && r == Args(t)[i]
  }

  /** What the search for nested roots keeps. */
  ghost predicate Gathering(root: Term, queue: seq<Term>, processed: set<Term>, nested: seq<Term>) {
    && (root in processed || root in queue)
    && (forall q :: q in queue || q in processed ==> q in Subterms(root))
    && (forall t :: t in processed ==> ArgsGathered(t, queue, processed, nested))
    && (forall r :: r in nested ==> NestedRoot(root, r))
  }

  ghost predicate ArgsGathered(t: Term, queue: seq<Term>, processed: set<Term>, nested: seq<Term>) {
    forall i :: 0 <= i < |Args(t)| ==>
      && (Args(t)[i] in queue || Args(t)[i] in processed)
      && (!BooleanOperator(t) && IsBool(Args(t)[i]) ==> Args(t)[i] in nested)
  }

  lemma {:induction false} AllProcessed(t: Term, processed: set<Term>, nested: seq<Term>, u: Term)
    requires t in processed && u in Subterms(t)
    requires forall x :: x in processed ==> ArgsGathered(x, [], processed, nested)
    ensures u in processed
  {
    if u != t {
      var i :| 0 <= i < |Args(t)| && u in Subterms(Args(t)[i]);
      assert ArgsGathered(t, [], processed, nested);
      AllProcessed(Args(t)[i], processed, nested, u);
    }
  }

  lemma GatherStep(root: Term, queue: seq<Term>, processed: set<Term>, nested: seq<Term>, more: seq<Term>,
                   found: seq<Term>)
    requires Gathering(root, queue, processed, nested) && queue != []
    requires var tr := queue[|queue| - 1];
             && more == queue[..|queue| - 1] + Args(tr)
             && (forall r :: r in found <==> r in nested || (!BooleanOperator(tr) && r in Args(tr) && IsBool(r)))
    ensures Gathering(root, more, processed + {queue[|queue| - 1]}, found)
    ensures queue[|queue| - 1] in Subterms(root)
  {
    var tr := queue[|queue| - 1];
    assert tr in queue;
    SubtermsNested(root, tr);
    ArgsAreSubterms(tr);
    forall r | r in found ensures NestedRoot(root, r) {
      if r !in nested {
        var i :| 0 <= i < |Args(tr)| && Args(tr)[i] == r;
        assert Nested(root, r, tr, i);
      }
    }
    hide Subterms, BooleanOperator, IsBool, NestedRoot;
    assert forall q :: q in queue ==> q in more || q == tr;
    forall t | t in processed + {tr} ensures ArgsGathered(t, more, processed + {tr}, found) {
      if t in processed { assert ArgsGathered(t, queue, processed, nested); }
    }
  }

  lemma ArgsAreSubterms(t: Term)
    ensures forall q :: q in Args(t) ==> q in Subterms(t)
  {
    forall q | q in Args(t) ensures q in Subterms(t) {
      var i :| 0 <= i < |Args(t)| && Args(t)[i] == q;
      assert q in Subterms(Args(t)[i]);
    }
  }

  lemma GatherPop(root: Term, queue: seq<Term>, processed: set<Term>, nested: seq<Term>)
    requires Gathering(root, queue, processed, nested) && queue != [] && queue[|queue| - 1] in processed
    ensures Gathering(root, queue[..|queue| - 1], processed, nested)
  {
    hide Subterms, BooleanOperator, IsBool, NestedRoot;
    var rest := queue[..|queue| - 1];
    assert forall q :: q in queue ==> q in rest || q == queue[|queue| - 1];
    forall t | t in processed ensures ArgsGathered(t, rest, processed, nested) {
      assert ArgsGathered(t, queue, processed, nested);
    }
  }

  lemma GatherDone(root: Term, processed: set<Term>, nested: seq<Term>)
    requires Gathering(root, [], processed, nested)
    ensures forall r :: r in nested <==> NestedRoot(root, r)
  {
    forall r | NestedRoot(root, r) ensures r in nested {
      var t, i :| Nested(root, r, t, i);
      AllProcessed(root, processed, nested, t);
      assert ArgsGathered(t, [], processed, nested);
    }
  }

  /** The Boolean arguments of all subterms that are no Boolean operators. */
  method GetNestedBoolRoots(root: Term) returns (nested: seq<Term>)
    ensures forall r :: r in nested <==> NestedRoot(root, r)
  {
    nested := [];
    var processed: set<Term> := {};
    var queue := [root];
    GatherStarts(root);
    hide Gathering, NestedRoot, Subterms, BooleanOperator, IsBool, Args;
    while |queue| != 0
      invariant Gathering(root, queue, processed, nested)
      decreases Subterms(root) - processed, |queue|
    {
      var tr, rest := queue[|queue| - 1], queue[..|queue| - 1];
      if tr in processed {
        GatherPop(root, queue, processed, nested);
        queue := rest;
        continue;
      }
      ghost var before := nested;
      var more := rest;
      for i := 0 to |Args(tr)|
        invariant more == rest + Args(tr)[..i]
        invariant forall r :: r in nested <==> r in before || (!BooleanOperator(tr) && r in Args(tr)[..i] && IsBool(r))
      {
        var c := Args(tr)[i];
        assert Args(tr)[..i + 1] == Args(tr)[..i] + [c];
        more := more + [c];
        if !BooleanOperator(tr) && IsBool(c) { nested := nested + [c]; }
      }
      assert Args(tr)[..|Args(tr)|] == Args(tr);
      GatherStep(root, queue, processed, before, more, nested);
      queue := more;
      processed := processed + {tr};
    }
    GatherDone(root, processed, nested);
  }

  lemma GatherStarts(root: Term)
    ensures Gathering(root, [root], {}, [])
  {
    SubtermSelf(root);
  }

  lemma NestedRootBool(root: Term, r: Term)
    requires WellFormed(root) && NestedRoot(root, r)
    ensures WellFormed(r) && IsBool(r)
  {
    var t, i :| Nested(root, r, t, i);
    SubtermsNested(root, t);
  }

  lemma SubtermSelf(t: Term)
    ensures t in Subterms(t)
  {
  }
}
