/**
 Facts of a formula: the literals of its top-level conjunction, found by a worklist, and the
 substitutions read off them.
 */
module Facts {
  import opened Sequences
  import opened Terms
  import Substitution
  import LoopBreaker

  // ---------- subterms ----------

  function Subterms(t: Term): set<Term> {
    {t} + set i, x | 0 <= i < |Args(t)| && x in Subterms(Args(t)[i]) :: x
  }

  lemma {:induction false} SubtermsNested(t: Term, u: Term)
    requires u in Subterms(t)
    ensures Subterms(u) <= Subterms(t) && Vars(u) <= Vars(t)
    ensures WellFormed(t) ==> WellFormed(u)
  {
    if u != t {
      var i :| 0 <= i < |Args(t)| && u in Subterms(Args(t)[i]);
      SubtermsNested(Args(t)[i], u);
      VarsArgSubset(t, i);
      assert Subterms(Args(t)[i]) <= Subterms(t);
    }
  }

  /** A variable occurs in a term exactly when it is one of its subterms. */
  lemma {:induction false} VarIsSubterm(t: Term, x: Term)
    requires x.Var?
    ensures x in Vars(t) <==> x in Subterms(t)
  {
    if !t.Var? {
      forall i | 0 <= i < |Args(t)| ensures x in Vars(Args(t)[i]) <==> x in Subterms(Args(t)[i]) {
        VarIsSubterm(Args(t)[i], x);
      }
    }
  }

  function Size(t: Term): nat {
    1 + SizeOfArgs(t, |Args(t)|)
  }

  function SizeOfArgs(t: Term, n: nat): nat
    requires n <= |Args(t)|
    decreases t, n
  {
    if n == 0 then 0 else SizeOfArgs(t, n - 1) + Size(Args(t)[n - 1])
  }

  lemma {:induction false} ArgSmaller(t: Term, n: nat, i: nat)
    requires i < n <= |Args(t)|
    ensures Size(Args(t)[i]) <= SizeOfArgs(t, n)
    decreases n
  {
    if i < n - 1 { ArgSmaller(t, n - 1, i); }
  }

  // ---------- occurrence ----------

  /** The processed terms have only processed arguments. */
  ghost predicate Searched(proc: set<Term>) {
    forall t :: t in proc ==> forall i :: 0 <= i < |Args(t)| ==> Args(t)[i] in proc
  }

  lemma {:induction false} SearchedSubterms(proc: set<Term>, t: Term)
    requires Searched(proc) && t in proc
    ensures Subterms(t) <= proc
  {
    forall i | 0 <= i < |Args(t)| ensures Subterms(Args(t)[i]) <= proc {
      SearchedSubterms(proc, Args(t)[i]);
    }
  }

  /** Pushes the arguments that have not been processed. */
  method PushArgs(t: Term, proc: set<Term>, queue0: seq<Term>) returns (queue: seq<Term>)
    ensures queue0 <= queue
    ensures forall q :: q in queue ==> q in queue0 || (q in Args(t) && q !in proc)
    ensures queue == queue0 ==> forall i :: 0 <= i < |Args(t)| ==> Args(t)[i] in proc
    ensures queue != queue0 ==> |queue| > |queue0| && queue[|queue| - 1] in Args(t) && queue[|queue| - 1] !in proc
  {
    queue := queue0;
    for i := 0 to |Args(t)|
      invariant queue0 <= queue
      invariant forall q :: q in queue ==> q in queue0 || (q in Args(t) && q !in proc)
      invariant queue == queue0 ==> forall j :: 0 <= j < i ==> Args(t)[j] in proc
      invariant queue != queue0 ==> |queue| > |queue0| && queue[|queue| - 1] in Args(t) && queue[|queue| - 1] !in proc
    {
      if Args(t)[i] !in proc { queue := queue + [Args(t)[i]]; }
    }
  }

  /** The progress the search makes between two terms that it finishes. */
  ghost function SearchRank(queue: seq<Term>, proc: set<Term>): nat {
    if queue == [] then 0
    else if queue[|queue| - 1] in proc then |queue|
    else Size(queue[|queue| - 1])
  }

  ghost predicate TopOpen(queue: seq<Term>, proc: set<Term>) {
    queue != [] && queue[|queue| - 1] !in proc
  }

  lemma PushRank(queue: seq<Term>, more: seq<Term>, proc: set<Term>)
    requires TopOpen(queue, proc) && TopOpen(more, proc)
    requires more[|more| - 1] in Args(queue[|queue| - 1])
    ensures SearchRank(more, proc) < SearchRank(queue, proc)
  {
    var tr, top := queue[|queue| - 1], more[|more| - 1];
    var i :| 0 <= i < |Args(tr)| && Args(tr)[i] == top;
    ArgSmaller(tr, |Args(tr)|, i);
  }

  lemma PopRank(queue: seq<Term>, proc: set<Term>)
    requires queue != [] && queue[|queue| - 1] in proc
    ensures var rest := queue[..|queue| - 1];
            TopOpen(rest, proc) || SearchRank(rest, proc) < SearchRank(queue, proc)
  {
  }

  /** What the search keeps: its stack starts at the term and holds subterms only. */
  ghost predicate Searching(term: Term, queue: seq<Term>, proc: set<Term>) {
    && (term in proc || (queue != [] && queue[0] == term))
    && Searched(proc) && proc <= Subterms(term)
    && (forall q :: q in queue ==> q in Subterms(term))
  }

  lemma PushKeeps(term: Term, queue: seq<Term>, more: seq<Term>, proc: set<Term>)
    requires Searching(term, queue, proc) && queue != [] && queue <= more
    requires forall q :: q in more ==> q in queue || q in Args(queue[|queue| - 1])
    ensures Searching(term, more, proc)
  {
    var tr := queue[|queue| - 1];
    assert tr in queue;
    SubtermsNested(term, tr);
    forall q | q in Args(tr) ensures q in Subterms(tr) {
      var i :| 0 <= i < |Args(tr)| && Args(tr)[i] == q;
      assert q in Subterms(Args(tr)[i]);
    }
  }

  lemma FinishKeeps(term: Term, queue: seq<Term>, proc: set<Term>)
    requires Searching(term, queue, proc) && queue != []
    ensures queue[|queue| - 1] in proc ==> Searching(term, queue[..|queue| - 1], proc)
    ensures var tr := queue[|queue| - 1];
            tr in Subterms(term)
            && ((forall i :: 0 <= i < |Args(tr)| ==> Args(tr)[i] in proc)
                ==> Searching(term, queue[..|queue| - 1], proc + {tr}))
  {
    hide Subterms;
    assert queue[|queue| - 1] in queue;
  }

  /** Whether a term occurs in another: a search over an explicit stack. */
  method Contains(term: Term, x: Term) returns (found: bool)
    ensures found <==> x in Subterms(term)
  {
    hide Subterms, Searched, SearchRank, Args, Searching;
    var proc: set<Term> := {};
    var queue := [term];
    SearchStarts(term);
    while |queue| != 0
      invariant Searching(term, queue, proc) && x !in proc
      decreases Subterms(term) - proc, if TopOpen(queue, proc) then 0 else 1, SearchRank(queue, proc)
    {
      var tr := queue[|queue| - 1];
      FinishKeeps(term, queue, proc);
      if tr == x { return true; }
      if tr in proc {
        PopRank(queue, proc);
        queue := queue[..|queue| - 1];
        continue;
      }
      var more := PushArgs(tr, proc, queue);
      if more != queue {
        PushKeeps(term, queue, more, proc);
        PushRank(queue, more, proc);
        queue := more;
        continue;
      }
      queue := queue[..|queue| - 1];
      proc := proc + {tr};
    }
    SearchEnds(term, proc);
    found := false;
  }

  lemma SearchStarts(term: Term)
    ensures Searching(term, [term], {})
  {
  }

  lemma SearchEnds(term: Term, proc: set<Term>)
    requires Searching(term, [], proc)
    ensures proc == Subterms(term)
  {
    SearchedSubterms(proc, term);
  }

  // ---------- the top-level conjunction ----------

  /** purify: the term below its negations and the sign they give it. */
  function Pure(t: Term): (p: PtAsgn)
    ensures p.tr == t || p.tr < t
    ensures !p.tr.Not? && p.tr in Subterms(t)
  {
    if t.Not? then
      assert Args(t)[0] == t.arg && Pure(t.arg).tr in Subterms(t);
      Pure(t.arg).(sgn := !Pure(t.arg).sgn)
    else PtAsgn(t, true)
  }

  lemma {:induction false} PureMeaning(t: Term, m: Model)
    requires WellFormed(t) && IsBool(t)
    ensures WellFormed(Pure(t).tr) && IsBool(Pure(t).tr)
    ensures HoldsSigned(Pure(t), m) <==> Holds(t, m)
  {
    if t.Not? {
      assert Args(t)[0] == t.arg;
      PureMeaning(t.arg, m);
    }
  }

  method Purify(r: Term) returns (p: Term, sgn: bool)
    ensures PtAsgn(p, sgn) == Pure(r)
  {
    p, sgn := r, true;
    while p.Not?
      invariant Pure(r) == Pure(p).(sgn := Pure(p).sgn == sgn)
      decreases p
    {
      sgn := !sgn;
      p := p.arg;
    }
  }

  /** A true conjunction or a false disjunction: it holds exactly when all its parts do. */
  predicate Splits(a: PtAsgn) {
    (a.tr.And? && a.sgn) || (a.tr.Or? && !a.sgn)
  }

  function Part(a: PtAsgn, i: nat): (p: PtAsgn)
    requires i < |Args(a.tr)|
    ensures p.tr < a.tr && !p.tr.Not?
  {
    var c := Pure(Args(a.tr)[i]);
    PtAsgn(c.tr, c.sgn == a.sgn)
  }

  /** The signed terms whose conjunction a signed term is. */
  function Conjuncts(a: PtAsgn): set<PtAsgn>
    decreases a.tr
  {
    if Splits(a) then set i, c | 0 <= i < |Args(a.tr)| && c in Conjuncts(Part(a, i)) :: c
    else {a}
  }

  /** A signed Boolean term without negation at the top. */
  ghost predicate Literal(a: PtAsgn) {
    WellFormed(a.tr) && IsBool(a.tr) && !a.tr.Not?
  }

  lemma PartMeaning(a: PtAsgn, i: nat, m: Model)
    requires Literal(a) && Splits(a) && i < |Args(a.tr)|
    ensures Literal(Part(a, i)) && Part(a, i).tr in Subterms(a.tr)
    ensures HoldsSigned(Part(a, i), m) <==> Holds(Args(a.tr)[i], m) == a.sgn
  {
    PureMeaning(Args(a.tr)[i], m);
    SubtermsNested(a.tr, Args(a.tr)[i]);
  }

  lemma SplitMeaning(a: PtAsgn, m: Model)
    requires Literal(a) && Splits(a)
    ensures HoldsSigned(a, m) <==> forall i :: 0 <= i < |Args(a.tr)| ==> HoldsSigned(Part(a, i), m)
  {
    forall i | 0 <= i < |Args(a.tr)| ensures HoldsSigned(Part(a, i), m) <==> Holds(Args(a.tr)[i], m) == a.sgn {
      PartMeaning(a, i, m);
    }
    var xs := Args(a.tr);
    assert AllBool(xs);
    NaryMeaning(xs, m);
    if a.sgn {
      assert HoldsSigned(a, m) <==> EachHolds(xs, m);
    } else {
      assert HoldsSigned(a, m) <==> !OneHolds(xs, m);
    }
  }

  /** A signed term holds exactly when all its conjuncts do. */
  lemma {:induction false} ConjunctsMeaning(a: PtAsgn, m: Model)
    requires Literal(a)
    ensures HoldsSigned(a, m) <==> forall c :: c in Conjuncts(a) ==> HoldsSigned(c, m)
    decreases a.tr
  {
    if Splits(a) {
      forall i | 0 <= i < |Args(a.tr)|
        ensures HoldsSigned(Part(a, i), m) <==> forall c :: c in Conjuncts(Part(a, i)) ==> HoldsSigned(c, m)
      {
        PartMeaning(a, i, m);
        ConjunctsMeaning(Part(a, i), m);
      }
      SplitMeaning(a, m);
      forall i, c | 0 <= i < |Args(a.tr)| && c in Conjuncts(Part(a, i)) ensures c in Conjuncts(a) {
      }
    }
  }

  lemma {:induction false} ConjunctsLiteral(a: PtAsgn, c: PtAsgn)
    requires Literal(a) && c in Conjuncts(a)
    ensures Literal(c) && c.tr in Subterms(a.tr) && !Splits(c) && Conjuncts(c) == {c}
    decreases a.tr
  {
    if Splits(a) {
      var i :| 0 <= i < |Args(a.tr)| && c in Conjuncts(Part(a, i));
      PartMeaning(a, i, AnyModel);
      ConjunctsLiteral(Part(a, i), c);
      SubtermsNested(a.tr, Part(a, i).tr);
    }
  }

  // ---------- facts ----------

  /** The fact a conjunct gives: an equality, a predicate, an atom, or the equality an xor amounts to. */
  function FactOf(a: PtAsgn, rank: Order): Option<PtAsgn> {
    if a.tr.Eq? && a.sgn then Some(a)
    else if a.tr.App? && IsBool(a.tr) && a.sgn then Some(a)
    else if a.tr.Xor? && a.sgn then Some(PtAsgn(MkEq(a.tr.lhs, MkNot(a.tr.rhs), rank), true))
    else if a.tr.Var? && IsBool(a.tr) then Some(a)
    else None
  }

  lemma FactMeaning(a: PtAsgn, rank: Order, m: Model)
    requires Literal(a) && FactOf(a, rank).Some?
    ensures var f := FactOf(a, rank).value;
            && Literal(f) && Vars(f.tr) <= Vars(a.tr) && !f.tr.Xor?
            && (f != a ==> f.tr.Eq? && f.sgn)
            && (HoldsSigned(a, m) <==> HoldsSigned(f, m))
  {
    if a.tr.Xor? {
      var x, y := a.tr.lhs, a.tr.rhs;
      assert Args(a.tr)[0] == x && Args(a.tr)[1] == y;
      MkNotMeaning(y, m);
      MkEqMeaning(x, MkNot(y), rank, m);
      BoolEquality(x, MkNot(y), m);
      XorMeaning(x, y, m);
    }
  }

  datatype FactMap = FactMap(keys: seq<Term>, m: map<Term, bool>)

  ghost predicate IsFact(facts: FactMap, f: PtAsgn) {
    f.tr in facts.m && facts.m[f.tr] == f.sgn
  }

  /** The signed subterms: what the worklist can meet. */
  ghost function SignedSubterms(t: Term): set<PtAsgn> {
    (set s | s in Subterms(t) :: PtAsgn(s, true)) + (set s | s in Subterms(t) :: PtAsgn(s, false))
  }

  /** a is a literal that every model of the root satisfies, over subterms of the root. */
  ghost predicate Implied(root: PtAsgn, a: PtAsgn) {
    Literal(a) && a.tr in Subterms(root.tr) && Conjuncts(a) <= Conjuncts(root)
  }

  /** The worklist: seen terms that split have all their parts seen or queued. */
  ghost predicate Working(root: PtAsgn, isdup: set<PtAsgn>, queue: seq<PtAsgn>) {
    && Literal(root) && (root in isdup || root in queue)
    && (forall a :: a in isdup || a in queue ==> Implied(root, a))
    && (forall a :: a in isdup && Splits(a) ==> PartsIn(a, isdup, queue))
  }

  ghost predicate PartsIn(a: PtAsgn, isdup: set<PtAsgn>, queue: seq<PtAsgn>) {
    forall i :: 0 <= i < |Args(a.tr)| ==> Part(a, i) in isdup || Part(a, i) in queue
  }

  /** The facts are those of the seen conjuncts, and no others. */
  ghost predicate Recorded(facts: FactMap, isdup: set<PtAsgn>, rank: Order) {
    && (forall k :: k in facts.keys <==> k in facts.m)
    && (forall f :: IsFact(facts, f) ==> Given(f, isdup, rank))
    && (forall a :: a in isdup && !Splits(a) && FactOf(a, rank).Some? ==> IsFact(facts, FactOf(a, rank).value))
  }

  ghost predicate Given(f: PtAsgn, cs: set<PtAsgn>, rank: Order) {
    exists a :: a in cs && !Splits(a) && FactOf(a, rank) == Some(f)
  }

  /** One of the terms has a fact that says the opposite. */
  ghost predicate Contradicted(a: PtAsgn, cs: set<PtAsgn>, rank: Order) {
    Given(PtAsgn(a.tr, !a.sgn), cs, rank)
  }

  lemma ContradictedIs(facts: FactMap, isdup: set<PtAsgn>, a: PtAsgn, rank: Order)
    requires Recorded(facts, isdup, rank)
    ensures Contradicted(a, isdup, rank) <==> a.tr in facts.m && facts.m[a.tr] != a.sgn
  {
    hide FactOf;
    if a.tr in facts.m && facts.m[a.tr] != a.sgn {
      assert IsFact(facts, PtAsgn(a.tr, !a.sgn));
    }
  }

  /**
   The conjuncts in the order they were met, each once. No earlier one contradicts any of them,
   but the last if the scan has failed; otherwise all have been met.
   */
  ghost predicate Scanned(seen: seq<PtAsgn>, ok: bool, root: PtAsgn, rank: Order) {
    && Distinct(seen) && (forall c :: c in seen ==> c in Conjuncts(root))
    && (if ok then forall c :: c in Conjuncts(root) ==> c in seen else seen != [])
    && (forall i :: 0 <= i < |seen| ==>
        (Contradicted(seen[i], ToSet(seen[..i]), rank) <==> !ok && i == |seen| - 1))
  }

  /** What the scan keeps: the terms met are the seen ones that do not split, and none contradicts. */
  ghost predicate Scanning(seen: seq<PtAsgn>, isdup: set<PtAsgn>, rank: Order) {
    && Distinct(seen) && (forall c :: c in seen <==> c in isdup && !Splits(c))
    && (forall i :: 0 <= i < |seen| ==> !Contradicted(seen[i], ToSet(seen[..i]), rank))
  }

  lemma ScanStarts(rank: Order)
    ensures Scanning([], {}, rank)
  {
  }

  lemma ScanSplit(seen: seq<PtAsgn>, isdup: set<PtAsgn>, a: PtAsgn, rank: Order)
    requires Scanning(seen, isdup, rank) && Splits(a)
    ensures Scanning(seen, isdup + {a}, rank)
  {
    hide Splits, Contradicted;
  }

  /** Splitting terms give no facts. */
  lemma SeenGives(seen: seq<PtAsgn>, isdup: set<PtAsgn>, a: PtAsgn, rank: Order)
    requires forall c :: c in seen <==> c in isdup && !Splits(c)
    ensures Contradicted(a, isdup, rank) <==> Contradicted(a, ToSet(seen), rank)
  {
    hide Splits, FactOf;
  }

  lemma SeenPrefix(seen: seq<PtAsgn>, a: PtAsgn, i: nat)
    requires i <= |seen|
    ensures (seen + [a])[..i] == seen[..i]
  {
  }

  lemma ScanNew(seen: seq<PtAsgn>, isdup: set<PtAsgn>, a: PtAsgn, rank: Order)
    requires Scanning(seen, isdup, rank) && !Splits(a) && a !in isdup && !Contradicted(a, isdup, rank)
    ensures Scanning(seen + [a], isdup + {a}, rank)
  {
    SeenGives(seen, isdup, a, rank);
    hide Splits, Contradicted;
    forall i | 0 <= i < |seen + [a]| ensures !Contradicted((seen + [a])[i], ToSet((seen + [a])[..i]), rank) {
      SeenPrefix(seen, a, i);
    }
  }

  lemma ImpliedConjunct(root: PtAsgn, c: PtAsgn)
    requires Implied(root, c) && !Splits(c)
    ensures c in Conjuncts(root)
  {
    assert c in Conjuncts(c);
  }

  lemma ScanFails(root: PtAsgn, seen: seq<PtAsgn>, isdup: set<PtAsgn>, queue: seq<PtAsgn>, a: PtAsgn, rank: Order)
    requires Working(root, isdup, queue) && Scanning(seen, isdup, rank) && Implied(root, a)
    requires !Splits(a) && a !in isdup && Contradicted(a, isdup, rank)
    ensures Scanned(seen + [a], false, root, rank)
  {
    SeenGives(seen, isdup, a, rank);
    forall c | c in seen + [a] ensures c in Conjuncts(root) {
      assert c in isdup ==> Implied(root, c);
      ImpliedConjunct(root, c);
    }
    hide Splits, Contradicted, Conjuncts, Working, Implied;
    forall i | 0 <= i < |seen + [a]|
      ensures Contradicted((seen + [a])[i], ToSet((seen + [a])[..i]), rank) <==> i == |seen|
    {
      SeenPrefix(seen, a, i);
    }
  }

  lemma ScanEnds(root: PtAsgn, seen: seq<PtAsgn>, isdup: set<PtAsgn>, rank: Order)
    requires Working(root, isdup, []) && Scanning(seen, isdup, rank)
    ensures Scanned(seen, true, root, rank)
  {
    forall c | c in seen ensures c in Conjuncts(root) {
      assert Implied(root, c);
      ImpliedConjunct(root, c);
    }
    forall c | c in Conjuncts(root) ensures c in seen {
      AllSeen(root, isdup, root, c);
    }
  }

  lemma ImpliedMeaning(root: PtAsgn, a: PtAsgn, m: Model)
    requires Literal(root) && Implied(root, a) && HoldsSigned(root, m)
    ensures HoldsSigned(a, m)
  {
    hide Conjuncts;
    ConjunctsMeaning(root, m);
    ConjunctsMeaning(a, m);
  }

  lemma PartImplied(root: PtAsgn, a: PtAsgn, i: nat)
    requires Implied(root, a) && Splits(a) && i < |Args(a.tr)|
    ensures Implied(root, Part(a, i))
  {
    PartMeaning(a, i, AnyModel);
    SubtermsNested(root.tr, a.tr);
    forall c | c in Conjuncts(Part(a, i)) ensures c in Conjuncts(a) {
    }
  }

  /** Queues the parts of a seen term that splits. */
  method PushParts(a: PtAsgn, queue0: seq<PtAsgn>) returns (queue: seq<PtAsgn>)
    ensures queue0 <= queue
    ensures forall q :: q in queue ==> q in queue0 || exists i :: 0 <= i < |Args(a.tr)| && q == Part(a, i)
    ensures forall i :: 0 <= i < |Args(a.tr)| ==> Part(a, i) in queue
  {
    queue := queue0;
    for i := 0 to |Args(a.tr)|
      invariant queue0 <= queue
      invariant forall q :: q in queue ==> q in queue0 || exists j :: 0 <= j < i && q == Part(a, j)
      invariant forall j :: 0 <= j < i ==> Part(a, j) in queue
    {
      var c, sign := Purify(Args(a.tr)[i]);
      assert PtAsgn(c, sign == a.sgn) == Part(a, i);
      queue := queue + [PtAsgn(c, if a.sgn then sign else !sign)];
    }
  }

  lemma PopSeen(root: PtAsgn, isdup: set<PtAsgn>, queue: seq<PtAsgn>)
    requires Working(root, isdup, queue) && queue != [] && queue[|queue| - 1] in isdup
    ensures Working(root, isdup, queue[..|queue| - 1])
  {
    hide Implied, Literal, Splits, Part;
    var rest, q := queue[..|queue| - 1], queue[|queue| - 1];
    forall a | a in isdup && Splits(a) ensures PartsIn(a, isdup, rest) {
      assert PartsIn(a, isdup, queue);
      assert forall p :: p in queue ==> p in rest || p == q;
    }
  }

  /** A term leaves the queue for the seen ones; if it splits, its parts are queued. */
  lemma PopNew(root: PtAsgn, isdup: set<PtAsgn>, queue: seq<PtAsgn>, more: seq<PtAsgn>)
    requires Working(root, isdup, queue) && queue != []
    requires var a := queue[|queue| - 1];
             && queue[..|queue| - 1] <= more
             && (forall q :: q in more ==>
                 q in queue || (Splits(a) && exists i :: 0 <= i < |Args(a.tr)| && q == Part(a, i)))
             && (Splits(a) ==> forall i :: 0 <= i < |Args(a.tr)| ==> Part(a, i) in more)
    ensures Working(root, isdup + {queue[|queue| - 1]}, more)
  {
    var rest, q := queue[..|queue| - 1], queue[|queue| - 1];
    assert q in queue;
    forall p | p in more ensures Implied(root, p) {
      if p !in queue {
        var i :| 0 <= i < |Args(q.tr)| && p == Part(q, i);
        PartImplied(root, q, i);
      }
    }
    hide Implied, Literal, Splits, Part, Args;
    forall p | p in queue ensures p in more || p == q {
      assert p in rest ==> p in more;
    }
    forall a | a in isdup + {q} && Splits(a) ensures PartsIn(a, isdup + {q}, more) {
      if a in isdup { assert PartsIn(a, isdup, queue); }
    }
  }

  lemma SeenSubterms(root: PtAsgn, isdup: set<PtAsgn>, queue: seq<PtAsgn>, q: PtAsgn)
    requires Working(root, isdup, queue) && q in queue
    ensures q in SignedSubterms(root.tr)
  {
  }

  /** Once the queue is empty the seen terms that do not split are the conjuncts. */
  lemma {:induction false} AllSeen(root: PtAsgn, isdup: set<PtAsgn>, a: PtAsgn, c: PtAsgn)
    requires Working(root, isdup, []) && a in isdup && c in Conjuncts(a)
    ensures c in isdup && !Splits(c)
    decreases a.tr
  {
    if Splits(a) {
      assert PartsIn(a, isdup, []);
      var i :| 0 <= i < |Args(a.tr)| && c in Conjuncts(Part(a, i));
      AllSeen(root, isdup, Part(a, i), c);
    }
  }

  /** What getNewFacts promises on success: the facts of the conjuncts of the root, exactly. */
  ghost predicate FactsOf(facts: FactMap, root: PtAsgn, rank: Order) {
    && (forall k :: k in facts.keys <==> k in facts.m)
    && forall f :: IsFact(facts, f) <==> Given(f, Conjuncts(root), rank)
  }

  lemma WorkDone(root: PtAsgn, isdup: set<PtAsgn>, facts: FactMap, rank: Order)
    requires Working(root, isdup, []) && Recorded(facts, isdup, rank)
    ensures FactsOf(facts, root, rank)
  {
    forall f ensures IsFact(facts, f) <==> Given(f, Conjuncts(root), rank) {
      if Given(f, Conjuncts(root), rank) {
        var a :| a in Conjuncts(root) && !Splits(a) && FactOf(a, rank) == Some(f);
        AllSeen(root, isdup, root, a);
      }
      if IsFact(facts, f) {
        assert Given(f, isdup, rank);
        var a :| a in isdup && !Splits(a) && FactOf(a, rank) == Some(f);
        assert Implied(root, a) && a in Conjuncts(a);
      }
    }
  }

  lemma RecordedSplit(facts: FactMap, isdup: set<PtAsgn>, a: PtAsgn, rank: Order)
    requires Recorded(facts, isdup, rank) && Splits(a)
    ensures Recorded(facts, isdup + {a}, rank)
  {
    hide FactOf;
    forall f | IsFact(facts, f) ensures Given(f, isdup + {a}, rank) {
      assert Given(f, isdup, rank);
    }
  }

  /** Facts of other conjuncts about the term of a are the fact of a, or contradict it. */
  lemma KnownFact(facts: FactMap, root: PtAsgn, isdup: set<PtAsgn>, queue: seq<PtAsgn>, a: PtAsgn, rank: Order)
    requires Working(root, isdup, queue) && Recorded(facts, isdup, rank) && Implied(root, a)
    requires a.tr in facts.m
    ensures facts.m[a.tr] != a.sgn ==> forall m: Model :: !HoldsSigned(root, m)
    ensures facts.m[a.tr] == a.sgn && FactOf(a, rank).Some? ==> FactOf(a, rank).value == a
  {
    var f := PtAsgn(a.tr, facts.m[a.tr]);
    assert IsFact(facts, f) && Given(f, isdup, rank);
    var d :| d in isdup && !Splits(d) && FactOf(d, rank) == Some(f);
    assert Implied(root, d);
    FactMeaning(d, rank, AnyModel);
    if f.sgn != a.sgn {
      forall m: Model ensures !HoldsSigned(root, m) {
        FactMeaning(d, rank, m);
        if HoldsSigned(root, m) {
          ImpliedMeaning(root, a, m);
          ImpliedMeaning(root, d, m);
        }
      }
    }
  }

  lemma RecordedKnown(facts: FactMap, isdup: set<PtAsgn>, a: PtAsgn, rank: Order)
    requires Recorded(facts, isdup, rank) && !Splits(a)
    requires FactOf(a, rank).Some? ==> IsFact(facts, FactOf(a, rank).value)
    ensures Recorded(facts, isdup + {a}, rank)
  {
    hide FactOf;
    forall f | IsFact(facts, f) ensures Given(f, isdup + {a}, rank) {
      assert Given(f, isdup, rank);
    }
  }

  function AddFact(facts: FactMap, f: PtAsgn): FactMap {
    FactMap(facts.keys + [f.tr], facts.m[f.tr := f.sgn])
  }

  lemma RecordedNew(facts: FactMap, isdup: set<PtAsgn>, a: PtAsgn, rank: Order)
    requires Recorded(facts, isdup, rank) && !Splits(a) && FactOf(a, rank).Some?
    requires var f := FactOf(a, rank).value; f.tr in facts.m ==> facts.m[f.tr] == f.sgn
    ensures Recorded(AddFact(facts, FactOf(a, rank).value), isdup + {a}, rank)
  {
    hide FactOf;
    var g, f := AddFact(facts, FactOf(a, rank).value), FactOf(a, rank).value;
    forall h | IsFact(g, h) ensures Given(h, isdup + {a}, rank) {
      if h != f {
        assert IsFact(facts, h);
        assert Given(h, isdup, rank);
      }
    }
    forall h | IsFact(facts, h) ensures IsFact(g, h) {
    }
  }

  /** A fact for an equality is never negative. */
  lemma EqualityFact(facts: FactMap, isdup: set<PtAsgn>, t: Term, rank: Order)
    requires Recorded(facts, isdup, rank) && t.Eq? && t in facts.m
    ensures facts.m[t]
  {
    var f := PtAsgn(t, facts.m[t]);
    assert IsFact(facts, f);
    assert Given(f, isdup, rank);
  }

  /** Records a conjunct that does not split, unless its term is a fact already. */
  method RecordFact(a: PtAsgn, facts0: FactMap, rank: Order,
                    ghost root: PtAsgn, ghost isdup: set<PtAsgn>, ghost queue: seq<PtAsgn>)
    returns (ok: bool, facts: FactMap)
    requires Working(root, isdup, queue) && Recorded(facts0, isdup, rank) && Implied(root, a) && !Splits(a)
    ensures ok ==> Recorded(facts, isdup + {a}, rank)
    ensures ok <==> !Contradicted(a, isdup, rank)
    ensures !ok ==> forall m: Model :: !HoldsSigned(root, m)
  {
    ContradictedIs(facts0, isdup, a, rank);
    hide Recorded, Working, Contradicted;
    facts := facts0;
    if a.tr in facts.m {
      KnownFact(facts, root, isdup, queue, a, rank);
      RecordedIf(facts, isdup, a, rank);
      return facts.m[a.tr] == a.sgn, facts;
    }
    ok := true;
    FactOrNone(facts, isdup, a, rank);
    if a.tr.Eq? && a.sgn {
      facts := AddFact(facts, a);
    } else if a.tr.App? && IsBool(a.tr) && a.sgn {
      facts := AddFact(facts, a);
    } else if a.tr.Xor? && a.sgn {
      facts := AddFact(facts, PtAsgn(MkEq(a.tr.lhs, MkNot(a.tr.rhs), rank), true));
    } else {
      var c, sign := Purify(a.tr);
      if c.Var? && IsBool(c) {
        facts := AddFact(facts, PtAsgn(c, sign == a.sgn));
      }
    }
  }

  lemma RecordedIf(facts: FactMap, isdup: set<PtAsgn>, a: PtAsgn, rank: Order)
    requires Recorded(facts, isdup, rank) && !Splits(a) && a.tr in facts.m
    requires facts.m[a.tr] == a.sgn && FactOf(a, rank).Some? ==> FactOf(a, rank).value == a
    ensures facts.m[a.tr] == a.sgn ==> Recorded(facts, isdup + {a}, rank)
  {
    if facts.m[a.tr] == a.sgn { RecordedKnown(facts, isdup, a, rank); }
  }

  lemma FactOrNone(facts: FactMap, isdup: set<PtAsgn>, a: PtAsgn, rank: Order)
    requires Recorded(facts, isdup, rank) && !Splits(a) && Literal(a) && a.tr !in facts.m
    ensures match FactOf(a, rank)
            case Some(f) => Recorded(AddFact(facts, f), isdup + {a}, rank)
            case None => Recorded(facts, isdup + {a}, rank)
  {
    match FactOf(a, rank)
    case None => RecordedKnown(facts, isdup, a, rank);
    case Some(f) =>
      FactMeaning(a, rank, AnyModel);
      if f.tr in facts.m { EqualityFact(facts, isdup, f.tr, rank); }
      RecordedNew(facts, isdup, a, rank);
  }

  /**
   The facts of a formula. On success they are exactly the facts of its conjuncts; on
   failure the formula has no model. It fails exactly when it meets a conjunct that the fact of
   an earlier one contradicts.
   */
  method GetNewFacts(fla: Term, rank: Order) returns (ok: bool, facts: FactMap, ghost seen: seq<PtAsgn>)
    requires WellFormed(fla) && IsBool(fla)
    ensures Scanned(seen, ok, Pure(fla), rank)
    ensures ok ==> FactsOf(facts, Pure(fla), rank)
    ensures !ok ==> forall m: Model :: !Holds(fla, m)
  {
    hide Working, Recorded, Splits, Part, Implied, FactsOf, SignedSubterms, Subterms, Scanned, Scanning, Contradicted;
    facts := FactMap([], map[]);
    seen := [];
    ScanStarts(rank);
    var isdup: set<PtAsgn> := {};
    var p, sign := Purify(fla);
    var queue := [PtAsgn(p, sign)];
    ghost var root := Pure(fla);
    WorkStarts(fla, rank);
    while |queue| != 0
      invariant Working(root, isdup, queue) && Recorded(facts, isdup, rank) && Scanning(seen, isdup, rank)
      decreases SignedSubterms(root.tr) - isdup, |queue|
    {
      var pta := queue[|queue| - 1];
      var rest := queue[..|queue| - 1];
      if pta in isdup {
        PopSeen(root, isdup, queue);
        queue := rest;
        continue;
      }
      SeenSubterms(root, isdup, queue, pta);
      WorkingTop(root, isdup, queue);
      if Splits(pta) {
        var more := PushParts(pta, rest);
        PopNew(root, isdup, queue, more);
        RecordedSplit(facts, isdup, pta, rank);
        ScanSplit(seen, isdup, pta, rank);
        queue := more;
      } else {
        ok, facts := RecordFact(pta, facts, rank, root, isdup, queue);
        if !ok {
          ScanFails(root, seen, isdup, queue, pta, rank);
          seen := seen + [pta];
          RootMeaning(fla);
          return;
        }
        ScanNew(seen, isdup, pta, rank);
        seen := seen + [pta];
        PopNew(root, isdup, queue, rest);
        queue := rest;
      }
      isdup := isdup + {pta};
    }
    WorkDone(root, isdup, facts, rank);
    ScanEnds(root, seen, isdup, rank);
    ok := true;
  }

  lemma WorkingTop(root: PtAsgn, isdup: set<PtAsgn>, queue: seq<PtAsgn>)
    requires Working(root, isdup, queue) && queue != []
    ensures Implied(root, queue[|queue| - 1])
  {
  }

  lemma WorkStarts(fla: Term, rank: Order)
    requires WellFormed(fla) && IsBool(fla)
    ensures Working(Pure(fla), {}, [Pure(fla)]) && Recorded(FactMap([], map[]), {}, rank)
  {
    PureMeaning(fla, AnyModel);
  }

  lemma RootMeaning(fla: Term)
    requires WellFormed(fla) && IsBool(fla) && forall m: Model :: !HoldsSigned(Pure(fla), m)
    ensures forall m: Model :: !Holds(fla, m)
  {
    forall m: Model ensures !Holds(fla, m) { PureMeaning(fla, m); }
  }

  /** Every model of a formula satisfies its facts; their variables are the formula's. */
  lemma FactsHold(fla: Term, facts: FactMap, f: PtAsgn, rank: Order, m: Model)
    requires WellFormed(fla) && IsBool(fla) && FactsOf(facts, Pure(fla), rank) && IsFact(facts, f)
    ensures Literal(f) && Vars(f.tr) <= Vars(fla) && (Holds(fla, m) ==> HoldsSigned(f, m))
  {
    var root := Pure(fla);
    PureMeaning(fla, m);
    assert Given(f, Conjuncts(root), rank);
    var a :| a in Conjuncts(root) && !Splits(a) && FactOf(a, rank) == Some(f);
    ConjunctsLiteral(root, a);
    ConjunctsMeaning(root, m);
    FactMeaning(a, rank, m);
    SubtermsNested(root.tr, a.tr);
    SubtermsNested(fla, root.tr);
  }

  // ---------- substitutions from facts ----------

  /** The substitution a fact offers: one side of an equality that is a variable, or an atom's value. */
  function Offer(f: PtAsgn): Option<(Term, Term)> {
    if f.tr.Eq? && f.sgn then
      var x := if f.tr.lhs.Var? then f.tr.lhs else f.tr.rhs;
      var t := if f.tr.lhs.Var? then f.tr.rhs else f.tr.lhs;
      if !x.Var? || x in Subterms(t) then None else Some((x, t))
    else if f.tr.Var? && IsBool(f.tr) then Some((f.tr, if f.sgn then True else False))
    else None
  }

  ghost predicate Offers(f: PtAsgn, x: Term, t: Term) {
    Offer(f) == Some((x, t))
  }

  lemma OfferMeaning(f: PtAsgn, m: Model)
    requires Literal(f) && Offer(f).Some?
    ensures var (x, t) := Offer(f).value;
            && x.Var? && WellFormed(t) && SortOf(t) == SortOf(x) && x !in Vars(t)
            && x in Vars(f.tr) && Vars(t) <= Vars(f.tr)
            && (HoldsSigned(f, m) ==> Eval(x, m) == Eval(t, m))
  {
    var (x, t) := Offer(f).value;
    VarIsSubterm(t, x);
    if f.tr.Eq? {
      assert Args(f.tr)[0] == f.tr.lhs && Args(f.tr)[1] == f.tr.rhs;
      assert x in Vars(x);
      VarsArgSubset(f.tr, 0);
      VarsArgSubset(f.tr, 1);
    } else {
      EvalSort(f.tr, m);
    }
  }

  /** An earlier fact of the list offers a substitution for x. */
  ghost predicate OfferedBefore(fs: seq<PtAsgn>, n: int, x: Term) {
    exists i, t :: 0 <= i < n && i < |fs| && Offers(fs[i], x, t)
  }

  /** Fact i is the first of the list that offers a substitution for x. */
  ghost predicate FirstOffer(fs: seq<PtAsgn>, i: int, x: Term, t: Term) {
    0 <= i < |fs| && Offers(fs[i], x, t) && !OfferedBefore(fs, i, x)
  }

  /** The collected substitutions: for every variable the first offer among the first n facts. */
  ghost predicate Collected(a: LoopBreaker.Assignments, fs: seq<PtAsgn>, n: int) {
    && Sequences.Distinct(a.keys) && (forall k :: k in a.keys <==> k in a.m)
    && (forall k :: k in a.m ==> a.m[k].sgn && exists i :: 0 <= i < n && FirstOffer(fs, i, k, a.m[k].tr))
    && (forall k :: OfferedBefore(fs, n, k) ==> k in a.m)
  }

  /** An atom is fixed by its first offer and a later fact gives it the other value. */
  ghost predicate Clash(fs: seq<PtAsgn>, n: int) {
    exists i, j :: ClashAt(fs, i, j) && i < j < n
  }

  ghost predicate ClashAt(fs: seq<PtAsgn>, i: int, j: int) {
    && 0 <= i < j < |fs| && fs[i].tr == fs[j].tr && fs[i].sgn != fs[j].sgn
    && fs[i].tr.Var? && IsBool(fs[i].tr) && !OfferedBefore(fs, i, fs[i].tr)
  }

  lemma OfferedStep(fs: seq<PtAsgn>, n: nat, x: Term)
    requires n < |fs|
    ensures OfferedBefore(fs, n + 1, x) <==> OfferedBefore(fs, n, x) || exists t :: Offers(fs[n], x, t)
  {
    if OfferedBefore(fs, n + 1, x) {
      var i, t :| 0 <= i < n + 1 && Offers(fs[i], x, t);
    }
  }

  /** A fact without an offer, or with one for a variable that has a substitution, changes nothing. */
  lemma CollectSkip(a: LoopBreaker.Assignments, fs: seq<PtAsgn>, n: nat)
    requires Collected(a, fs, n) && n < |fs|
    requires Offer(fs[n]).Some? ==> Offer(fs[n]).value.0 in a.m
    ensures Collected(a, fs, n + 1)
  {
    forall k | OfferedBefore(fs, n + 1, k) ensures k in a.m {
      OfferedStep(fs, n, k);
    }
    forall k | k in a.m ensures a.m[k].sgn && exists i :: 0 <= i < n + 1 && FirstOffer(fs, i, k, a.m[k].tr) {
      var i :| 0 <= i < n && FirstOffer(fs, i, k, a.m[k].tr);
    }
  }

  function Extend(a: LoopBreaker.Assignments, x: Term, t: Term): LoopBreaker.Assignments {
    LoopBreaker.Assignments(a.keys + [x], a.m[x := PtAsgn(t, true)])
  }

  lemma CollectNew(a: LoopBreaker.Assignments, fs: seq<PtAsgn>, n: nat, x: Term, t: Term)
    requires Collected(a, fs, n) && n < |fs| && Offers(fs[n], x, t) && x !in a.m
    ensures Collected(Extend(a, x, t), fs, n + 1)
  {
    var b := Extend(a, x, t);
    assert FirstOffer(fs, n, x, t);
    forall k | OfferedBefore(fs, n + 1, k) ensures k in b.m {
      OfferedStep(fs, n, k);
    }
    forall k | k in b.m ensures b.m[k].sgn && exists i :: 0 <= i < n + 1 && FirstOffer(fs, i, k, b.m[k].tr) {
      if k != x {
        var i :| 0 <= i < n && FirstOffer(fs, i, k, a.m[k].tr);
      }
    }
  }

  /** An atom whose substitution is a constant got it from a fact about that atom. */
  lemma ConstantOffer(a: LoopBreaker.Assignments, fs: seq<PtAsgn>, n: nat, x: Term) returns (i: nat)
    requires n <= |fs| && Collected(a, fs, n) && x in a.m && IsConstant(a.m[x].tr)
    requires forall j :: 0 <= j < n ==> Literal(fs[j])
    ensures i < n && fs[i].tr == x && x.Var? && IsBool(x) && !OfferedBefore(fs, i, x)
    ensures a.m[x].tr == if fs[i].sgn then True else False
  {
    var j :| 0 <= j < n && FirstOffer(fs, j, x, a.m[x].tr);
    i := j;
    assert Literal(fs[j]);
  }

  /** The earlier fact of a clash is the one that fixed the substitution. */
  lemma ClashFixed(a: LoopBreaker.Assignments, fs: seq<PtAsgn>, n: nat, i: int)
    requires Collected(a, fs, n) && ClashAt(fs, i, n)
    ensures fs[n].tr in a.m && a.m[fs[n].tr].tr == if fs[n].sgn then False else True
  {
    var x, t := fs[n].tr, if fs[i].sgn then True else False;
    assert Offers(fs[i], x, t) && FirstOffer(fs, i, x, t);
    assert OfferedBefore(fs, n, x);
    var k :| 0 <= k < n && FirstOffer(fs, k, x, a.m[x].tr);
    assert k < i ==> OfferedBefore(fs, i, x);
    assert i < k ==> OfferedBefore(fs, k, x);
  }

  lemma ClashFree(a: LoopBreaker.Assignments, fs: seq<PtAsgn>, n: nat)
    requires Collected(a, fs, n) && n < |fs| && !Clash(fs, n)
    requires fs[n].tr.Var? && IsBool(fs[n].tr) && fs[n].tr in a.m ==>
               a.m[fs[n].tr].tr == (if fs[n].sgn then True else False) || !IsConstant(a.m[fs[n].tr].tr)
    ensures !Clash(fs, n + 1)
  {
    hide Collected;
    forall i | ClashAt(fs, i, n)
      ensures fs[n].tr in a.m && a.m[fs[n].tr].tr == if fs[n].sgn then False else True
    {
      ClashFixed(a, fs, n, i);
    }
    assert forall i, j :: ClashAt(fs, i, j) && j < n ==> !(i < j < n + 1) || Clash(fs, n);
  }

  /** The substitution for an equality, if the source takes it: the test for occurrence is a search. */
  method EqualityOffer(f: PtAsgn) returns (o: Option<(Term, Term)>)
    requires f.tr.Eq? && f.sgn
    ensures o == Offer(f)
  {
    var a1, a2 := f.tr.lhs, f.tr.rhs;
    o := None;
    if a1.Var? || a2.Var? {
      var x := if a1.Var? then a1 else a2;
      var t := if a1.Var? then a2 else a1;
      var occurs := Contains(t, x);
      if !occurs { o := Some((x, t)); }
    }
  }

  /** Takes one fact into the substitutions; reports whether it clashes with a constant. */
  method Collect(a0: LoopBreaker.Assignments, fs: seq<PtAsgn>, n: nat) returns (ok: bool, a: LoopBreaker.Assignments)
    requires n < |fs| && Collected(a0, fs, n) && !Clash(fs, n) && forall f :: f in fs ==> Literal(f)
    ensures if ok then Collected(a, fs, n + 1) && !Clash(fs, n + 1) else Clash(fs, |fs|)
  {
    hide Literal, Subterms;
    a, ok := a0, true;
    var f := fs[n];
    if f.tr.Eq? && f.sgn {
      var o := EqualityOffer(f);
      ClashFree(a0, fs, n);
      if o.Some? && o.value.0 !in a.m {
        CollectNew(a, fs, n, o.value.0, o.value.1);
        a := Extend(a, o.value.0, o.value.1);
      } else {
        CollectSkip(a, fs, n);
      }
    } else if f.tr.Var? && IsBool(f.tr) {
      ok, a := CollectAtom(a0, fs, n);
    } else {
      ClashFree(a0, fs, n);
      CollectSkip(a, fs, n);
    }
  }

  method CollectAtom(a0: LoopBreaker.Assignments, fs: seq<PtAsgn>, n: nat)
    returns (ok: bool, a: LoopBreaker.Assignments)
    requires n < |fs| && Collected(a0, fs, n) && !Clash(fs, n) && forall f :: f in fs ==> Literal(f)
    requires fs[n].tr.Var? && IsBool(fs[n].tr)
    ensures if ok then Collected(a, fs, n + 1) && !Clash(fs, n + 1) else Clash(fs, |fs|)
  {
    hide Literal, Subterms, OfferedBefore;
    a, ok := a0, true;
    var tr := fs[n].tr;
    var term := if fs[n].sgn then True else False;
    if tr in a.m {
      if a.m[tr].tr == True || a.m[tr].tr == False {
        if term != a.m[tr].tr {
          ghost var i := ConstantOffer(a, fs, n, tr);
          assert ClashAt(fs, i, n);
          return false, a;
        }
      }
      ClashFree(a0, fs, n);
      CollectSkip(a, fs, n);
    } else {
      NotOffered(a, fs, n, tr);
      ClashFree(a0, fs, n);
      CollectNew(a, fs, n, tr, term);
      a := Extend(a, tr, term);
    }
  }

  lemma NotOffered(a: LoopBreaker.Assignments, fs: seq<PtAsgn>, n: nat, x: Term)
    requires n <= |fs| && Collected(a, fs, n) && x !in a.m
    ensures !OfferedBefore(fs, n, x)
  {
  }

  lemma CollectedValid(a: LoopBreaker.Assignments, fs: seq<PtAsgn>)
    requires Collected(a, fs, |fs|) && forall f :: f in fs ==> Literal(f)
    ensures LoopBreaker.ValidAssignments(a) && LoopBreaker.Enabled(a).Keys == a.m.Keys
    ensures forall k :: k in a.m ==> LoopBreaker.Enabled(a)[k] == a.m[k].tr
  {
    forall k | k in a.m ensures k.Var? && k !in Vars(a.m[k].tr) {
      var i :| 0 <= i < |fs| && FirstOffer(fs, i, k, a.m[k].tr);
      assert fs[i] in fs;
      OfferMeaning(fs[i], AnyModel);
    }
  }

  /** All enabled substitutions of the facts: the first offer for each variable. */
  ghost predicate FirstOffers(m: map<Term, Term>, fs: seq<PtAsgn>) {
    && (forall k :: k in m ==> exists i :: FirstOffer(fs, i, k, m[k]))
    && (forall k :: OfferedBefore(fs, |fs|, k) ==> k in m)
  }

  /**
   The substitutions of a list of facts. It fails exactly when an atom clashes; otherwise
   the result is the map of first offers without some of the keys that lie on its loops, each
   on one with a key that stays.
   */
  method RetrieveSubstitutions(fs: seq<PtAsgn>)
    returns (ok: bool, r: Substitution.SubstMap, ghost all: map<Term, Term>, ghost depth: map<Term, nat>)
    requires forall f :: f in fs ==> Literal(f)
    ensures ok <==> !Clash(fs, |fs|)
    ensures ok ==> FirstOffers(all, fs)
    ensures Substitution.ValidMap(r) && Substitution.Ranked(r.m, depth)
    ensures ok ==> forall k :: k in r.m ==> k in all && r.m[k] == all[k]
    ensures ok ==> forall k :: k in all && k !in r.m ==> LoopBreaker.InLoop(all, k)
    ensures ok ==> forall k :: k in all && k !in r.m ==> LoopBreaker.SharesLoop(all, r.m, k)
    ensures !ok ==> r == Substitution.EmptySubst
  {
    hide Literal, Clash, LoopBreaker.ValidAssignments, LoopBreaker.InLoop, LoopBreaker.SharesLoop;
    var substs := LoopBreaker.Assignments([], map[]);
    CollectStarts(fs);
    for i := 0 to |fs|
      invariant Collected(substs, fs, i) && !Clash(fs, i)
    {
      hide Collected;
      ok, substs := Collect(substs, fs, i);
      if !ok {
        r, all, depth := Substitution.EmptySubst, map[], map[];
        return;
      }
    }
    CollectedValid(substs, fs);
    all := LoopBreaker.Enabled(substs);
    var slb := new LoopBreaker.SubstLoopBreaker();
    r, depth := slb.Run(substs);
    ok := true;
  }

  lemma CollectStarts(fs: seq<PtAsgn>)
    ensures Collected(LoopBreaker.Assignments([], map[]), fs, 0) && !Clash(fs, 0)
  {
  }
}
