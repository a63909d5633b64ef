/**
 The assumptions that enable the frames on the stack, and what an answer under them says.
 */
module FrameAssumptions {
  import opened Sequences
  import opened Terms
  import opened Facts
  import opened Clauses
  import opened Literals
  import opened TermMapping
  import opened GuardedClauses
  import opened CnfCaches

  /** The assumptions about the first n frames: a guard is off exactly when its frame is enabled. */
  function AssumptionsOf(frameTerms: seq<Term>, enabled: seq<nat>, n: nat): seq<PtAsgn>
    requires n <= |frameTerms|
  {
    if n == 0 then []
    else (
      AssumptionsOf(frameTerms, enabled, n - 1)
      + if frameTerms[n - 1] == True then [] else [PtAsgn(Pure(frameTerms[n - 1]).tr, n - 1 !in enabled)]
    )
  }

  /** Frames can be enabled: the bottom frame first, every other one with its guard. */
  ghost predicate FramesReady(frameTerms: seq<Term>, en: seq<nat>) {
    && Ascending(en) && |en| > 0 && en[0] == 0
    && forall i :: 0 <= i < |en| ==> en[i] < |frameTerms| && frameTerms[en[i]] == GuardOf(en[i])
  }

  /** The guards of frames that are not enabled are on; those of the enabled ones up to position k are off. */
  ghost predicate FramesUpTo(frameTerms: seq<Term>, en: seq<nat>, k: nat, tau: Valuation) {
    && (forall i :: 0 <= i < |frameTerms| && frameTerms[i] != True && i !in en ==> tau(frameTerms[i]))
    && (forall p :: 0 < p < |en| && p <= k && en[p] < |frameTerms| ==> !tau(frameTerms[en[p]]))
  }

  /** A valuation of the clauses under the assumptions, with a model that agrees on the atoms. */
  ghost predicate FrameModel(meaning: seq<Clause>, frameTerms: seq<Term>, en: seq<nat>, tau: Valuation, m: Model) {
    Sat(meaning, tau) && FramesUpTo(frameTerms, en, |en|, tau) && AtomsAgree(tau, m)
  }

  /** Inverts the literals of the enabled frames. */
  method FlipEnabled(lits: seq<Lit>, enFrames: seq<nat>) returns (all: seq<Lit>)
    requires Ascending(enFrames) && forall i :: 0 <= i < |enFrames| ==> enFrames[i] < |lits|
    ensures |all| == |lits|
    ensures forall j :: 0 <= j < |all| ==> all[j] == if j in enFrames then Neg(lits[j]) else lits[j]
  {
    hide Neg;
    all := lits;
    for i := 0 to |enFrames|
      invariant |all| == |lits|
      invariant forall j :: 0 <= j < |all| ==> all[j] == if j in enFrames[..i] then Neg(lits[j]) else lits[j]
    {
      assert enFrames[..i + 1] == enFrames[..i] + [enFrames[i]];
      assert enFrames[i] !in enFrames[..i];
      all := all[enFrames[i] := Neg(all[enFrames[i]])];
    }
    assert enFrames[..|enFrames|] == enFrames;
  }

  lemma SameMeaning(b: Snapshot, a: Snapshot, cache: Cache, asserted: Cache, dead: set<Term>)
    requires a == b.(vt := a.vt) && CachesKept(b.meaning, cache, asserted, dead)
    ensures CachesKept(a.meaning, cache, asserted, dead)
  {
  }

  lemma NoAssumptions(frameTerms: seq<Term>, en: seq<nat>)
    ensures AssumptionsOf(frameTerms, en, 0) == []
  {
  }

  /** The literal of a frame is the constant's exactly when the frame has no guard. */
  lemma NextAssumption(vt: seq<Term>, tv: map<Term, nat>, frameTerms: seq<Term>, en: seq<nat>, i: nat,
                       l: Lit, litTrue: Lit, assumps: seq<Lit>)
    requires Inverse(vt, tv) && FrameTerms(frameTerms) && i < |frameTerms|
    requires Stands(vt, l, Pure(frameTerms[i])) && Stands(vt, litTrue, Pure(True))
    requires StandFor(vt, assumps, AssumptionsOf(frameTerms, en, i))
    ensures var x := if i in en then Neg(l) else l;
            StandFor(vt, if x != litTrue && x != Neg(litTrue) then assumps + [x] else assumps,
                     AssumptionsOf(frameTerms, en, i + 1))
  {
    var x := if i in en then Neg(l) else l;
    assert frameTerms[i] == True || frameTerms[i] == GuardOf(i);
    assert Pure(frameTerms[i]).tr == frameTerms[i];
    if frameTerms[i] == True {
      assert l.v == litTrue.v;
    } else {
      StandForPush(vt, assumps, AssumptionsOf(frameTerms, en, i), x, PtAsgn(frameTerms[i], i !in en));
    }
  }

  /** How many of the first n assumptions are those of enabled frames. */
  function EnabledIn(cs: seq<PtAsgn>, n: nat): nat
    requires n <= |cs|
  {
    if n == 0 then 0 else EnabledIn(cs, n - 1) + if cs[n - 1].sgn then 0 else 1
  }

  lemma {:induction false} EnabledSame(vt: seq<Term>, assumps: seq<Lit>, cs: seq<PtAsgn>, n: nat)
    requires StandFor(vt, assumps, cs) && n <= |assumps|
    ensures |cs| == |assumps| && Enabled(assumps, n) == EnabledIn(cs, n)
  {
    if n > 0 {
      EnabledSame(vt, assumps, cs, n - 1);
      assert InRange(vt, assumps[n - 1]) && cs[n - 1] == AsSigned(vt, assumps[n - 1]);
    }
  }

  lemma {:induction false} EnabledConcat(cs: seq<PtAsgn>, ds: seq<PtAsgn>, n: nat)
    requires n <= |cs|
    ensures EnabledIn(cs + ds, n) == EnabledIn(cs, n)
  {
    if n > 0 { EnabledConcat(cs, ds, n - 1); }
  }

  /** How many enabled frames above the bottom one lie below n. */
  function CountBelow(en: seq<nat>, n: nat): nat {
    if n == 0 then 0 else CountBelow(en, n - 1) + if n > 1 && n - 1 in en then 1 else 0
  }

  /** The literal that frame n contributes to the assumptions. */
  function AssumptionAt(frameTerms: seq<Term>, en: seq<nat>, n: nat): PtAsgn
    requires n < |frameTerms|
  {
    PtAsgn(Pure(frameTerms[n]).tr, n !in en)
  }

  lemma AssumptionStep(frameTerms: seq<Term>, en: seq<nat>, n: nat)
    requires n < |frameTerms|
    ensures AssumptionsOf(frameTerms, en, n + 1)
         == AssumptionsOf(frameTerms, en, n)
            + if frameTerms[n] == True then [] else [AssumptionAt(frameTerms, en, n)]
  {
  }

  lemma EnabledPush(cs: seq<PtAsgn>, l: PtAsgn)
    ensures EnabledIn(cs + [l], |cs| + 1) == EnabledIn(cs, |cs|) + if l.sgn then 0 else 1
  {
    EnabledConcat(cs, [l], |cs|);
    assert (cs + [l])[|cs|] == l;
  }

  lemma EnabledGuard(frameTerms: seq<Term>, en: seq<nat>, n: nat)
    requires FramesReady(frameTerms, en) && n < |frameTerms| && n in en
    ensures frameTerms[n] == True <==> n == 0
  {
    var p :| 0 <= p < |en| && en[p] == n;
  }

  lemma {:induction false} EnabledFrames(frameTerms: seq<Term>, en: seq<nat>, n: nat)
    requires FrameTerms(frameTerms) && FramesReady(frameTerms, en) && n <= |frameTerms|
    ensures EnabledIn(AssumptionsOf(frameTerms, en, n), |AssumptionsOf(frameTerms, en, n)|) == CountBelow(en, n)
  {
    if n > 0 {
      AssumptionStep(frameTerms, en, n - 1);
      hide AssumptionsOf, EnabledIn, FramesReady;
      EnabledFrames(frameTerms, en, n - 1);
      var cs, l := AssumptionsOf(frameTerms, en, n - 1), AssumptionAt(frameTerms, en, n - 1);
      EnabledPush(cs, l);
      assert cs + [] == cs;
      if n - 1 in en { EnabledGuard(frameTerms, en, n - 1); }
    }
  }

  lemma {:induction false} CountFlat(en: seq<nat>, a: nat, b: nat)
    requires 0 < a <= b && forall x :: x in en ==> !(a <= x < b)
    ensures CountBelow(en, b) == CountBelow(en, a)
    decreases b
  {
    if a < b { CountFlat(en, a, b - 1); }
  }

  /** The frame at position p has p - 1 enabled frames below it, not counting the bottom one. */
  lemma {:induction false} CountAt(en: seq<nat>, p: nat)
    requires Ascending(en) && 0 < p < |en| && en[0] == 0
    ensures CountBelow(en, en[p]) == p - 1
  {
    if p == 1 {
      CountFlat(en, 1, en[1]);
    } else {
      CountAt(en, p - 1);
      CountFlat(en, en[p - 1] + 1, en[p]);
    }
  }

  lemma CountAll(en: seq<nat>, n: nat)
    requires Ascending(en) && |en| > 0 && en[0] == 0 && forall i :: 0 <= i < |en| ==> en[i] < n
    ensures CountBelow(en, n) == |en| - 1
  {
    var last := |en| - 1;
    if last > 0 { CountAt(en, last); }
    CountFlat(en, en[last] + 1, n);
  }

  /** The assumptions hold up to k enabled frames: the same said about the frames. */
  ghost predicate AssumedUpTo(cs: seq<PtAsgn>, k: nat, tau: Valuation) {
    forall i :: 0 <= i < |cs| && (!cs[i].sgn ==> EnabledIn(cs, i) < k) ==> LitHolds(cs[i], tau)
  }

  lemma AssumedSame(vt: seq<Term>, assumps: seq<Lit>, cs: seq<PtAsgn>, k: nat, sigma: Assignment, tau: Valuation)
    requires StandFor(vt, assumps, cs) && forall v :: 0 <= v < |vt| ==> sigma(v) == tau(vt[v])
    ensures AssumptionsUpTo(assumps, k, sigma) <==> AssumedUpTo(cs, k, tau)
  {
    EnabledSame(vt, assumps, cs, 0);
    forall i | 0 <= i < |cs|
      ensures cs[i].sgn == !assumps[i].sgn && EnabledIn(cs, i) == Enabled(assumps, i)
      ensures LitHolds(cs[i], tau) <==> LitTrue(assumps[i], sigma)
    {
      EnabledSame(vt, assumps, cs, i);
      assert InRange(vt, assumps[i]) && cs[i] == AsSigned(vt, assumps[i]);
    }
  }

  lemma {:induction false} FramesAssumed(frameTerms: seq<Term>, en: seq<nat>, n: nat, k: nat, tau: Valuation)
    requires FrameTerms(frameTerms) && FramesReady(frameTerms, en) && n <= |frameTerms|
    requires FramesUpTo(frameTerms, en, k, tau)
    ensures AssumedUpTo(AssumptionsOf(frameTerms, en, n), k, tau)
  {
    if n > 0 {
      FramesAssumed(frameTerms, en, n - 1, k, tau);
      EnabledFrames(frameTerms, en, n - 1);
      AssumptionStep(frameTerms, en, n - 1);
      var cs, l := AssumptionsOf(frameTerms, en, n - 1), AssumptionAt(frameTerms, en, n - 1);
      assert cs + [] == cs;
      AssumedPush(cs, l, k, tau);
      if frameTerms[n - 1] != True { FrameAssumed(frameTerms, en, n - 1, k, tau); }
      hide AssumptionsOf, EnabledIn, AssumedUpTo;
    }
  }

  lemma FrameAssumed(frameTerms: seq<Term>, en: seq<nat>, n: nat, k: nat, tau: Valuation)
    requires FrameTerms(frameTerms) && FramesReady(frameTerms, en) && n < |frameTerms| && frameTerms[n] != True
    requires FramesUpTo(frameTerms, en, k, tau)
    ensures (n in en ==> CountBelow(en, n) < k) ==> LitHolds(AssumptionAt(frameTerms, en, n), tau)
  {
    assert frameTerms[n] == GuardOf(n);
    if n in en {
      var p :| 0 <= p < |en| && en[p] == n;
      CountAt(en, p);
    }
  }

  lemma AssumedPush(cs: seq<PtAsgn>, l: PtAsgn, k: nat, tau: Valuation)
    ensures AssumedUpTo(cs + [l], k, tau)
       <==> AssumedUpTo(cs, k, tau) && ((!l.sgn ==> EnabledIn(cs, |cs|) < k) ==> LitHolds(l, tau))
  {
    var ds := cs + [l];
    forall i | 0 <= i <= |cs| ensures EnabledIn(ds, i) == EnabledIn(cs, i) {
      EnabledConcat(cs, [l], i);
    }
    hide EnabledIn, LitHolds;
    assert forall i :: 0 <= i < |cs| ==> ds[i] == cs[i];
    assert ds[|cs|] == l;
    if AssumedUpTo(ds, k, tau) {
      forall i | 0 <= i < |cs| && (!cs[i].sgn ==> EnabledIn(cs, i) < k) ensures LitHolds(cs[i], tau) {
        assert ds[i] == cs[i] && EnabledIn(ds, i) == EnabledIn(cs, i);
      }
      assert (!ds[|cs|].sgn ==> EnabledIn(ds, |cs|) < k) ==> LitHolds(ds[|cs|], tau);
    }
  }

  lemma {:induction false} AssumedFrames(frameTerms: seq<Term>, en: seq<nat>, n: nat, k: nat, tau: Valuation, i: nat)
    requires FrameTerms(frameTerms) && FramesReady(frameTerms, en) && i < n <= |frameTerms|
    requires AssumedUpTo(AssumptionsOf(frameTerms, en, n), k, tau) && frameTerms[i] != True
    ensures (i in en ==> CountBelow(en, i) < k) ==> LitHolds(AssumptionAt(frameTerms, en, i), tau)
  {
    EnabledFrames(frameTerms, en, n - 1);
    AssumptionStep(frameTerms, en, n - 1);
    var cs, l := AssumptionsOf(frameTerms, en, n - 1), AssumptionAt(frameTerms, en, n - 1);
    AssumedPush(cs, l, k, tau);
    assert cs + [] == cs;
    hide AssumptionsOf, EnabledIn, AssumedUpTo;
    if i < n - 1 { AssumedFrames(frameTerms, en, n - 1, k, tau, i); }
  }

  /** A solution of the solver is a valuation of the clauses with the enabled guards off. */
  lemma SolutionFrames(vt: seq<Term>, tv: map<Term, nat>, clauses: seq<seq<Lit>>, assumps: seq<Lit>, cs: seq<PtAsgn>,
                       frameTerms: seq<Term>, en: seq<nat>, sigma: Assignment, m: Model)
    requires Inverse(vt, tv) && AllInRange(vt, clauses) && FrameTerms(frameTerms) && FramesReady(frameTerms, en)
    requires cs == AssumptionsOf(frameTerms, en, |frameTerms|) && StandFor(vt, assumps, cs)
    requires Solution(vt, clauses, assumps, |assumps|, sigma, m)
    ensures FrameModel(AsClauses(vt, clauses), frameTerms, en, Lift(tv, sigma, OfModel(m)), m)
  {
    var tau := Lift(tv, sigma, OfModel(m));
    LiftClauses(vt, tv, clauses, sigma, OfModel(m));
    AssumedSame(vt, assumps, cs, |assumps|, sigma, tau);
    EnabledSame(vt, assumps, cs, |cs|);
    EnabledFrames(frameTerms, en, |frameTerms|);
    CountAll(en, |frameTerms|);
    EnabledBound(cs, |cs|);
    AllFrames(frameTerms, en, |cs|, tau);
    assert AtomsAgree(tau, m);
  }

  lemma {:induction false} EnabledBound(cs: seq<PtAsgn>, n: nat)
    requires n <= |cs|
    ensures EnabledIn(cs, n) <= n
  {
    if n > 0 { EnabledBound(cs, n - 1); }
  }

  lemma AllFrames(frameTerms: seq<Term>, en: seq<nat>, k: nat, tau: Valuation)
    requires FrameTerms(frameTerms) && FramesReady(frameTerms, en) && |en| - 1 <= k
    requires AssumedUpTo(AssumptionsOf(frameTerms, en, |frameTerms|), k, tau)
    ensures FramesUpTo(frameTerms, en, |en|, tau)
  {
    forall i | 0 <= i < |frameTerms| && frameTerms[i] != True && i !in en ensures tau(frameTerms[i]) {
      AssumedFrames(frameTerms, en, |frameTerms|, k, tau, i);
      assert frameTerms[i] == GuardOf(i);
    }
    forall p | 0 < p < |en| ensures !tau(frameTerms[en[p]]) {
      CountAt(en, p);
      assert en[p] > en[0];
      AssumedFrames(frameTerms, en, |frameTerms|, k, tau, en[p]);
    }
  }

  /** No solution with k enabled frames: no model that enables the frames up to position k. */
  lemma NoModel(vt: seq<Term>, clauses: seq<seq<Lit>>, assumps: seq<Lit>, cs: seq<PtAsgn>,
                frameTerms: seq<Term>, en: seq<nat>, k: nat)
    requires AllInRange(vt, clauses) && FrameTerms(frameTerms) && FramesReady(frameTerms, en)
    requires cs == AssumptionsOf(frameTerms, en, |frameTerms|) && StandFor(vt, assumps, cs)
    requires k <= Enabled(assumps, |assumps|) && forall sigma, m :: !Solution(vt, clauses, assumps, k, sigma, m)
    ensures k < |en|
    ensures forall m: Model :: !(Sat(AsClauses(vt, clauses), OfModel(m)) && FramesUpTo(frameTerms, en, k, OfModel(m)))
  {
    EnabledSame(vt, assumps, cs, 0);
    EnabledSame(vt, assumps, cs, |assumps|);
    EnabledFrames(frameTerms, en, |frameTerms|);
    CountAll(en, |frameTerms|);
    forall m: Model ensures !(Sat(AsClauses(vt, clauses), OfModel(m)) && FramesUpTo(frameTerms, en, k, OfModel(m))) {
      if Sat(AsClauses(vt, clauses), OfModel(m)) && FramesUpTo(frameTerms, en, k, OfModel(m)) {
        ModelSolution(vt, clauses, assumps, cs, frameTerms, en, k, m);
      }
    }
  }

  lemma ModelSolution(vt: seq<Term>, clauses: seq<seq<Lit>>, assumps: seq<Lit>, cs: seq<PtAsgn>,
                      frameTerms: seq<Term>, en: seq<nat>, k: nat, m: Model)
    requires AllInRange(vt, clauses) && FrameTerms(frameTerms) && FramesReady(frameTerms, en)
    requires cs == AssumptionsOf(frameTerms, en, |frameTerms|) && StandFor(vt, assumps, cs)
    requires Sat(AsClauses(vt, clauses), OfModel(m)) && FramesUpTo(frameTerms, en, k, OfModel(m))
    ensures Solution(vt, clauses, assumps, k, Pull(vt, OfModel(m)), m)
  {
    PullClauses(vt, clauses, OfModel(m));
    FramesAssumed(frameTerms, en, |frameTerms|, k, OfModel(m));
    AssumedSame(vt, assumps, cs, k, Pull(vt, OfModel(m)), OfModel(m));
  }
}
