/**
 Clauses with the guard literal of a frame, and what giving clauses to the solver does.
 */
module GuardedClauses {
  import opened Terms
  import opened Facts
  import opened Clauses
  import opened Literals
  import opened TermMapping

  // ---------- guarded clauses ----------

  /** The guard of a frame: no literal for the bottom frame. */
  function GuardLits(g: Term): Clause {
    if g == True then [] else [Pure(g)]
  }

  function Guarded(cs: seq<Clause>, g: Term): (r: seq<Clause>)
    ensures |r| == |cs| && forall i :: 0 <= i < |r| ==> r[i] == cs[i] + GuardLits(g)
  {
    seq(|cs|, i requires 0 <= i < |cs| => cs[i] + GuardLits(g))
  }

  /** The guard is on: every clause of the frame is satisfied. */
  ghost predicate GuardOn(g: Term, tau: Valuation) {
    g != True && TermValue(g, tau)
  }

  lemma GuardedClause(c: Clause, g: Term, tau: Valuation)
    ensures ClauseHolds(c + GuardLits(g), tau) <==> GuardOn(g, tau) || ClauseHolds(c, tau)
  {
    if g == True {
      assert c + GuardLits(g) == c;
    } else {
      ClauseConcat(c, [Pure(g)], tau);
      Unit(Pure(g), tau);
    }
  }

  lemma GuardedMeaning(cs: seq<Clause>, g: Term, tau: Valuation)
    ensures Sat(Guarded(cs, g), tau) <==> GuardOn(g, tau) || Sat(cs, tau)
  {
    forall i | 0 <= i < |cs| ensures ClauseHolds(Guarded(cs, g)[i], tau) <==>
      GuardOn(g, tau) || ClauseHolds(cs[i], tau) {
      GuardedClause(cs[i], g, tau);
    }
  }

  lemma GuardedConcat(a: seq<Clause>, b: seq<Clause>, g: Term)
    ensures Guarded(a + b, g) == Guarded(a, g) + Guarded(b, g)
  {
  }

  // ---------- what adding clauses does ----------

  /** The state of solver and term map: variables, clauses over signed terms, consistency flag. */
  datatype Snapshot = Snapshot(vt: seq<Term>, meaning: seq<Clause>, ok: bool)

  ghost predicate Refuted(cs: seq<Clause>) {
    forall tau: Valuation :: !Sat(cs, tau)
  }

  /** The clauses cs were added one by one, up to the first that made the solver not OK. */
  ghost predicate Adds(b: Snapshot, a: Snapshot, cs: seq<Clause>) {
    && b.vt <= a.vt && (a.ok ==> b.ok)
    && (exists n: nat :: n <= |cs| && a.meaning == b.meaning + cs[..n] && (a.ok ==> n == |cs|) && (!b.ok ==> n == 0))
    && (b.ok && !a.ok ==> Refuted(a.meaning))
  }

  lemma AddsNothing(b: Snapshot)
    ensures Adds(b, b, [])
  {
    assert b.meaning == b.meaning + [][..0];
  }

  lemma AddsOne(b: Snapshot, a: Snapshot, c: Clause)
    requires b.vt <= a.vt && (a.ok ==> b.ok) && a.meaning == b.meaning + (if b.ok then [c] else [])
    requires b.ok && !a.ok ==> Refuted(a.meaning)
    ensures Adds(b, a, [c])
  {
    assert [c][..1] == [c] && [c][..0] == [];
    assert a.meaning == b.meaning + [c][..if b.ok then 1 else 0];
  }

  lemma AddsMore(b: Snapshot, m: Snapshot, a: Snapshot, cs: seq<Clause>, ds: seq<Clause>)
    requires Adds(b, m, cs) && Adds(m, a, ds)
    ensures Adds(b, a, cs + ds)
  {
    var n: nat :| n <= |cs| && m.meaning == b.meaning + cs[..n] && (m.ok ==> n == |cs|) && (!b.ok ==> n == 0);
    var k: nat :| k <= |ds| && a.meaning == m.meaning + ds[..k] && (a.ok ==> k == |ds|) && (!m.ok ==> k == 0);
    var r: nat := n + k;
    AddsPrefix(b.meaning, m.meaning, a.meaning, cs, ds, n, k, r);
    hide Refuted;
    assert r <= |cs + ds| && (a.ok ==> r == |cs + ds|) && (!b.ok ==> r == 0);
  }

  lemma AddsPrefix(b: seq<Clause>, m: seq<Clause>, a: seq<Clause>, cs: seq<Clause>, ds: seq<Clause>, n: nat, k: nat,
                   r: nat)
    requires n <= |cs| && k <= |ds| && m == b + cs[..n] && a == m + ds[..k]
    requires if n == |cs| then r == n + k else k == 0 && r == n
    ensures a == b + (cs + ds)[..r] && (k == 0 ==> a == m)
  {
    PrefixSum(cs, ds, n, k);
  }

  lemma PrefixSum<T>(cs: seq<T>, ds: seq<T>, n: nat, k: nat)
    requires n <= |cs| && k <= |ds|
    ensures n == |cs| ==> (cs + ds)[..n + k] == cs[..n] + ds[..k]
    ensures k == 0 ==> (cs + ds)[..n] == cs[..n] + ds[..k]
  {
  }

  /** New variables alone. */
  lemma AddsVars(b: Snapshot, a: Snapshot)
    requires b.vt <= a.vt && a.ok == b.ok && a.meaning == b.meaning
    ensures Adds(b, a, [])
  {
    assert a.meaning == b.meaning + [][..0];
  }

  /** What valuations satisfy after an addition. */
  lemma AddsMeaning(b: Snapshot, a: Snapshot, cs: seq<Clause>, tau: Valuation)
    requires Adds(b, a, cs)
    ensures Sat(a.meaning, tau) ==> Sat(b.meaning, tau)
    ensures a.ok && Sat(a.meaning, tau) ==> Sat(cs, tau)
    ensures Sat(b.meaning, tau) && Sat(cs, tau) ==> Sat(a.meaning, tau)
  {
    var n: nat :| n <= |cs| && a.meaning == b.meaning + cs[..n] && (a.ok ==> n == |cs|) && (!b.ok ==> n == 0);
    SatConcat(b.meaning, cs[..n], tau);
    if a.ok { assert cs[..n] == cs; }
    if Sat(cs, tau) { SatPrefix(cs, n, tau); }
  }

  function GuardOf(id: nat): Term {
    if id == 0 then True else Var(Guard(id), Bool)
  }

  /** The solver's literal stands for a signed term. */
  ghost predicate Stands(vt: seq<Term>, l: Lit, a: PtAsgn) {
    InRange(vt, l) && AsSigned(vt, l) == a
  }

  ghost predicate StandFor(vt: seq<Term>, c: seq<Lit>, d: Clause) {
    ClauseInRange(vt, c) && AsClause(vt, c) == d
  }

  lemma StandForGrow(vt: seq<Term>, more: seq<Term>, c: seq<Lit>, d: Clause)
    requires StandFor(vt, c, d) && vt <= more
    ensures StandFor(more, c, d)
  {
    AsClauseGrow(vt, more, c);
  }

  lemma StandForPush(vt: seq<Term>, c: seq<Lit>, d: Clause, l: Lit, a: PtAsgn)
    requires StandFor(vt, c, d) && Stands(vt, l, a)
    ensures StandFor(vt, c + [l], d + [a])
  {
    assert ClauseInRange(vt, c + [l]);
  }

  lemma StandForOne(vt: seq<Term>, l: Lit, a: PtAsgn)
    requires Stands(vt, l, a)
    ensures StandFor(vt, [l], [a])
  {
    assert ClauseInRange(vt, [l]);
  }

  lemma StandForNone(vt: seq<Term>)
    ensures StandFor(vt, [], [])
  {
  }
}
