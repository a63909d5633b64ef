/**
 The one-to-one map between positive Boolean terms and SAT variables, and the SAT solver as
 a clause set with sound oracles.
 */
module TermMapping {
  import opened Terms
  import opened Facts
  import opened Clauses
  import opened Literals

  ghost predicate AllClausesTrue(cs: seq<seq<Lit>>, sigma: Assignment) {
    forall i :: 0 <= i < |cs| ==> ClauseTrue(cs[i], sigma)
  }

  // ---------- literals as signed terms ----------

  predicate InRange(vt: seq<Term>, l: Lit) {
    l.v < |vt|
  }

  ghost predicate ClauseInRange(vt: seq<Term>, c: seq<Lit>) {
    forall i :: 0 <= i < |c| ==> InRange(vt, c[i])
  }

  ghost predicate AllInRange(vt: seq<Term>, cs: seq<seq<Lit>>) {
    forall i :: 0 <= i < |cs| ==> ClauseInRange(vt, cs[i])
  }

  function AsSigned(vt: seq<Term>, l: Lit): PtAsgn
    requires InRange(vt, l)
  {
    PtAsgn(vt[l.v], !l.sgn)
  }

  ghost function AsClause(vt: seq<Term>, c: seq<Lit>): (r: Clause)
    requires ClauseInRange(vt, c)
    ensures |r| == |c| && forall i :: 0 <= i < |c| ==> r[i] == AsSigned(vt, c[i])
  {
    seq(|c|, i requires 0 <= i < |c| => AsSigned(vt, c[i]))
  }

  ghost function AsClauses(vt: seq<Term>, cs: seq<seq<Lit>>): (r: seq<Clause>)
    requires AllInRange(vt, cs)
    ensures |r| == |cs| && forall i :: 0 <= i < |cs| ==> r[i] == AsClause(vt, cs[i])
  {
    seq(|cs|, i requires 0 <= i < |cs| => AsClause(vt, cs[i]))
  }

  /** More variables do not change the meaning of the clauses there are. */
  lemma AsClausesGrow(vt: seq<Term>, more: seq<Term>, cs: seq<seq<Lit>>)
    requires vt <= more && AllInRange(vt, cs)
    ensures AllInRange(more, cs) && AsClauses(more, cs) == AsClauses(vt, cs)
  {
    forall i | 0 <= i < |cs| ensures ClauseInRange(more, cs[i]) && AsClause(more, cs[i]) == AsClause(vt, cs[i]) {
      AsClauseGrow(vt, more, cs[i]);
    }
  }

  lemma AsClauseGrow(vt: seq<Term>, more: seq<Term>, c: seq<Lit>)
    requires vt <= more && ClauseInRange(vt, c)
    ensures ClauseInRange(more, c) && AsClause(more, c) == AsClause(vt, c)
  {
    assert forall i :: 0 <= i < |c| ==> InRange(vt, c[i]);
  }

  /** The two directions of the map are inverse to each other, over positive terms. */
  ghost predicate Inverse(vt: seq<Term>, tv: map<Term, nat>) {
    && (forall v :: 0 <= v < |vt| ==> vt[v] in tv && tv[vt[v]] == v && !vt[v].Not?)
    && (forall t :: t in tv ==> tv[t] < |vt| && vt[tv[t]] == t)
  }

  /** The assignment a valuation of terms amounts to. */
  ghost function Pull(vt: seq<Term>, tau: Valuation): Assignment {
    (v: nat) => v < |vt| && tau(vt[v])
  }

  /** The valuation an assignment amounts to; terms without a variable take theirs from rest. */
  ghost function Lift(tv: map<Term, nat>, sigma: Assignment, rest: Valuation): Valuation {
    t => if t in tv then sigma(tv[t]) else rest(t)
  }

  lemma PullClauses(vt: seq<Term>, cs: seq<seq<Lit>>, tau: Valuation)
    requires AllInRange(vt, cs)
    ensures AllClausesTrue(cs, Pull(vt, tau)) <==> Sat(AsClauses(vt, cs), tau)
  {
    var sigma := Pull(vt, tau);
    forall i | 0 <= i < |cs| ensures ClauseTrue(cs[i], sigma) <==> ClauseHolds(AsClauses(vt, cs)[i], tau) {
      SameClause(vt, cs[i], sigma, tau);
    }
  }

  /** Because no two variables stand for one term, every assignment comes from a valuation. */
  lemma LiftClauses(vt: seq<Term>, tv: map<Term, nat>, cs: seq<seq<Lit>>, sigma: Assignment, rest: Valuation)
    requires AllInRange(vt, cs) && Inverse(vt, tv)
    ensures AllClausesTrue(cs, sigma) <==> Sat(AsClauses(vt, cs), Lift(tv, sigma, rest))
  {
    var tau := Lift(tv, sigma, rest);
    forall i | 0 <= i < |cs| ensures ClauseTrue(cs[i], sigma) <==> ClauseHolds(AsClauses(vt, cs)[i], tau) {
      SameClause(vt, cs[i], sigma, tau);
    }
  }

  lemma SameClause(vt: seq<Term>, c: seq<Lit>, sigma: Assignment, tau: Valuation)
    requires ClauseInRange(vt, c) && forall v :: 0 <= v < |vt| ==> sigma(v) == tau(vt[v])
    ensures ClauseTrue(c, sigma) <==> ClauseHolds(AsClause(vt, c), tau)
  {
    var d := AsClause(vt, c);
    forall i | 0 <= i < |c| ensures LitTrue(c[i], sigma) <==> LitHolds(d[i], tau) {
      assert InRange(vt, c[i]);
    }
  }

  class TermMapper {
    var varToTerm: seq<Term>
    var termToVar: map<Term, nat>
    var frozen: seq<bool>

    ghost predicate Valid()
      reads this
    {
      |frozen| == |varToTerm| && Inverse(varToTerm, termToVar)
    }

    constructor ()
      ensures Valid() && varToTerm == [] && termToVar == map[]
    {
      varToTerm, termToVar, frozen := [], map[], [];
    }

    /** A new variable for a term that has none. */
    method AddBinding(tr: Term) returns (v: nat)
      requires Valid() && Pure(tr).tr !in termToVar
      modifies this
      ensures Valid() && v == |old(varToTerm)|
      ensures varToTerm == old(varToTerm) + [Pure(tr).tr] && termToVar == old(termToVar)[Pure(tr).tr := v]
    {
      var p, sgn := Purify(tr);
      v := |varToTerm|;
      termToVar := termToVar[p := v];
      varToTerm := varToTerm + [p];
      frozen := frozen + [false];
    }

    method SetFrozen(v: nat)
      requires Valid() && v < |varToTerm|
      modifies this`frozen
      ensures Valid() && frozen == old(frozen)[v := true]
    {
      frozen := frozen[v := true];
    }

    /** The literal of a term, with the sign of its negations; its variable is created if needed. */
    method GetOrCreateLit(ptr: Term) returns (l: Lit)
      requires Valid()
      modifies this
      ensures Valid() && InRange(varToTerm, l) && AsSigned(varToTerm, l) == Pure(ptr)
      ensures varToTerm == old(varToTerm) + if Pure(ptr).tr in old(termToVar) then [] else [Pure(ptr).tr]
    {
      var p, positive := Purify(ptr);
      assert Pure(p).tr == p;
      var v;
      if p in termToVar {
        v := termToVar[p];
      } else {
        v := AddBinding(p);
      }
      l := Lit(v, !positive);
    }
  }

  // ---------- the solver ----------

  datatype Answer = Satisfiable | Unsatisfiable(conflictFrame: nat) | Unknown

  /** The assignment agrees with a model on every atom that has a variable. */
  ghost predicate AtomModel(vt: seq<Term>, sigma: Assignment, m: Model) {
    forall v :: 0 <= v < |vt| && !Connective(vt[v]) ==> (sigma(v) <==> Holds(vt[v], m))
  }

  /** How many of the first n assumptions are negative: those of enabled frames. */
  function Enabled(assumps: seq<Lit>, n: nat): nat
    requires n <= |assumps|
  {
    if n == 0 then 0 else Enabled(assumps, n - 1) + if assumps[n - 1].sgn then 1 else 0
  }

  /** The positive assumptions hold, and so do the first k negative ones. */
  ghost predicate AssumptionsUpTo(assumps: seq<Lit>, k: nat, sigma: Assignment) {
    forall i :: 0 <= i < |assumps| && (assumps[i].sgn ==> Enabled(assumps, i) < k) ==> LitTrue(assumps[i], sigma)
  }

  /** A model of the clauses under some assumptions: an assignment with a model of the theory. */
  ghost predicate Solution(vt: seq<Term>, cs: seq<seq<Lit>>, assumps: seq<Lit>, k: nat, sigma: Assignment, m: Model) {
    AllClausesTrue(cs, sigma) && AssumptionsUpTo(assumps, k, sigma) && AtomModel(vt, sigma, m)
  }

  type Search = (seq<Term>, seq<seq<Lit>>, seq<Lit>) -> Answer

  ghost predicate SoundSearch(search: Search) {
    forall vt, cs, assumps ::
      match search(vt, cs, assumps)
      case Satisfiable => exists sigma, m :: Solution(vt, cs, assumps, |assumps|, sigma, m)
      case Unsatisfiable(k) => k <= Enabled(assumps, |assumps|) && forall sigma, m ::
        !Solution(vt, cs, assumps, k, sigma, m)
      case Unknown => true
  }

  /** The search never gives up. */
  ghost predicate Decides(search: Search) {
    forall vt, cs, assumps :: search(vt, cs, assumps) != Unknown
  }

  /** The level-0 check of added clauses only reports clause sets without a model. */
  type Propagation = seq<seq<Lit>> -> bool

  ghost predicate SoundPropagation(refutes: Propagation) {
    forall cs :: refutes(cs) ==> forall sigma :: !AllClausesTrue(cs, sigma)
  }

  class SatSolver {
    const refutes: Propagation
    const search: Search
    var clauses: seq<seq<Lit>>
    var ok: bool
    var conflictFrame: nat

    ghost predicate Valid() {
      SoundPropagation(refutes) && SoundSearch(search)
    }

    constructor (refutes: Propagation, search: Search)
      requires SoundPropagation(refutes) && SoundSearch(search)
      ensures Valid() && clauses == [] && ok && conflictFrame == 0
    {
      this.refutes, this.search := refutes, search;
      clauses, ok, conflictFrame := [], true, 0;
    }

    /** A solver that is not OK takes no clause; a conflict at level 0 makes it not OK. */
    method AddOriginalSMTClause(c: seq<Lit>) returns (res: bool)
      requires Valid()
      modifies this`clauses, this`ok
      ensures clauses == old(clauses) + if old(ok) then [c] else []
      ensures res == ok && (ok ==> old(ok))
      ensures old(ok) && !ok ==> forall sigma :: !AllClausesTrue(clauses, sigma)
    {
      if !ok { return false; }
      clauses := clauses + [c];
      if refutes(clauses) { ok := false; }
      res := ok;
    }

    method RestoreOK()
      modifies this`ok, this`conflictFrame
      ensures ok && conflictFrame == 0
    {
      ok, conflictFrame := true, 0;
    }

    /** A negative answer leaves the solver not OK and names the last frame of the conflict. */
    method Solve(vt: seq<Term>, assumps: seq<Lit>) returns (r: Answer)
      requires Valid() && ok
      modifies this`ok, this`conflictFrame
      ensures match r
              case Satisfiable => ok && conflictFrame == old(conflictFrame) && exists sigma, m ::
                Solution(vt, clauses, assumps, |assumps|, sigma, m)
              case Unsatisfiable(k) =>
                !ok && conflictFrame == k && k <= Enabled(assumps, |assumps|)
                && forall sigma, m :: !Solution(vt, clauses, assumps, k, sigma, m)
              case Unknown => ok && conflictFrame == old(conflictFrame)
      ensures Decides(search) ==> r != Unknown
    {
      r := search(vt, clauses, assumps);
      if r.Unsatisfiable? {
        ok, conflictFrame := false, r.conflictFrame;
      }
    }
  }
}
