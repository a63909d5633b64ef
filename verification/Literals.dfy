/**
 Literals of the SAT solver and of resolution proofs, and the truth of clauses.
 */
module Literals {

  /** A variable, negated if sgn is set. */
  datatype Lit = Lit(v: nat, sgn: bool) {
    /** Literals are ordered by this number. */
    function Code(): nat {
      2 * v + if sgn then 1 else 0
    }
  }

  function Neg(l: Lit): Lit {
    Lit(l.v, !l.sgn)
  }

  type Assignment = nat -> bool

  ghost predicate LitTrue(l: Lit, sigma: Assignment) {
    sigma(l.v) != l.sgn
  }

  ghost predicate ClauseTrue(c: seq<Lit>, sigma: Assignment) {
    exists i :: 0 <= i < |c| && LitTrue(c[i], sigma)
  }

  lemma ClauseTrueBy(c: seq<Lit>, sigma: Assignment)
    ensures ClauseTrue(c, sigma) <==> exists l :: l in c && LitTrue(l, sigma)
  {
    if l :| l in c && LitTrue(l, sigma) {
      var i :| 0 <= i < |c| && c[i] == l;
      assert LitTrue(c[i], sigma);
    }
  }

  lemma CodeUnique(k: Lit, l: Lit)
    ensures k == l <==> k.Code() == l.Code()
  {
  }
}
