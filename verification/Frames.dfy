/**
 The frame stack of MainSolver: push, pop, insertion and checks, with flags for what is known
 to be unsatisfiable, over the guarded clauses of the converter.
 */
module Frames {
  import opened Sequences
  import opened Terms
  import opened Clauses
  import opened TermMapping
  import opened GuardedClauses
  import opened ClauseShapes
  import opened NestedBooleans
  import opened CnfCaches
  import opened FrameAssumptions
  import opened Conversion
  import opened TreeOps
  import EqTransitivity
  import Facts
  import IncomingEdges
  import IteElimination
  import MaxArity
  import Simplification

  datatype Status = Sat | Unsat | Undef

  /** An assertion level: its formulas, their simplified conjunction with the lower levels, a flag. */
  datatype PushFrame = PushFrame(id: nat, formulas: seq<Term>, root: Option<Term>, unsat: bool)

  /** A model satisfies all formulas of frames 0 to i. */
  ghost predicate PrefixHolds(frames: seq<PushFrame>, i: int, m: Model) {
    forall j, f :: 0 <= j <= i && j < |frames| && f in frames[j].formulas ==> Holds(f, m)
  }

  /** A model satisfies all formulas on the stack. */
  ghost predicate StackHolds(frames: seq<PushFrame>, m: Model) {
    PrefixHolds(frames, |frames| - 1, m)
  }

  ghost predicate PrefixUnsat(frames: seq<PushFrame>, i: int) {
    forall m: Model :: !PrefixHolds(frames, i, m)
  }

  /** No guard of a frame occurs in a formula of the user. */
  ghost predicate UserTerm(f: Term) {
    WellFormed(f) && forall x :: x in Vars(f) ==> x.Var? && !x.name.Guard?
  }

  ghost predicate UserFormula(f: Term) {
    UserTerm(f) && IsBool(f)
  }

  /** A term as the user writes it, without the variables of the preprocessing. */
  ghost predicate InputTerm(f: Term) {
    WellFormed(f) && forall x :: x in Vars(f) ==> x.Var? && x.name.User?
  }

  ghost predicate Stacked(frames: seq<PushFrame>, idCounter: nat) {
    && |frames| > 0 && frames[0].id == 0
    && (forall i :: 0 <= i < |frames| ==> frames[i].id < idCounter)
    && (forall i, j :: 0 <= i < j < |frames| ==> frames[i].id < frames[j].id)
    && (forall i, f :: 0 <= i < |frames| && f in frames[i].formulas ==> UserFormula(f))
  }

  /** Unsatisfiability flags are right, and go up the stack. */
  ghost predicate FlagsRight(frames: seq<PushFrame>) {
    && (forall i, j :: 0 <= i < j < |frames| && frames[i].unsat ==> frames[j].unsat)
    && (forall i :: 0 <= i < |frames| && frames[i].unsat ==> PrefixUnsat(frames, i))
  }

  ghost predicate RootMeans(frames: seq<PushFrame>, i: int, root: Term) {
    WellFormed(root) && IsBool(root) && forall m: Model :: Holds(root, m) <==> PrefixHolds(frames, i, m)
  }

  /** The formula is the root with its nested connectives merged; an atom stays as it is. */
  ghost predicate Widened(root: Term, fla: Term, rank: Order) {
    if BooleanOperator(root) then
      exists expanded :: IncomingEdges.AllEdges(root, expanded)
                         && fla == MaxArity.Merged(root, MaxArity.HeldTwice(root, expanded), rank)
    else fla == root
  }

  ghost predicate Equivalent(fla: Term, root: Term) {
    WellFormed(fla) && IsBool(fla) && forall m: Model :: Holds(fla, m) <==> Holds(root, m)
  }

  /** The solver was given a formula that says what the root says. */
  ghost predicate GivenFor(asserted: Cache, cnfized: Cache, root: Term, g: Term) {
    exists fla :: Equivalent(fla, root) && GivenTo(asserted, cnfized, fla, g)
  }

  /** The frame's root says what the frames up to it say, and the solver was given it. */
  ghost predicate Ready(frames: seq<PushFrame>, i: nat, asserted: Cache, cnfized: Cache, frameTerms: seq<Term>)
    requires i < |frames|
  {
    && frames[i].root.Some? && RootMeans(frames, i, frames[i].root.value)
    && GivenFor(asserted, cnfized, frames[i].root.value, GuardOf(frames[i].id))
    && frames[i].id < |frameTerms| && frameTerms[frames[i].id] == GuardOf(frames[i].id)
  }

  ghost predicate SimplifiedTo(frames: seq<PushFrame>, n: nat, asserted: Cache, cnfized: Cache, frameTerms: seq<Term>) {
    n <= |frames| && forall i: nat :: i < n && !frames[i].unsat ==> Ready(frames, i, asserted, cnfized, frameTerms)
  }

  /** Frames that made the solver not OK are flagged; frames to come have not. */
  ghost predicate Alive(frames: seq<PushFrame>, idCounter: nat, dead: set<Term>) {
    && (forall i :: 0 <= i < |frames| && !frames[i].unsat ==> GuardOf(frames[i].id) !in dead)
    && (forall id: nat :: idCounter <= id ==> GuardOf(id) !in dead)
  }

  /** Every guard is on, or its frame is on the stack and all formulas up to it hold. */
  ghost predicate Admits(frames: seq<PushFrame>, idCounter: nat, m: Model) {
    PrefixHolds(frames, 0, m) && forall id: nat :: 0 < id < idCounter ==> GuardExcused(frames, id, m)
  }

  ghost predicate GuardExcused(frames: seq<PushFrame>, id: nat, m: Model) {
    Holds(GuardOf(id), m) || exists p :: 0 <= p < |frames| && frames[p].id == id && PrefixHolds(frames, p, m)
  }

  /** The clauses hold in every model that the stack admits. */
  ghost predicate Complete(frames: seq<PushFrame>, idCounter: nat, meaning: seq<Clause>) {
    forall m: Model :: Admits(frames, idCounter, m) ==> Clauses.Sat(meaning, OfModel(m))
  }

  /** What the converter has been given: caches, frame terms, dead guards, clauses. */
  datatype View = View(asserted: Cache, cnfized: Cache, frameTerms: seq<Term>, dead: set<Term>, meaning: seq<Clause>)

  /** The invariant of the stack. */
  ghost predicate StackOk(frames: seq<PushFrame>, idCounter: nat, n: nat, v: View) {
    && Stacked(frames, idCounter) && FlagsRight(frames)
    && SimplifiedTo(frames, n, v.asserted, v.cnfized, v.frameTerms)
    && Alive(frames, idCounter, v.dead) && Complete(frames, idCounter, v.meaning)
  }

  /** A solver that is not OK means a flag on the top frame. */
  ghost predicate OkFlags(frames: seq<PushFrame>, ok: bool, conflictFrame: nat) {
    |frames| > 0 && (!ok ==> frames[|frames| - 1].unsat) && (ok ==> conflictFrame == 0)
  }

  // ---------- models and guards ----------

  /** The model with the guards of frames 1 to k off and all others on. */
  ghost function WithGuards(m: Model, frames: seq<PushFrame>, k: int): Model {
    m.(bools := (n: Name) => if n.Guard? then !(exists p :: 0 < p <= k && p < |frames| && frames[p].id == n.frame)
       else m.bools(n))
  }

  lemma GuardsApart(f: Term, m: Model, frames: seq<PushFrame>, k: int)
    requires UserFormula(f)
    ensures Holds(f, WithGuards(m, frames, k)) <==> Holds(f, m)
  {
    EvalAgree(f, m, WithGuards(m, frames, k));
  }

  lemma PrefixApart(frames: seq<PushFrame>, idCounter: nat, i: int, m: Model, k: int)
    requires Stacked(frames, idCounter)
    ensures PrefixHolds(frames, i, WithGuards(m, frames, k)) <==> PrefixHolds(frames, i, m)
  {
    forall j, f | 0 <= j <= i && j < |frames| && f in frames[j].formulas
      ensures Holds(f, WithGuards(m, frames, k)) <==> Holds(f, m)
    {
      GuardsApart(f, m, frames, k);
    }
  }

  lemma GuardValue(id: nat, m: Model, frames: seq<PushFrame>, k: int)
    requires id > 0
    ensures Holds(GuardOf(id), WithGuards(m, frames, k)) <==>
      !(exists p :: 0 < p <= k && p < |frames| && frames[p].id == id)
  {
  }

  /** A model of the formulas up to frame k is admitted once the guards are set. */
  lemma GuardsAdmit(frames: seq<PushFrame>, idCounter: nat, k: nat, m: Model)
    requires Stacked(frames, idCounter) && k < |frames| && PrefixHolds(frames, k, m)
    ensures Admits(frames, idCounter, WithGuards(m, frames, k))
  {
    var n := WithGuards(m, frames, k);
    PrefixApart(frames, idCounter, 0, m, k);
    forall id: nat | 0 < id < idCounter ensures GuardExcused(frames, id, n) {
      GuardValue(id, m, frames, k);
      if p :| 0 < p <= k && p < |frames| && frames[p].id == id {
        PrefixApart(frames, idCounter, p, m, k);
        assert PrefixHolds(frames, p, n);
      }
    }
  }

  /** If the clauses have no model, neither have the formulas of the bottom frame. */
  lemma RefutedBottom(frames: seq<PushFrame>, idCounter: nat, meaning: seq<Clause>)
    requires Stacked(frames, idCounter) && Complete(frames, idCounter, meaning) && Refuted(meaning)
    ensures forall i :: 0 <= i < |frames| ==> PrefixUnsat(frames, i)
  {
    forall i, m: Model | 0 <= i < |frames| ensures !PrefixHolds(frames, i, m) {
      if PrefixHolds(frames, i, m) {
        GuardsAdmit(frames, idCounter, 0, m);
      }
    }
  }

  /** If no model enables the frames up to position k, their formulas have no model. */
  lemma ConflictPrefix(frames: seq<PushFrame>, idCounter: nat, meaning: seq<Clause>, frameTerms: seq<Term>,
                       en: seq<nat>, k: nat)
    requires Stacked(frames, idCounter) && Complete(frames, idCounter, meaning)
    requires FrameTerms(frameTerms) && k < |frames| == |en| && forall i :: 0 <= i < |en| ==> en[i] == frames[i].id
    requires forall i :: 0 < i < |en| ==> en[i] < |frameTerms| && frameTerms[en[i]] == GuardOf(en[i])
    requires forall m: Model :: !(Clauses.Sat(meaning, OfModel(m)) && FramesUpTo(frameTerms, en, k, OfModel(m)))
    ensures PrefixUnsat(frames, k)
  {
    forall m: Model ensures !PrefixHolds(frames, k, m) {
      if PrefixHolds(frames, k, m) {
        var n := WithGuards(m, frames, k);
        GuardsAdmit(frames, idCounter, k, m);
        GuardsOff(frames, idCounter, frameTerms, en, k, m);
      }
    }
  }

  lemma GuardsOff(frames: seq<PushFrame>, idCounter: nat, frameTerms: seq<Term>, en: seq<nat>, k: nat, m: Model)
    requires Stacked(frames, idCounter) && FrameTerms(frameTerms)
    requires k < |frames| == |en| && forall i :: 0 <= i < |en| ==> en[i] == frames[i].id
    requires forall i :: 0 < i < |en| ==> en[i] < |frameTerms| && frameTerms[en[i]] == GuardOf(en[i])
    ensures FramesUpTo(frameTerms, en, k, OfModel(WithGuards(m, frames, k)))
  {
    var n := WithGuards(m, frames, k);
    forall i: nat | i < |frameTerms| && frameTerms[i] != True && i !in en ensures Holds(frameTerms[i], n) {
      assert frameTerms[i] == GuardOf(i);
      GuardValue(i, m, frames, k);
      forall p | 0 < p <= k && p < |frames| ensures frames[p].id != i { assert en[p] in en; }
    }
    forall p | 0 < p < |en| && p <= k ensures !Holds(frameTerms[en[p]], n) {
      assert frames[0].id < frames[p].id;
      GuardValue(en[p], m, frames, k);
    }
  }

  /** A valuation of the clauses that enables a given frame satisfies the frame's root. */
  lemma GivenHolds(meaning: seq<Clause>, asserted: Cache, cnfized: Cache, dead: set<Term>, root: Term, g: Term,
                   tau: Valuation, m: Model)
    requires AssertsKept(meaning, asserted, dead) && GivenTo(asserted, cnfized, root, g)
    requires g !in dead && True !in dead && Clauses.Sat(meaning, tau) && !GuardOn(g, tau)
    requires WellFormed(root) && IsBool(root) && AtomsAgree(tau, m)
    ensures Holds(root, m)
  {
    forall c | c in TopConjuncts(root) ensures PropHolds(c, tau) {
      assert Cached(asserted, c, g);
      assert !GuardOn(True, tau);
    }
    TopConjunctsMeaning(root, tau);
    PropAgree(root, tau, m);
  }

  // ---------- the solver ----------

  /** The stack of one frame that nothing was asserted in. */
  lemma FirstFrame()
    ensures StackOk([PushFrame(0, [True], None, false)], 1, 0, View({}, {}, [True], {}, []))
    ensures Mirrors([[]], [PushFrame(0, [True], None, false)])
  {
  }

  class MainSolver {
    const ts: Cnfizer
    const rank: Order
    var frames: seq<PushFrame>
    /** The frames below this position have been simplified and given to the solver. */
    var simplifiedUntil: nat
    var idCounter: nat
    /** What the user asserted at every level, before the elimination of ites. */
    ghost var asserted: seq<seq<Term>>

    /** The formulas of the frames stand for what the user asserted. */
    ghost predicate Faithful()
      reads this`asserted, this`frames
    {
      Mirrors(asserted, frames)
    }

    ghost predicate Valid()
      reads this`frames, this`idCounter, this`simplifiedUntil, ts, ts.solver, ts.tmap
    {
      && ts.Valid() && ts.WellMapped() && StackOk(frames, idCounter, simplifiedUntil, Given())
      && OkFlags(frames, ts.solver.ok, ts.solver.conflictFrame)
    }

    ghost function Given(): View
      requires ts.WellMapped()
      reads ts, ts.solver, ts.tmap
    {
      View(ts.alreadyAsserted, ts.alreadyCnfized, ts.frameTerms, ts.dead, ts.Snap().meaning)
    }

    constructor (refutes: Propagation, search: Search, rank: Order)
      requires SoundPropagation(refutes) && SoundSearch(search)
      ensures Valid() && Faithful() && asserted == [[]]
      ensures frames == [PushFrame(0, [True], None, false)] && fresh(ts) && fresh(ts.solver) && fresh(ts.tmap)
    {
      var solver := new SatSolver(refutes, search);
      var tmap := new TermMapper();
      ts := new Cnfizer(solver, tmap);
      this.rank := rank;
      frames := [PushFrame(0, [True], None, false)];
      simplifiedUntil, idCounter := 0, 1;
      asserted := [[]];
      new;
      hide *;
      ValidFirst();
    }

    lemma ValidFirst()
      requires ts.Valid() && ts.WellMapped() && Given() == View({}, {}, [True], {}, [])
      requires ts.solver.ok && ts.solver.conflictFrame == 0
      requires frames == [PushFrame(0, [True], None, false)] && idCounter == 1 && simplifiedUntil == 0
        && asserted == [[]]
      ensures Valid() && Faithful()
    {
      FirstFrame();
      hide StackOk;
    }

    /** A new frame; it inherits the flag of the one below. */
    method Push()
      requires Valid() && Faithful()
      modifies this`frames, this`idCounter, this`asserted
      ensures Valid() && Faithful() && asserted == old(asserted) + [[]]
      ensures frames == old(frames) + [PushFrame(old(idCounter), [], None, old(frames[|frames| - 1].unsat))]
    {
      hide *;
      ValidParts();
      FaithfulParts();
      StackSome(frames, idCounter, simplifiedUntil, Given());
      PushOk(frames, idCounter, simplifiedUntil, Given());
      var alreadyUnsat := frames[|frames| - 1].unsat;
      frames := frames + [PushFrame(idCounter, [], None, false)];
      idCounter := idCounter + 1;
      if alreadyUnsat {
        frames := frames[|frames| - 1 := frames[|frames| - 1].(unsat := true)];
      }
      assert frames == old(frames) + [PushFrame(old(idCounter), [], None, alreadyUnsat)];
      PushMirrors(asserted, old(frames), old(idCounter), alreadyUnsat);
      asserted := asserted + [[]];
      PushedFlags(old(frames), old(idCounter), ts.solver.ok, ts.solver.conflictFrame);
      ValidAgain();
      FaithfulAgain();
    }

    /** Drops the top level unless it is the bottom one. */
    method Pop() returns (popped: bool)
      requires Valid() && Faithful()
      modifies this`frames, this`simplifiedUntil, this`asserted, ts.solver`ok, ts.solver`conflictFrame
      ensures Valid() && Faithful() && popped == (|old(frames)| > 1) && |old(asserted)| == |old(frames)|
      ensures frames == if popped then old(frames)[..|old(frames)| - 1] else old(frames)
      ensures asserted == if popped then old(asserted)[..|old(asserted)| - 1] else old(asserted)
      ensures simplifiedUntil == Lesser(old(simplifiedUntil), |frames|)
      ensures ts.solver.ok == (old(ts.solver.ok) || (popped && !frames[|frames| - 1].unsat))
    {
      hide *;
      FaithfulParts();
      PopMirrors(asserted, frames);
      popped := PopFrame();
      if popped { asserted := asserted[..|asserted| - 1]; }
      FaithfulAgain();
    }

    /** Drops the top frame; the solver is usable again if the rest may be satisfiable. */
    method PopFrame() returns (popped: bool)
      requires Valid()
      modifies this`frames, this`simplifiedUntil, ts.solver`ok, ts.solver`conflictFrame
      ensures Valid() && popped == (|old(frames)| > 1)
      ensures frames == if popped then old(frames)[..|old(frames)| - 1] else old(frames)
      ensures simplifiedUntil == Lesser(old(simplifiedUntil), |frames|)
      ensures ts.solver.ok == (old(ts.solver.ok) || (popped && !frames[|frames| - 1].unsat))
    {
      hide *;
      LesserIs(simplifiedUntil, |frames|);
      LesserIs(simplifiedUntil, |frames| - 1);
      ValidParts();
      StackSome(frames, idCounter, simplifiedUntil, Given());
      if |frames| <= 1 { return false; }
      ghost var v, b := Given(), ts.Snap();
      GivenFields();
      PopOk(frames, idCounter, simplifiedUntil, v);
      PopFlags(frames, ts.solver.ok, ts.solver.conflictFrame);
      frames := frames[..|frames| - 1];
      if simplifiedUntil > |frames| { simplifiedUntil := |frames|; }
      if !frames[|frames| - 1].unsat {
        ts.solver.RestoreOK();
      }
      ts.ValidAfter(b);
      GivenFields();
      ValidAgain();
      popped := true;
    }

    /** Eliminates the ites of a formula and adds the result to the top frame; other sorts are refused. */
    method InsertFormula(root: Term) returns (ok: bool)
      requires Valid() && Faithful() && InputTerm(root)
      modifies this`frames, this`simplifiedUntil, this`asserted
      ensures Valid() && Faithful() && ok == IsBool(root) && |old(frames)| == |old(asserted)| > 0
      ensures if ok then InsertedRewritten(old(frames), root, frames, rank) else frames == old(frames)
      ensures simplifiedUntil == if ok then Lesser(old(simplifiedUntil), |frames| - 1) else old(simplifiedUntil)
      ensures asserted == if ok then Asserted(old(asserted), root) else old(asserted)
    {
      hide *;
      ValidParts();
      FaithfulParts();
      MirrorsSome(asserted, frames, idCounter, simplifiedUntil, Given());
      if !IsBool(root) { return false; }
      var fla := WithoutItes(root);
      InsertMirrors(asserted, frames, root, fla);
      InsertsRewritten(frames, root, fla, rank);
      AddToTopFrame(fla);
      asserted := Asserted(asserted, root);
      FaithfulAgain();
      ok := true;
    }

    /** Eliminates the ites of an assertion. */
    method WithoutItes(root: Term) returns (fla: Term)
      requires InputTerm(root) && IsBool(root)
      ensures IteElimination.Rewritten(root, fla) && UserFormula(fla) && IteElimination.Eliminated(root, fla, rank)
    {
      hide *;
      InputParts(root);
      ghost var switches, tops;
      fla, switches, tops := IteElimination.Rewrite(root, rank);
      IteElimination.EliminatedAgain(root, fla, switches, tops, rank);
      RewrittenUser(root, fla);
    }

    /** Adds a formula to the top frame, which has to be simplified again. */
    method AddToTopFrame(fla: Term)
      requires Valid() && UserFormula(fla) && |frames| > 0
      modifies this`frames, this`simplifiedUntil
      ensures Valid() && frames == Inserted(old(frames), fla)
      ensures simplifiedUntil == Lesser(old(simplifiedUntil), |frames| - 1)
    {
      hide *;
      ValidParts();
      var n := |frames| - 1;
      LesserIs(simplifiedUntil, n);
      InsertOk(frames, idCounter, simplifiedUntil, Given(), fla);
      InsertedFlags(frames, fla, ts.solver.ok, ts.solver.conflictFrame);
      frames := frames[n := frames[n].(formulas := frames[n].formulas + [fla], root := None)];
      simplifiedUntil := if simplifiedUntil < n then simplifiedUntil else n;
      ValidAgain();
    }

    /** Flags the frame at the index and all above it. */
    method RememberUnsatFrame(frameIndex: nat)
      requires frameIndex < |frames|
      modifies this`frames
      ensures frames == Flagged(old(frames), frameIndex)
    {
      for i := frameIndex to |frames|
        invariant |frames| == |old(frames)|
        invariant forall j :: 0 <= j < |frames| ==>
                    frames[j] == if frameIndex <= j < i then old(frames)[j].(unsat := true) else old(frames)[j]
      {
        frames := frames[i := frames[i].(unsat := true)];
      }
    }

    /** The conjunction of all formulas of frames 0 to curr. */
    method GetCollateFunction(curr: nat) returns (fla: Term)
      requires Stacked(frames, idCounter) && curr < |frames|
      ensures RootMeans(frames, curr, fla) && Collates(frames, curr, fla, rank)
    {
      var args: seq<Term> := [];
      for i := 0 to curr + 1
        invariant Collated(frames, i, args)
      {
        args := AppendFormulas(args, i);
      }
      fla := MkAnd(args, rank);
      CollatedMeaning(frames, idCounter, curr, args, rank);
    }

    method AppendFormulas(args0: seq<Term>, i: nat) returns (args: seq<Term>)
      requires i < |frames| && Collated(frames, i, args0)
      ensures Collated(frames, i + 1, args)
    {
      args := args0;
      for j := 0 to |frames[i].formulas|
        invariant forall f :: f in args <==> f in args0 || f in frames[i].formulas[..j]
      {
        assert frames[i].formulas[..j + 1] == frames[i].formulas[..j] + [frames[i].formulas[j]];
        args := args + [frames[i].formulas[j]];
      }
      assert frames[i].formulas[..|frames[i].formulas|] == frames[i].formulas;
    }

    /** Adds the diamonds of the collated formula and simplifies the frame by the substitutions of both. */
    method Simplify(curr: nat)
      requires Stacked(frames, idCounter) && curr < |frames|
      modifies this`frames
      ensures exists root :: frames == Rooted(old(frames), curr, root) && RootMeans(frames, curr, root)
                             && Prepared(old(frames), curr, root, rank)
    {
      var coll := GetCollateFunction(curr);
      ghost var all := coll;
      var trans := EqTransitivity.LearnEqTransitivity(coll, rank);
      StrengthenedMeaning(frames, curr, coll, trans, rank);
      coll := MkAnd([coll, trans], rank);
      var root := Simplification.ApplySubstitutionBasedSimplification(coll, rank);
      PreparedAgain(frames, curr, all, trans, root, rank);
      RootedMeaning(frames, curr, root);
      frames := frames[curr := frames[curr].(root := Some(root))];
    }

    /** The state inside a check: no frame is flagged, and a solver that is not OK is refuted. */
    ghost predicate Working(n: nat)
      reads this`frames, this`idCounter, ts, ts.solver, ts.tmap
    {
      && ts.Valid() && ts.WellMapped() && StackOk(frames, idCounter, n, Given()) && Unflagged(frames)
      && ts.solver.conflictFrame == 0 && (!ts.solver.ok ==> Refuted(ts.Snap().meaning))
    }

    /** Merges nested connectives for the conversion. */
    method MaximalArity(root: Term) returns (fla: Term)
      requires WellFormed(root) && IsBool(root)
      ensures Equivalent(fla, root) && Widened(root, fla, rank)
    {
      fla := root;
      if BooleanOperator(root) {
        ghost var expanded;
        fla, expanded := MaxArity.RewriteMaxArityClassic(root, rank);
        assert IncomingEdges.AllEdges(root, expanded);
      }
    }

    /** Simplifies a frame and gives its root to the solver. */
    method GiveFrame(i: nat) returns (status: Status)
      requires Working(i) && i < |frames|
      modifies this`frames, ts, ts.tmap, ts.solver`clauses, ts.solver`ok
      ensures SameFormulas(frames, old(frames)) && (status == Undef || status == Unsat)
      ensures status == Undef ==> Working(i + 1)
      ensures |frames| == |old(frames)|
      ensures exists root :: GivenAs(old(frames), frames, i, root, rank)
      ensures status == Undef ==>
        exists root, fla :: GivenAs(old(frames), frames, i, root, rank) && Widened(root, fla, rank)
                            && GivenTo(ts.alreadyAsserted, ts.alreadyCnfized, fla, GuardOf(frames[i].id))
      ensures status == Unsat ==> Failed(i)
    {
      hide *;
      WorkingParts(i);
      ghost var v0 := Given();
      Simplify(i);
      ghost var rooted :| frames == Rooted(old(frames), i, rooted) && RootMeans(frames, i, rooted)
                          && Prepared(old(frames), i, rooted, rank);
      GivenAsAgain(old(frames), i, rooted, rank);
      RootedOk(old(frames), idCounter, i, v0, rooted);
      UnflaggedAlive(frames, idCounter, i, v0);
      var root, id := frames[i].root.value, frames[i].id;
      var fla := MaximalArity(root);
      ghost var b, ok0 := ts.Snap(), ts.solver.ok;
      ts.SnapOk();
      GivenFields();
      var res := ts.CnfizeAndGiveToSolver(fla, id);
      ts.ValidParts();
      GivenFields();
      ts.SnapOk();
      GaveView(v0, Given(), id, fla, b, ts.Snap());
      GaveEquivalent(v0, Given(), id, fla, root);
      GaveComplete(frames, idCounter, i, v0, Given(), root);
      if root == False || !res {
        status := Unsat;
        FailedPrefix(frames, idCounter, i, Given().meaning, root, b, ts.Snap());
        GiveFails(frames, idCounter, i, v0, Given(), root);
        FailedAgain(i);
      } else {
        status := Undef;
        GivenEquivalent(ts.alreadyAsserted, ts.alreadyCnfized, fla, root, GuardOf(id));
        GiveSucceeds(frames, idCounter, i, v0, Given(), root);
        WorkingAgain(i + 1);
      }
    }

    /** Gives the frames that are not simplified to the solver until one turns out unsatisfiable. */
    method GiveFrames() returns (status: Status)
      requires Working(simplifiedUntil)
      modifies this`frames, this`simplifiedUntil, ts, ts.tmap, ts.solver`clauses, ts.solver`ok
      ensures SameFormulas(frames, old(frames)) && Giving(status, simplifiedUntil)
      ensures status == Undef ==> simplifiedUntil == |frames|
      ensures Advanced(old(frames), old(simplifiedUntil), frames, simplifiedUntil, rank)
      ensures SameFlags(old(frames), frames)
    {
      hide *;
      status := Undef;
      GivingStarts(simplifiedUntil);
      SameAsItself(frames);
      NotAdvanced(frames, simplifiedUntil, rank);
      while simplifiedUntil < |frames| && status != Unsat
        invariant SameFormulas(frames, old(frames)) && simplifiedUntil <= |frames| && Giving(status, simplifiedUntil)
        invariant Advanced(old(frames), old(simplifiedUntil), frames, simplifiedUntil, rank)
        invariant SameFlags(old(frames), frames)
        decreases |frames| - simplifiedUntil
      {
        ghost var before := frames;
        GivingParts(status, simplifiedUntil);
        status := GiveFrame(simplifiedUntil);
        SameFormulasOn(old(frames), before, frames);
        ghost var root :| GivenAs(before, frames, simplifiedUntil, root, rank);
        AdvancedOne(old(frames), old(simplifiedUntil), before, simplifiedUntil, frames, root, rank);
        simplifiedUntil := simplifiedUntil + 1;
        GivingAgain(status, simplifiedUntil);
      }
      GivingParts(status, simplifiedUntil);
    }

    /** All frames below n were given to the solver, or the last of them failed. */
    ghost predicate Giving(status: Status, n: nat)
      reads this`frames, this`idCounter, ts, ts.solver, ts.tmap
    {
      (status == Undef && Working(n)) || (status == Unsat && n > 0 && Failed(n - 1))
    }

    lemma GivingStarts(n: nat)
      requires Working(n)
      ensures Giving(Undef, n) && n <= |frames|
    {
    }

    lemma GivingParts(status: Status, n: nat)
      requires Giving(status, n)
      ensures status == Undef || status == Unsat
      ensures status == Undef ==> Working(n)
      ensures status == Unsat ==> n > 0 && Failed(n - 1)
    {
    }

    lemma GivingAgain(status: Status, n: nat)
      requires n > 0 && (status == Undef || status == Unsat)
      requires (status == Undef ==> Working(n)) && (status == Unsat ==> Failed(n - 1))
      ensures Giving(status, n)
    {
    }

    /** Frame k turned out unsatisfiable while it was given to the solver. */
    ghost predicate Failed(k: nat)
      reads this`frames, this`idCounter, ts, ts.solver, ts.tmap
    {
      ts.Valid() && ts.WellMapped() && StackFailed(frames, idCounter, k, Given())
    }

    /** Simplifies all frames that are not, until one turns out unsatisfiable; flags that one. */
    method SimplifyFormulas() returns (status: Status)
      requires Working(simplifiedUntil)
      modifies this`frames, this`simplifiedUntil, ts, ts.tmap, ts.solver`clauses, ts.solver`ok
      ensures SameFormulas(frames, old(frames)) && (status == Undef || status == Unsat)
      ensures status == Undef ==> Working(simplifiedUntil) && simplifiedUntil == |frames|
      ensures status == Unsat ==> Flagging(simplifiedUntil)
      ensures Advanced(old(frames), old(simplifiedUntil), frames, simplifiedUntil, rank)
      ensures status == Unsat ==> simplifiedUntil > 0 && FlaggedFrom(frames, simplifiedUntil - 1)
      ensures status == Undef ==> Unflagged(frames)
    {
      hide *;
      WorkingParts(simplifiedUntil);
      status := GiveFrames();
      NoFlags(old(frames), frames);
      GivingParts(status, simplifiedUntil);
      if status == Unsat {
        ghost var before := frames;
        FlagFrom(simplifiedUntil - 1);
        AdvancedFlags(old(frames), old(simplifiedUntil), before, simplifiedUntil, simplifiedUntil - 1, rank);
        SameFormulasOn(old(frames), before, frames);
      }
    }

    /** The invariant with a flag on the top frame. */
    ghost predicate Flagging(n: nat)
      reads this`frames, this`idCounter, ts, ts.solver, ts.tmap
    {
      ts.Valid() && ts.WellMapped() && StackOk(frames, idCounter, n, Given()) && |frames| > 0
        && frames[|frames| - 1].unsat
    }

    method FlagFrom(k: nat)
      requires Failed(k)
      modifies this`frames
      ensures SameFormulas(frames, old(frames)) && Flagging(k + 1) && frames == Flagged(old(frames), k)
    {
      FlagFailed(frames, idCounter, k, Given());
      FlaggedSame(frames, k);
      hide StackOk, StackFailed, SameFormulas;
      RememberUnsatFrame(k);
    }

    method FlagConflictFrame(ghost n: nat)
      requires ts.Valid() && ts.WellMapped() && StackOk(frames, idCounter, n, Given())
      requires ts.solver.conflictFrame < |frames| && PrefixUnsat(frames, ts.solver.conflictFrame)
      modifies this`frames
      ensures SameFormulas(frames, old(frames)) && Flagging(n)
      ensures frames == Flagged(old(frames), ts.solver.conflictFrame)
    {
      FlagConflict(frames, idCounter, n, Given(), ts.solver.conflictFrame);
      FlaggedSame(frames, ts.solver.conflictFrame);
      hide StackOk, PrefixUnsat, SameFormulas;
      RememberUnsatFrame(ts.solver.conflictFrame);
    }

    /** The start of a check: the constants are given to the solver. */
    method Begin()
      requires Valid() && |frames| > 0 && !frames[|frames| - 1].unsat
      modifies ts.tmap, ts.solver`clauses, ts.solver`ok
      ensures Working(simplifiedUntil)
    {
      hide *;
      ValidParts();
      StackSome(frames, idCounter, simplifiedUntil, Given());
      ghost var v, b := Given(), ts.Snap();
      GivenFields();
      OkStart(frames, ts.solver.ok, ts.solver.conflictFrame);
      ts.SnapOk();
      ts.Initialize();
      ts.ValidParts();
      ts.SnapOk();
      GivenFields();
      EvolvesRefuted(b, ts.Snap());
      InitializedOk(frames, idCounter, simplifiedUntil, v, Given());
      WorkingAgain(simplifiedUntil);
    }

    /** Asks the solver, with the frames of the stack enabled. */
    method Solve() returns (status: Status)
      requires Working(|frames|)
      modifies ts.tmap, ts.solver`ok, ts.solver`conflictFrame
      ensures ts.Valid() && ts.WellMapped() && StackOk(frames, idCounter, |frames|, Given())
      ensures match status
              case Sat => ts.solver.ok && ts.solver.conflictFrame == 0 && exists m: Model :: StackHolds(frames, m)
              case Unsat => !ts.solver.ok && ts.solver.conflictFrame < |frames|
                            && PrefixUnsat(frames, ts.solver.conflictFrame)
              case Undef => ts.solver.ok && ts.solver.conflictFrame == 0
      ensures Decides(ts.solver.search) ==> status != Undef
    {
      hide *;
      WorkingParts(|frames|);
      if !ts.solver.ok {
        RefutedStack(frames, idCounter, |frames|, Given());
        return Unsat;
      }
      var enFrames := FrameIds();
      EnabledReady(frames, idCounter, Given(), enFrames);
      ghost var v := Given();
      GivenFields();
      ConverterParts();
      var r := ts.Solve(enFrames);
      GivenFields();
      assert Given() == v;
      match r
      case Satisfiable =>
        status := Sat;
        ghost var tau, m :| FrameModel(ts.Snap().meaning, ts.frameTerms, enFrames, tau, m);
        StackModel(frames, idCounter, Given(), enFrames, tau, m);
      case Unsatisfiable(k) =>
        status := Unsat;
        ConflictStack(frames, idCounter, Given(), enFrames, k);
      case Unknown =>
        status := Undef;
    }

    method FrameIds() returns (ids: seq<nat>)
      ensures |ids| == |frames| && forall i :: 0 <= i < |ids| ==> ids[i] == frames[i].id
    {
      ids := [];
      for i := 0 to |frames|
        invariant |ids| == i && forall j :: 0 <= j < i ==> ids[j] == frames[j].id
      {
        ids := ids + [frames[i].id];
      }
    }

    /**
     Checks what the user has asserted: a positive answer means that all assertions on the
     stack have a common model, a negative one that they have none.
     */
    method Check() returns (status: Status)
      requires Valid() && Faithful()
      modifies this`frames, this`simplifiedUntil, ts, ts.tmap, ts.solver`clauses, ts.solver`ok, ts.solver`conflictFrame
      ensures Valid() && Faithful() && SameFormulas(frames, old(frames))
      ensures status == Sat ==> exists m: Model :: AssertionsHold(asserted, m)
      ensures status == Unsat ==> forall m: Model :: !AssertionsHold(asserted, m)
      ensures Decides(ts.solver.search) ==> status != Undef
      ensures Decides(ts.solver.search) ==> (status == Sat <==> exists m: Model :: AssertionsHold(asserted, m))
      ensures |old(frames)| > 0
        && Checked(old(frames), old(simplifiedUntil), frames, simplifiedUntil, status, ts.solver.conflictFrame, rank)
    {
      hide *;
      ghost var before := frames;
      FaithfulParts();
      status := CheckStack();
      MirrorsSame(asserted, before, frames);
      FaithfulAgain();
      MirrorAnswer(asserted, before, status);
    }

    lemma FaithfulParts()
      requires Faithful()
      ensures Mirrors(asserted, frames)
    {
    }

    lemma FaithfulAgain()
      requires Mirrors(asserted, frames)
      ensures Faithful()
    {
    }

    /**
     Checks the stack. A positive answer comes with a model of all formulas on the stack, a
     negative one means there is none.
     */
    method CheckStack() returns (status: Status)
      requires Valid()
      modifies this`frames, this`simplifiedUntil, ts, ts.tmap, ts.solver`clauses, ts.solver`ok, ts.solver`conflictFrame
      ensures Valid() && SameFormulas(frames, old(frames))
      ensures status == Sat ==> exists m: Model :: StackHolds(old(frames), m)
      ensures status == Unsat ==> forall m: Model :: !StackHolds(old(frames), m)
      ensures Decides(ts.solver.search) ==> status != Undef
      ensures |old(frames)| > 0
        && Checked(old(frames), old(simplifiedUntil), frames, simplifiedUntil, status, ts.solver.conflictFrame, rank)
    {
      hide *;
      ValidParts();
      StackSome(frames, idCounter, simplifiedUntil, Given());
      if frames[|frames| - 1].unsat {
        CheckedTop(frames, simplifiedUntil, ts.solver.conflictFrame, rank);
        SameAsItself(frames);
        TopFlagged(frames, idCounter, simplifiedUntil, Given());
        return Unsat;
      }
      status := CheckUnflagged();
      CheckedNoTop(old(frames), old(simplifiedUntil), frames, simplifiedUntil, status, ts.solver.conflictFrame, rank);
    }

    method CheckUnflagged() returns (status: Status)
      requires Valid() && |frames| > 0 && !frames[|frames| - 1].unsat
      modifies this`frames, this`simplifiedUntil, ts, ts.tmap, ts.solver`clauses, ts.solver`ok, ts.solver`conflictFrame
      ensures Valid() && SameFormulas(frames, old(frames))
      ensures status == Sat ==> exists m: Model :: StackHolds(old(frames), m)
      ensures status == Unsat ==> forall m: Model :: !StackHolds(old(frames), m)
      ensures Decides(ts.solver.search) ==> status != Undef
      ensures CheckedOpen(old(frames), old(simplifiedUntil), frames, simplifiedUntil, status,
                          ts.solver.conflictFrame, rank)
    {
      hide *;
      ValidParts();
      UnflaggedOk(frames, ts.solver.ok, ts.solver.conflictFrame);
      Begin();
      status := SimplifyAndSolve();
      CheckedOk(old(frames), frames, idCounter, simplifiedUntil, Given(), status, ts.solver.ok,
                ts.solver.conflictFrame);
      ValidAgain();
    }

    method SimplifyAndSolve() returns (status: Status)
      requires Working(simplifiedUntil) && ts.solver.conflictFrame == 0
      modifies this`frames, this`simplifiedUntil, ts, ts.tmap, ts.solver`clauses, ts.solver`ok, ts.solver`conflictFrame
      ensures ts.Valid() && ts.WellMapped() && StackOk(frames, idCounter, simplifiedUntil, Given())
      ensures Outcome(old(frames), frames, status, ts.solver.ok, ts.solver.conflictFrame)
      ensures Decides(ts.solver.search) ==> status != Undef
      ensures CheckedOpen(old(frames), old(simplifiedUntil), frames, simplifiedUntil, status,
                          ts.solver.conflictFrame, rank)
    {
      hide *;
      status := SimplifyFormulas();
      ghost var before := frames;
      if status == Undef {
        status := SolveAndFlag();
        CheckedSolved(old(frames), old(simplifiedUntil), before, frames, simplifiedUntil, status,
                      ts.solver.conflictFrame, rank);
        OutcomeOn(old(frames), before, frames, status, ts.solver.ok, ts.solver.conflictFrame);
      } else {
        CheckedFailed(old(frames), old(simplifiedUntil), frames, simplifiedUntil, ts.solver.conflictFrame, rank);
        FlaggingParts(simplifiedUntil);
        OutcomeFlagged(old(frames), frames, ts.solver.ok, ts.solver.conflictFrame);
      }
    }

    /** Solves and, on a negative answer, flags the frames from the conflict on. */
    method SolveAndFlag() returns (status: Status)
      requires Working(|frames|)
      modifies this`frames, ts.tmap, ts.solver`ok, ts.solver`conflictFrame
      ensures ts.Valid() && ts.WellMapped() && StackOk(frames, idCounter, |frames|, Given())
      ensures Outcome(old(frames), frames, status, ts.solver.ok, ts.solver.conflictFrame) && |frames| == |old(frames)|
      ensures Decides(ts.solver.search) ==> status != Undef
      ensures frames == if status == Unsat then Flagged(old(frames), ts.solver.conflictFrame) else old(frames)
    {
      hide *;
      ghost var n := |frames|;
      status := Solve();
      if status == Unsat {
        FlagConflictFrame(n);
        FlaggingParts(n);
        OutcomeFlagged(old(frames), frames, ts.solver.ok, ts.solver.conflictFrame);
      } else {
        StackSome(frames, idCounter, n, Given());
        OutcomeOpen(frames, status, ts.solver.ok, ts.solver.conflictFrame);
      }
    }

    lemma FailedAgain(i: nat)
      requires ts.Valid() && ts.WellMapped() && StackFailed(frames, idCounter, i, Given())
      ensures Failed(i)
    {
    }

    lemma FlaggingParts(n: nat)
      requires Flagging(n)
      ensures ts.Valid() && ts.WellMapped() && StackOk(frames, idCounter, n, Given())
      ensures |frames| > 0 && frames[|frames| - 1].unsat
    {
    }

    lemma GivenFields()
      requires ts.WellMapped()
      ensures Given() == View(ts.alreadyAsserted, ts.alreadyCnfized, ts.frameTerms, ts.dead, ts.Snap().meaning)
    {
    }

    lemma ConverterParts()
      requires ts.Valid() && ts.WellMapped()
      ensures FrameTerms(Given().frameTerms) && AssertsKept(Given().meaning, Given().asserted, Given().dead)
    {
    }

    lemma WorkingParts(n: nat)
      requires Working(n)
      ensures ts.Valid() && ts.WellMapped() && StackOk(frames, idCounter, n, Given()) && Unflagged(frames)
      ensures Stacked(frames, idCounter) && n <= |frames|
      ensures ts.solver.conflictFrame == 0 && (!ts.solver.ok ==> Refuted(Given().meaning))
      ensures Given().meaning == ts.Snap().meaning && Given().dead == ts.dead && Given().frameTerms == ts.frameTerms
    {
    }

    lemma WorkingAgain(n: nat)
      requires ts.Valid() && ts.WellMapped() && StackOk(frames, idCounter, n, Given()) && Unflagged(frames)
      requires ts.solver.conflictFrame == 0 && (!ts.solver.ok ==> Refuted(Given().meaning))
      ensures Working(n)
    {
    }

    lemma ValidParts()
      requires Valid()
      ensures ts.Valid() && ts.WellMapped() && StackOk(frames, idCounter, simplifiedUntil, Given())
      ensures OkFlags(frames, ts.solver.ok, ts.solver.conflictFrame)
    {
    }

    lemma ValidAgain()
      requires ts.Valid() && ts.WellMapped() && StackOk(frames, idCounter, simplifiedUntil, Given())
      requires OkFlags(frames, ts.solver.ok, ts.solver.conflictFrame)
      ensures Valid()
    {
    }
  }

  /** No frame is flagged. */
  ghost predicate Unflagged(frames: seq<PushFrame>) {
    forall i :: 0 <= i < |frames| ==> !frames[i].unsat
  }

  /** Frame i turned out unsatisfiable while it was given to the solver. */
  ghost predicate StackFailed(frames: seq<PushFrame>, idCounter: nat, i: nat, v: View) {
    && Stacked(frames, idCounter) && FlagsRight(frames) && i < |frames| && PrefixUnsat(frames, i)
    && SimplifiedTo(frames, i, v.asserted, v.cnfized, v.frameTerms)
    && Alive(Flagged(frames, i), idCounter, v.dead) && Complete(frames, idCounter, v.meaning)
  }

  // ---------- giving a frame to the solver ----------

  lemma RootedOk(frames: seq<PushFrame>, idCounter: nat, i: nat, v: View, root: Term)
    requires StackOk(frames, idCounter, i, v) && Unflagged(frames) && i < |frames|
    requires RootMeans(Rooted(frames, i, root), i, root)
    ensures var f := Rooted(frames, i, root);
            && StackOk(f, idCounter, i, v) && SameFormulas(f, frames) && Unflagged(f) && |f| == |frames|
            && f[i].root == Some(root) && Rootful(f, i, root)
  {
    var f := Rooted(frames, i, root);
    forall j: nat | j < i ensures Ready(f, j, v.asserted, v.cnfized, v.frameTerms) {
      assert Ready(frames, j, v.asserted, v.cnfized, v.frameTerms);
      forall m: Model ensures PrefixHolds(f, j, m) <==> PrefixHolds(frames, j, m) {
        SameFormulasPrefix(f, frames, j, m);
      }
    }
    SameComplete(frames, f, idCounter, v.meaning);
  }

  /** Frame i has a root that says what the frames up to it say. */
  ghost predicate Rootful(frames: seq<PushFrame>, i: nat, root: Term) {
    i < |frames| && frames[i].root == Some(root) && RootMeans(frames, i, root) && WellFormed(root) && IsBool(root)
  }

  lemma SameComplete(a: seq<PushFrame>, b: seq<PushFrame>, idCounter: nat, meaning: seq<Clause>)
    requires SameFormulas(b, a) && Complete(a, idCounter, meaning)
    ensures Complete(b, idCounter, meaning)
  {
    forall m: Model | Admits(b, idCounter, m) ensures Clauses.Sat(meaning, OfModel(m)) {
      SameAdmits(a, b, idCounter, m);
    }
  }

  lemma SameAdmits(a: seq<PushFrame>, b: seq<PushFrame>, idCounter: nat, m: Model)
    requires SameFormulas(b, a) && Admits(b, idCounter, m)
    ensures Admits(a, idCounter, m)
  {
    SameFormulasPrefix(b, a, 0, m);
    forall id: nat | 0 < id < idCounter ensures GuardExcused(a, id, m) {
      assert GuardExcused(b, id, m);
      if !Holds(GuardOf(id), m) {
        var p :| 0 <= p < |b| && b[p].id == id && PrefixHolds(b, p, m);
        SameFormulasPrefix(b, a, p, m);
        assert a[p].id == id;
      }
    }
  }

  lemma SameAsItself(frames: seq<PushFrame>)
    ensures SameFormulas(frames, frames)
  {
  }

  lemma SameFormulasOn(a: seq<PushFrame>, b: seq<PushFrame>, c: seq<PushFrame>)
    requires SameFormulas(b, a) && SameFormulas(c, b)
    ensures SameFormulas(c, a) && |c| == |a|
  {
  }

  lemma UnflaggedAlive(frames: seq<PushFrame>, idCounter: nat, i: nat, v: View)
    requires StackOk(frames, idCounter, i, v) && Unflagged(frames) && i < |frames|
    ensures GuardOf(frames[i].id) !in v.dead && True !in v.dead
  {
    assert GuardOf(frames[0].id) == True;
  }

  /** What giving a formula to the solver under the guard of a frame does to the view. */
  ghost predicate Gave(v: View, w: View, id: nat, root: Term) {
    && v.asserted <= w.asserted && v.cnfized <= w.cnfized
    && v.dead <= w.dead <= v.dead + {GuardOf(id)}
    && id < |w.frameTerms| && w.frameTerms[id] == GuardOf(id) && |v.frameTerms| <= |w.frameTerms|
    && (forall j :: 0 <= j < |v.frameTerms| && j != id ==> w.frameTerms[j] == v.frameTerms[j])
    && (forall m: Model :: Clauses.Sat(v.meaning, OfModel(m)) && (Holds(root, m) || (id > 0 && Holds(GuardOf(id), m)))
                           ==> Clauses.Sat(w.meaning, OfModel(m)))
  }

  lemma GaveView(v: View, w: View, id: nat, root: Term, b: Snapshot, a: Snapshot)
    requires v.meaning == b.meaning && w.meaning == a.meaning && Survives(b, a, GuardOf(id), root)
    requires v.asserted <= w.asserted && v.cnfized <= w.cnfized
    requires w.dead == v.dead || w.dead == v.dead + {GuardOf(id)}
    requires id < |w.frameTerms| && w.frameTerms[id] == GuardOf(id) && |v.frameTerms| <= |w.frameTerms|
    requires forall j :: 0 <= j < |v.frameTerms| && j != id ==> w.frameTerms[j] == v.frameTerms[j]
    ensures Gave(v, w, id, root)
  {
  }

  lemma GaveComplete(frames: seq<PushFrame>, idCounter: nat, i: nat, v: View, w: View, root: Term)
    requires StackOk(frames, idCounter, i, v) && Rootful(frames, i, root) && Gave(v, w, frames[i].id, root)
    ensures Complete(frames, idCounter, w.meaning)
  {
    forall m: Model | Admits(frames, idCounter, m) ensures Clauses.Sat(w.meaning, OfModel(m)) {
      var id := frames[i].id;
      if id > 0 {
        assert GuardExcused(frames, id, m);
        if !Holds(GuardOf(id), m) {
          var p :| 0 <= p < |frames| && frames[p].id == id && PrefixHolds(frames, p, m);
          assert p == i;
        }
      } else {
        assert i == 0;
      }
    }
  }

  lemma GivenGrows(v: View, w: View, id: nat, root: Term, fla: Term, g: Term)
    requires Gave(v, w, id, root) && GivenTo(v.asserted, v.cnfized, fla, g)
    ensures GivenTo(w.asserted, w.cnfized, fla, g)
  {
    forall r | NestedRoot(fla, r) ensures Cached(w.cnfized, r, g) {
      assert Cached(v.cnfized, r, g);
    }
  }

  lemma GivenForGrows(v: View, w: View, id: nat, root: Term, other: Term, g: Term)
    requires Gave(v, w, id, root) && GivenFor(v.asserted, v.cnfized, other, g)
    ensures GivenFor(w.asserted, w.cnfized, other, g)
  {
    hide Gave, GivenTo, Equivalent;
    var fla :| Equivalent(fla, other) && GivenTo(v.asserted, v.cnfized, fla, g);
    GivenGrows(v, w, id, root, fla, g);
  }

  /** It does not matter which of two equivalent formulas was given. */
  lemma GaveEquivalent(v: View, w: View, id: nat, fla: Term, root: Term)
    requires Gave(v, w, id, fla) && Equivalent(fla, root)
    ensures Gave(v, w, id, root)
  {
    hide Eval;
  }

  lemma GivenEquivalent(asserted: Cache, cnfized: Cache, fla: Term, root: Term, g: Term)
    requires Equivalent(fla, root) && GivenTo(asserted, cnfized, fla, g)
    ensures GivenFor(asserted, cnfized, root, g)
  {
    hide Equivalent, GivenTo;
  }

  lemma ReadyGrows(frames: seq<PushFrame>, idCounter: nat, i: nat, v: View, w: View, root: Term)
    requires StackOk(frames, idCounter, i, v) && Unflagged(frames) && i < |frames| && Gave(v, w, frames[i].id, root)
    ensures SimplifiedTo(frames, i, w.asserted, w.cnfized, w.frameTerms)
  {
    forall j: nat | j < i ensures Ready(frames, j, w.asserted, w.cnfized, w.frameTerms) {
      assert Ready(frames, j, v.asserted, v.cnfized, v.frameTerms);
      GivenForGrows(v, w, frames[i].id, root, frames[j].root.value, GuardOf(frames[j].id));
    }
  }

  lemma GiveSucceeds(frames: seq<PushFrame>, idCounter: nat, i: nat, v: View, w: View, root: Term)
    requires StackOk(frames, idCounter, i, v) && Unflagged(frames) && Rootful(frames, i, root)
    requires Gave(v, w, frames[i].id, root) && w.dead == v.dead && Complete(frames, idCounter, w.meaning)
    requires GivenFor(w.asserted, w.cnfized, root, GuardOf(frames[i].id))
    ensures StackOk(frames, idCounter, i + 1, w)
  {
    ReadyGrows(frames, idCounter, i, v, w, root);
    assert Ready(frames, i, w.asserted, w.cnfized, w.frameTerms);
    hide Complete, FlagsRight, Stacked, Ready;
  }

  lemma GiveFails(frames: seq<PushFrame>, idCounter: nat, i: nat, v: View, w: View, root: Term)
    requires StackOk(frames, idCounter, i, v) && Unflagged(frames) && Rootful(frames, i, root)
    requires Gave(v, w, frames[i].id, root) && Complete(frames, idCounter, w.meaning) && PrefixUnsat(frames, i)
    ensures StackFailed(frames, idCounter, i, w)
  {
    ReadyGrows(frames, idCounter, i, v, w, root);
    var r := Flagged(frames, i);
    forall j | 0 <= j < |r| && !r[j].unsat ensures GuardOf(r[j].id) !in w.dead {
      assert frames[j].id < frames[i].id;
      GuardsDiffer(frames[j].id, frames[i].id);
    }
    forall id: nat | idCounter <= id ensures GuardOf(id) !in w.dead {
      GuardsDiffer(frames[i].id, id);
    }
  }

  lemma GuardsDiffer(a: nat, b: nat)
    requires a < b
    ensures GuardOf(a) != GuardOf(b)
  {
  }

  /** A false root or a refuted clause set leaves the formulas up to the frame without a model. */
  lemma FailedPrefix(frames: seq<PushFrame>, idCounter: nat, i: nat, meaning: seq<Clause>, root: Term, b: Snapshot,
                     a: Snapshot)
    requires Stacked(frames, idCounter) && Complete(frames, idCounter, meaning) && Rootful(frames, i, root)
    requires meaning == a.meaning && Evolves(b, a)
    requires root == False || (b.ok && Refuted(a.meaning)) || Refuted(b.meaning)
    ensures PrefixUnsat(frames, i)
  {
    if root == False {
      forall m: Model ensures !PrefixHolds(frames, i, m) { assert !Holds(False, m); }
    } else {
      RefutedBottom(frames, idCounter, meaning);
    }
  }

  lemma FlaggedSame(frames: seq<PushFrame>, k: nat)
    ensures SameFormulas(Flagged(frames, k), frames)
  {
  }

  lemma PrefixLower(frames: seq<PushFrame>, k: int, i: int, m: Model)
    requires k <= i
    ensures PrefixHolds(frames, i, m) ==> PrefixHolds(frames, k, m)
  {
  }

  /** Flagging from an unsatisfiable prefix on keeps the flags right. */
  lemma FlaggedRight(frames: seq<PushFrame>, idCounter: nat, k: nat)
    requires Stacked(frames, idCounter) && FlagsRight(frames) && PrefixUnsat(frames, k)
    ensures Stacked(Flagged(frames, k), idCounter) && FlagsRight(Flagged(frames, k))
  {
    var r := Flagged(frames, k);
    forall i | 0 <= i < |r| && r[i].unsat ensures PrefixUnsat(r, i) {
      forall m: Model ensures !PrefixHolds(r, i, m) {
        SameFormulasPrefix(r, frames, i, m);
        if i >= k { PrefixLower(frames, k, i, m); }
      }
    }
    hide UserFormula, PrefixUnsat;
  }

  lemma FlaggedReady(frames: seq<PushFrame>, k: nat, n: nat, v: View)
    requires SimplifiedTo(frames, n, v.asserted, v.cnfized, v.frameTerms) && k < |frames|
    ensures SimplifiedTo(Flagged(frames, k), n, v.asserted, v.cnfized, v.frameTerms)
    ensures n == k ==> SimplifiedTo(Flagged(frames, k), k + 1, v.asserted, v.cnfized, v.frameTerms)
  {
    var r := Flagged(frames, k);
    forall j: nat | j < n && !r[j].unsat ensures Ready(r, j, v.asserted, v.cnfized, v.frameTerms) {
      assert Ready(frames, j, v.asserted, v.cnfized, v.frameTerms);
      forall m: Model ensures PrefixHolds(r, j, m) <==> PrefixHolds(frames, j, m) {
        SameFormulasPrefix(r, frames, j, m);
      }
    }
  }

  lemma FlagFailed(frames: seq<PushFrame>, idCounter: nat, k: nat, v: View)
    requires StackFailed(frames, idCounter, k, v)
    ensures k < |frames| && StackOk(Flagged(frames, k), idCounter, k + 1, v)
    ensures Flagged(frames, k)[|frames| - 1].unsat
  {
    FlaggedRight(frames, idCounter, k);
    FlaggedReady(frames, k, k, v);
    FlaggedSame(frames, k);
    SameComplete(frames, Flagged(frames, k), idCounter, v.meaning);
  }

  lemma FlagConflict(frames: seq<PushFrame>, idCounter: nat, n: nat, v: View, k: nat)
    requires StackOk(frames, idCounter, n, v) && k < |frames| && PrefixUnsat(frames, k)
    ensures StackOk(Flagged(frames, k), idCounter, n, v) && Flagged(frames, k)[|frames| - 1].unsat
  {
    FlaggedRight(frames, idCounter, k);
    FlaggedReady(frames, k, n, v);
    FlaggedSame(frames, k);
    SameComplete(frames, Flagged(frames, k), idCounter, v.meaning);
    FlaggedAlive(frames, idCounter, k, v.dead);
    hide Stacked, FlagsRight, SimplifiedTo, Complete;
  }

  lemma FlaggedAlive(frames: seq<PushFrame>, idCounter: nat, k: nat, dead: set<Term>)
    requires Alive(frames, idCounter, dead)
    ensures Alive(Flagged(frames, k), idCounter, dead)
  {
  }

  // ---------- checking the stack ----------

  lemma StackSome(frames: seq<PushFrame>, idCounter: nat, n: nat, v: View)
    requires StackOk(frames, idCounter, n, v)
    ensures |frames| > 0 && Stacked(frames, idCounter) && n <= |frames|
    ensures !frames[|frames| - 1].unsat ==> Unflagged(frames)
  {
  }

  lemma TopFlagged(frames: seq<PushFrame>, idCounter: nat, n: nat, v: View)
    requires StackOk(frames, idCounter, n, v) && |frames| > 0 && frames[|frames| - 1].unsat
    ensures forall m: Model :: !StackHolds(frames, m)
  {
    assert PrefixUnsat(frames, |frames| - 1);
  }

  lemma SameTopFlagged(a: seq<PushFrame>, frames: seq<PushFrame>, idCounter: nat, n: nat, v: View)
    requires StackOk(frames, idCounter, n, v) && |frames| > 0 && frames[|frames| - 1].unsat && SameFormulas(frames, a)
    ensures forall m: Model :: !StackHolds(a, m)
  {
    TopFlagged(frames, idCounter, n, v);
    forall m: Model ensures !StackHolds(a, m) { SameFormulasPrefix(frames, a, |a| - 1, m); }
  }

  lemma OkStart(frames: seq<PushFrame>, ok: bool, conflictFrame: nat)
    requires OkFlags(frames, ok, conflictFrame) && |frames| > 0 && !frames[|frames| - 1].unsat
    ensures ok && conflictFrame == 0
  {
  }

  /** Initialization adds clauses that hold in every model. */
  lemma InitializedOk(frames: seq<PushFrame>, idCounter: nat, n: nat, v: View, w: View)
    requires StackOk(frames, idCounter, n, v) && w == v.(meaning := w.meaning)
    requires forall m: Model :: Clauses.Sat(v.meaning, OfModel(m)) ==> Clauses.Sat(w.meaning, OfModel(m))
    ensures StackOk(frames, idCounter, n, w)
  {
  }

  lemma UnflaggedOk(frames: seq<PushFrame>, ok: bool, conflictFrame: nat)
    requires OkFlags(frames, ok, conflictFrame) && |frames| > 0 && !frames[|frames| - 1].unsat
    ensures ok && conflictFrame == 0
  {
  }

  lemma PushedFlags(frames: seq<PushFrame>, id: nat, ok: bool, conflictFrame: nat)
    requires OkFlags(frames, ok, conflictFrame) && |frames| > 0
    ensures OkFlags(frames + [PushFrame(id, [], None, frames[|frames| - 1].unsat)], ok, conflictFrame)
  {
  }

  lemma InsertedFlags(frames: seq<PushFrame>, f: Term, ok: bool, conflictFrame: nat)
    requires OkFlags(frames, ok, conflictFrame) && |frames| > 0
    ensures OkFlags(Inserted(frames, f), ok, conflictFrame)
    ensures var n := |frames| - 1;
            Inserted(frames, f) == frames[n := frames[n].(formulas := frames[n].formulas + [f], root := None)]
  {
  }

  /** The answer of a check, for the stack a it was asked about. */
  ghost predicate Outcome(a: seq<PushFrame>, frames: seq<PushFrame>, status: Status, ok: bool, conflictFrame: nat) {
    && SameFormulas(frames, a) && |frames| > 0 && (ok ==> conflictFrame == 0)
    && match status
       case Sat => ok && exists m: Model :: StackHolds(frames, m)
       case Unsat => frames[|frames| - 1].unsat
       case Undef => ok
  }

  lemma OutcomeOn(a: seq<PushFrame>, b: seq<PushFrame>, frames: seq<PushFrame>, status: Status, ok: bool,
                  conflictFrame: nat)
    requires Outcome(b, frames, status, ok, conflictFrame) && SameFormulas(b, a)
    ensures Outcome(a, frames, status, ok, conflictFrame)
  {
    SameFormulasOn(a, b, frames);
    hide SameFormulas, StackHolds;
  }

  lemma OutcomeFlagged(a: seq<PushFrame>, frames: seq<PushFrame>, ok: bool, conflictFrame: nat)
    requires SameFormulas(frames, a) && |frames| > 0 && frames[|frames| - 1].unsat && (ok ==> conflictFrame == 0)
    ensures Outcome(a, frames, Unsat, ok, conflictFrame) && |frames| == |a|
  {
  }

  lemma OutcomeOpen(frames: seq<PushFrame>, status: Status, ok: bool, conflictFrame: nat)
    requires |frames| > 0 && ok && conflictFrame == 0 && status != Unsat
    requires status == Sat ==> exists m: Model :: StackHolds(frames, m)
    ensures Outcome(frames, frames, status, ok, conflictFrame)
  {
    SameAsItself(frames);
  }

  /** The flags after a check, and what they say about the formulas before it. */
  lemma CheckedOk(a: seq<PushFrame>, frames: seq<PushFrame>, idCounter: nat, n: nat, v: View, status: Status,
                  ok: bool, conflictFrame: nat)
    requires StackOk(frames, idCounter, n, v) && Outcome(a, frames, status, ok, conflictFrame)
    ensures OkFlags(frames, ok, conflictFrame) && SameFormulas(frames, a)
    ensures status == Sat ==> exists m: Model :: StackHolds(a, m)
    ensures status == Unsat ==> forall m: Model :: !StackHolds(a, m)
  {
    match status
    case Sat =>
      var m :| StackHolds(frames, m);
      SameFormulasPrefix(frames, a, |a| - 1, m);
      assert StackHolds(a, m);
    case Unsat => SameTopFlagged(a, frames, idCounter, n, v);
    case Undef =>
  }

  lemma RefutedStack(frames: seq<PushFrame>, idCounter: nat, n: nat, v: View)
    requires StackOk(frames, idCounter, n, v) && Refuted(v.meaning)
    ensures |frames| > 0 && PrefixUnsat(frames, 0)
  {
    RefutedBottom(frames, idCounter, v.meaning);
  }

  /** Once every frame is simplified all guards exist, so the frames can be enabled. */
  lemma EnabledReady(frames: seq<PushFrame>, idCounter: nat, v: View, en: seq<nat>)
    requires StackOk(frames, idCounter, |frames|, v) && Unflagged(frames)
    requires |en| == |frames| && forall i :: 0 <= i < |en| ==> en[i] == frames[i].id
    ensures FramesReady(v.frameTerms, en)
  {
    forall i: nat | i < |en| ensures en[i] < |v.frameTerms| && v.frameTerms[en[i]] == GuardOf(en[i]) {
      assert Ready(frames, i, v.asserted, v.cnfized, v.frameTerms);
    }
  }

  /** The model of a positive answer satisfies every formula on the stack. */
  lemma StackModel(frames: seq<PushFrame>, idCounter: nat, v: View, en: seq<nat>, tau: Valuation, m: Model)
    requires StackOk(frames, idCounter, |frames|, v) && Unflagged(frames) && AssertsKept(v.meaning, v.asserted, v.dead)
    requires |en| == |frames| && forall i :: 0 <= i < |en| ==> en[i] == frames[i].id
    requires FrameModel(v.meaning, v.frameTerms, en, tau, m)
    ensures |frames| > 0 && StackHolds(frames, m)
  {
    var i := |frames| - 1;
    assert Ready(frames, i, v.asserted, v.cnfized, v.frameTerms);
    UnflaggedAlive(frames, idCounter, i, v.(asserted := v.asserted)) by { StackLower(frames, idCounter, v); }
    GuardIsOff(v.frameTerms, en, tau, i);
    var fla :| Equivalent(fla, frames[i].root.value) && GivenTo(v.asserted, v.cnfized, fla, GuardOf(frames[i].id));
    GivenHolds(v.meaning, v.asserted, v.cnfized, v.dead, fla, GuardOf(frames[i].id), tau, m);
  }

  lemma StackLower(frames: seq<PushFrame>, idCounter: nat, v: View)
    requires StackOk(frames, idCounter, |frames|, v)
    ensures |frames| > 0 && StackOk(frames, idCounter, |frames| - 1, v)
  {
  }

  lemma GuardIsOff(frameTerms: seq<Term>, en: seq<nat>, tau: Valuation, i: nat)
    requires FramesUpTo(frameTerms, en, |en|, tau) && i < |en|
      && (i > 0 ==> en[i] < |frameTerms| && frameTerms[en[i]] == GuardOf(en[i]))
    requires i == 0 ==> en[i] == 0
    ensures !GuardOn(GuardOf(en[i]), tau)
  {
  }

  lemma ConflictStack(frames: seq<PushFrame>, idCounter: nat, v: View, en: seq<nat>, k: nat)
    requires StackOk(frames, idCounter, |frames|, v) && Unflagged(frames) && FrameTerms(v.frameTerms) && k < |en|
    requires |en| == |frames| && forall i :: 0 <= i < |en| ==> en[i] == frames[i].id
    requires forall m: Model :: !(Clauses.Sat(v.meaning, OfModel(m)) && FramesUpTo(v.frameTerms, en, k, OfModel(m)))
    ensures PrefixUnsat(frames, k)
  {
    EnabledReady(frames, idCounter, v, en);
    ConflictPrefix(frames, idCounter, v.meaning, v.frameTerms, en, k);
  }

  function Rooted(frames: seq<PushFrame>, i: nat, root: Term): seq<PushFrame>
    requires i < |frames|
  {
    frames[i := frames[i].(root := Some(root))]
  }

  /** Frame i got its prepared root, and nothing else changed. */
  ghost predicate GivenAs(a: seq<PushFrame>, frames: seq<PushFrame>, i: nat, root: Term, rank: Order) {
    i < |a| && frames == Rooted(a, i, root) && Prepared(a, i, root, rank)
  }

  lemma GivenAsAgain(a: seq<PushFrame>, i: nat, root: Term, rank: Order)
    requires i < |a| && Prepared(a, i, root, rank)
    ensures GivenAs(a, Rooted(a, i, root), i, root, rank)
  {
  }

  /** Frames n0 to n - 1 have got their prepared roots; nothing else has changed but flags. */
  ghost predicate Advanced(a: seq<PushFrame>, n0: nat, frames: seq<PushFrame>, n: nat, rank: Order) {
    && SameFormulas(frames, a) && n0 <= n <= |a|
    && (forall i :: n0 <= i < n ==> frames[i].root.Some? && Prepared(a, i, frames[i].root.value, rank))
    && (forall i :: 0 <= i < |a| && !(n0 <= i < n) ==> frames[i].root == a[i].root)
  }

  ghost predicate SameFlags(a: seq<PushFrame>, b: seq<PushFrame>) {
    |a| == |b| && forall i :: 0 <= i < |a| ==> a[i].unsat == b[i].unsat
  }

  lemma NotAdvanced(frames: seq<PushFrame>, n: nat, rank: Order)
    requires n <= |frames|
    ensures Advanced(frames, n, frames, n, rank) && SameFlags(frames, frames)
  {
  }

  lemma AdvancedOne(a: seq<PushFrame>, n0: nat, b: seq<PushFrame>, n: nat, c: seq<PushFrame>, root: Term, rank: Order)
    requires Advanced(a, n0, b, n, rank) && SameFlags(a, b) && GivenAs(b, c, n, root, rank)
    ensures Advanced(a, n0, c, n + 1, rank) && SameFlags(a, c)
  {
    hide Prepared, Rooted;
    RootedAt(b, n, root);
    PreparedSame(b, a, n, root, rank);
    hide GivenAs;
  }

  lemma RootedAt(frames: seq<PushFrame>, n: nat, root: Term)
    requires n < |frames|
    ensures var r := Rooted(frames, n, root);
            && |r| == |frames| && r[n] == frames[n].(root := Some(root))
            && forall i :: 0 <= i < |frames| && i != n ==> r[i] == frames[i]
  {
  }

  lemma PreparedSame(a: seq<PushFrame>, b: seq<PushFrame>, i: nat, root: Term, rank: Order)
    requires SameFormulas(a, b) && Prepared(a, i, root, rank)
    ensures Prepared(b, i, root, rank)
  {
    hide Transitive, Simplification.Substituted;
    var coll, trans :| PreparedFrom(a, i, coll, trans, root, rank);
    var args :| Collated(a, i + 1, args) && coll == MkAnd(args, rank);
    hide MkAnd;
    assert Collated(b, i + 1, args);
    assert Collates(b, i, coll, rank);
    assert PreparedFrom(b, i, coll, trans, root, rank);
  }

  lemma AdvancedFlags(a: seq<PushFrame>, n0: nat, b: seq<PushFrame>, n: nat, k: nat, rank: Order)
    requires Advanced(a, n0, b, n, rank)
    ensures Advanced(a, n0, Flagged(b, k), n, rank)
    ensures Unflagged(b) ==> FlaggedFrom(Flagged(b, k), k)
  {
    hide Prepared;
  }

  /** Exactly the frames from position k on are flagged. */
  ghost predicate FlaggedFrom(frames: seq<PushFrame>, k: int) {
    forall i :: 0 <= i < |frames| ==> (frames[i].unsat <==> k <= i)
  }

  lemma NoFlags(a: seq<PushFrame>, b: seq<PushFrame>)
    requires SameFlags(a, b) && Unflagged(a)
    ensures Unflagged(b)
  {
  }

  /**
   What a check does to the frames. The roots of simplified frames stay. With a flag on the top
   nothing changes. Otherwise all frames are simplified up to the first that fails, and the flags
   go from that frame on, or from the one the solver blames; without a negative answer all frames
   are simplified and none is flagged.
   */
  ghost predicate Checked(a: seq<PushFrame>, n0: nat, frames: seq<PushFrame>, n: nat, status: Status,
                          conflictFrame: nat, rank: Order)
    requires |a| > 0
  {
    if a[|a| - 1].unsat then status == Unsat && frames == a && n == n0
    else CheckedOpen(a, n0, frames, n, status, conflictFrame, rank)
  }

  ghost predicate CheckedOpen(a: seq<PushFrame>, n0: nat, frames: seq<PushFrame>, n: nat, status: Status,
                              conflictFrame: nat, rank: Order) {
    && Advanced(a, n0, frames, n, rank)
    && if status == Unsat then
         || (n > 0 && FlaggedFrom(frames, n - 1))
         || (n == |frames| && FlaggedFrom(frames, conflictFrame))
       else n == |frames| && Unflagged(frames)
  }

  lemma CheckedFailed(a: seq<PushFrame>, n0: nat, frames: seq<PushFrame>, n: nat, conflictFrame: nat, rank: Order)
    requires Advanced(a, n0, frames, n, rank) && n > 0 && FlaggedFrom(frames, n - 1)
    ensures CheckedOpen(a, n0, frames, n, Unsat, conflictFrame, rank)
  {
    hide Advanced, FlaggedFrom;
  }

  lemma CheckedSolved(a: seq<PushFrame>, n0: nat, b: seq<PushFrame>, frames: seq<PushFrame>, n: nat, status: Status,
                      conflictFrame: nat, rank: Order)
    requires Advanced(a, n0, b, n, rank) && n == |b| && Unflagged(b)
    requires frames == if status == Unsat then Flagged(b, conflictFrame) else b
    ensures CheckedOpen(a, n0, frames, n, status, conflictFrame, rank)
  {
    AdvancedFlags(a, n0, b, n, conflictFrame, rank);
    hide Advanced, FlaggedFrom, Unflagged;
  }

  lemma CheckedTop(a: seq<PushFrame>, n: nat, conflictFrame: nat, rank: Order)
    requires |a| > 0 && a[|a| - 1].unsat
    ensures Checked(a, n, a, n, Unsat, conflictFrame, rank)
  {
  }

  lemma CheckedNoTop(a: seq<PushFrame>, n0: nat, frames: seq<PushFrame>, n: nat, status: Status, conflictFrame: nat,
                     rank: Order)
    requires |a| > 0 && !a[|a| - 1].unsat && CheckedOpen(a, n0, frames, n, status, conflictFrame, rank)
    ensures Checked(a, n0, frames, n, status, conflictFrame, rank)
  {
    hide CheckedOpen;
  }

  /** Roots and flags do not matter to what the formulas say. */
  ghost predicate SameFormulas(a: seq<PushFrame>, b: seq<PushFrame>) {
    |a| == |b| && forall i :: 0 <= i < |a| ==> a[i].id == b[i].id && a[i].formulas == b[i].formulas
  }

  lemma SameFormulasPrefix(a: seq<PushFrame>, b: seq<PushFrame>, i: int, m: Model)
    requires SameFormulas(a, b)
    ensures PrefixHolds(a, i, m) <==> PrefixHolds(b, i, m)
  {
  }

  lemma RootedMeaning(frames: seq<PushFrame>, i: nat, root: Term)
    requires i < |frames| && RootMeans(frames, i, root)
    ensures RootMeans(Rooted(frames, i, root), i, root)
  {
    forall m: Model ensures PrefixHolds(Rooted(frames, i, root), i, m) <==> PrefixHolds(frames, i, m) {
      SameFormulasPrefix(frames, Rooted(frames, i, root), i, m);
    }
  }

  /** Conjoining what holds in every model keeps the meaning. */
  lemma StrengthenedMeaning(frames: seq<PushFrame>, i: nat, root: Term, trans: Term, rank: Order)
    requires RootMeans(frames, i, root) && Simplifies(trans, Vars(root), Bool) && forall m: Model :: Holds(trans, m)
    ensures RootMeans(frames, i, MkAnd([root, trans], rank))
  {
    hide WellFormed, Eval, Vars, MkAnd, PrefixHolds;
    var ts := [root, trans];
    assert AllBool(ts);
    MkAndMeaning(ts, rank, AnyModel);
    forall m: Model ensures Holds(MkAnd(ts, rank), m) <==> Holds(root, m) {
      MkAndMeaning(ts, rank, m);
      assert ts[0] == root && ts[1] == trans;
    }
  }

  function Flagged(frames: seq<PushFrame>, k: nat): (r: seq<PushFrame>)
    ensures |r| == |frames|
    ensures forall i :: 0 <= i < |r| ==> r[i] == if k <= i then frames[i].(unsat := true) else frames[i]
  {
    seq(|frames|, i requires 0 <= i < |frames| => if k <= i then frames[i].(unsat := true) else frames[i])
  }

  /** The formulas of the first n frames. */
  ghost predicate Collated(frames: seq<PushFrame>, n: nat, args: seq<Term>) {
    forall f :: f in args <==> exists j :: 0 <= j < n && j < |frames| && f in frames[j].formulas
  }

  /** The conjunction of the formulas of frames 0 to curr. */
  ghost predicate Collates(frames: seq<PushFrame>, curr: nat, fla: Term, rank: Order) {
    exists args :: Collated(frames, curr + 1, args) && fla == MkAnd(args, rank)
  }

  /** The conjunction of the implications that the diamonds below a formula give. */
  ghost predicate Transitive(fla: Term, trans: Term, rank: Order) {
    exists impls :: EqTransitivity.Learned(Facts.Subterms(fla), rank, impls) && trans == MkAnd(impls, rank)
  }

  /** The root of a frame: its collated formula with the diamonds, simplified by substitutions. */
  ghost predicate Prepared(frames: seq<PushFrame>, curr: nat, root: Term, rank: Order) {
    exists coll, trans :: PreparedFrom(frames, curr, coll, trans, root, rank)
  }

  ghost predicate PreparedFrom(frames: seq<PushFrame>, curr: nat, coll: Term, trans: Term, root: Term, rank: Order) {
    && Collates(frames, curr, coll, rank) && Transitive(coll, trans, rank)
    && Simplification.Substituted(MkAnd([coll, trans], rank), root, rank)
  }

  lemma PreparedAgain(frames: seq<PushFrame>, curr: nat, coll: Term, trans: Term, root: Term, rank: Order)
    requires Collates(frames, curr, coll, rank) && Transitive(coll, trans, rank)
    requires Simplification.Substituted(MkAnd([coll, trans], rank), root, rank)
    ensures Prepared(frames, curr, root, rank)
  {
    hide Collates, Transitive, Simplification.Substituted;
    assert PreparedFrom(frames, curr, coll, trans, root, rank);
  }

  lemma CollatedMeaning(frames: seq<PushFrame>, idCounter: nat, curr: nat, args: seq<Term>, rank: Order)
    requires Stacked(frames, idCounter) && curr < |frames| && Collated(frames, curr + 1, args)
    ensures RootMeans(frames, curr, MkAnd(args, rank))
  {
    forall i | 0 <= i < |args| ensures WellFormed(args[i]) && IsBool(args[i]) {
      var f := args[i];
      assert f in args;
      var j :| 0 <= j < curr + 1 && j < |frames| && f in frames[j].formulas;
      assert UserFormula(f);
    }
    hide UserFormula;
    MkAndMeaning(args, rank, AnyModel);
    forall m: Model ensures Holds(MkAnd(args, rank), m) <==> PrefixHolds(frames, curr, m) {
      MkAndMeaning(args, rank, m);
      if EachHolds(args, m) {
        forall j, f | 0 <= j <= curr && j < |frames| && f in frames[j].formulas ensures Holds(f, m) {
          assert f in args;
          var i :| 0 <= i < |args| && args[i] == f;
        }
      }
      if PrefixHolds(frames, curr, m) {
        forall i | 0 <= i < |args| ensures Holds(args[i], m) { assert args[i] in args; }
      }
    }
  }

  lemma PushPrefix(frames: seq<PushFrame>, f: PushFrame, i: int, m: Model)
    requires f.formulas == []
    ensures i < |frames| ==> (PrefixHolds(frames + [f], i, m) <==> PrefixHolds(frames, i, m))
    ensures PrefixHolds(frames + [f], |frames|, m) <==> StackHolds(frames, m)
  {
    var more := frames + [f];
    assert forall j :: 0 <= j < |frames| ==> more[j] == frames[j];
  }

  lemma PushKeeps(frames: seq<PushFrame>, idCounter: nat, meaning: seq<Clause>, unsat: bool)
    requires Stacked(frames, idCounter) && FlagsRight(frames) && Complete(frames, idCounter, meaning)
    requires unsat == frames[|frames| - 1].unsat
    ensures var more := frames + [PushFrame(idCounter, [], None, unsat)];
            Stacked(more, idCounter + 1) && FlagsRight(more) && Complete(more, idCounter + 1, meaning)
  {
    var f := PushFrame(idCounter, [], None, unsat);
    var more := frames + [f];
    forall i | 0 <= i < |more| && more[i].unsat ensures PrefixUnsat(more, i) {
      forall m: Model ensures !PrefixHolds(more, i, m) {
        PushPrefix(frames, f, i, m);
        assert PrefixUnsat(frames, if i < |frames| then i else i - 1);
      }
    }
    forall m: Model | Admits(more, idCounter + 1, m) ensures Clauses.Sat(meaning, OfModel(m)) {
      PushAdmits(frames, idCounter, f, m);
    }
  }

  lemma PushAdmits(frames: seq<PushFrame>, idCounter: nat, f: PushFrame, m: Model)
    requires Stacked(frames, idCounter) && f.id == idCounter && f.formulas == []
    requires Admits(frames + [f], idCounter + 1, m)
    ensures Admits(frames, idCounter, m)
  {
    PushPrefix(frames, f, 0, m);
    forall id: nat | 0 < id < idCounter ensures GuardExcused(frames, id, m) {
      assert GuardExcused(frames + [f], id, m);
      if !Holds(GuardOf(id), m) {
        var p :| 0 <= p < |frames + [f]| && (frames + [f])[p].id == id && PrefixHolds(frames + [f], p, m);
        PushPrefix(frames, f, p, m);
      }
    }
  }

  lemma PushReady(frames: seq<PushFrame>, idCounter: nat, unsat: bool, n: nat, asserted: Cache, cnfized: Cache,
                  frameTerms: seq<Term>, dead: set<Term>)
    requires SimplifiedTo(frames, n, asserted, cnfized, frameTerms) && Alive(frames, idCounter, dead)
    ensures var more := frames + [PushFrame(idCounter, [], None, unsat)];
            SimplifiedTo(more, n, asserted, cnfized, frameTerms) && Alive(more, idCounter + 1, dead)
  {
    var f := PushFrame(idCounter, [], None, unsat);
    var more := frames + [f];
    forall i: nat | i < n && !more[i].unsat ensures Ready(more, i, asserted, cnfized, frameTerms) {
      assert Ready(frames, i, asserted, cnfized, frameTerms);
      forall m: Model ensures PrefixHolds(more, i, m) <==> PrefixHolds(frames, i, m) {
        PushPrefix(frames, f, i, m);
      }
    }
  }

  lemma PushOk(frames: seq<PushFrame>, idCounter: nat, n: nat, v: View)
    requires StackOk(frames, idCounter, n, v)
    ensures |frames| > 0
    ensures StackOk(frames + [PushFrame(idCounter, [], None, frames[|frames| - 1].unsat)], idCounter + 1, n, v)
  {
    hide Stacked, FlagsRight, SimplifiedTo, Alive, Complete;
    StackedSome(frames, idCounter);
    PushKeeps(frames, idCounter, v.meaning, frames[|frames| - 1].unsat);
    PushReady(frames, idCounter, frames[|frames| - 1].unsat, n, v.asserted, v.cnfized, v.frameTerms, v.dead);
  }

  lemma StackedSome(frames: seq<PushFrame>, idCounter: nat)
    requires Stacked(frames, idCounter)
    ensures |frames| > 0
  {
  }

  // ---------- pop ----------

  lemma PopFlags(frames: seq<PushFrame>, ok: bool, conflictFrame: nat)
    requires OkFlags(frames, ok, conflictFrame) && |frames| > 1
    ensures var rest := frames[..|frames| - 1];
            rest[|rest| - 1].unsat ==> OkFlags(rest, ok, conflictFrame)
    ensures var rest := frames[..|frames| - 1]; OkFlags(rest, true, 0)
  {
  }

  lemma PopOk(frames: seq<PushFrame>, idCounter: nat, n: nat, v: View)
    requires StackOk(frames, idCounter, n, v) && |frames| > 1
    ensures var rest := frames[..|frames| - 1]; StackOk(rest, idCounter, if n > |rest| then |rest| else n, v)
  {
    hide Stacked, FlagsRight, SimplifiedTo, Alive, Complete;
    PopKeeps(frames, idCounter, v.meaning);
    PopReady(frames, idCounter, n, v.asserted, v.cnfized, v.frameTerms, v.dead);
  }

  lemma PopPrefix(frames: seq<PushFrame>, i: int, m: Model)
    requires |frames| > 0 && i < |frames| - 1
    ensures PrefixHolds(frames[..|frames| - 1], i, m) <==> PrefixHolds(frames, i, m)
  {
  }

  lemma PopAdmits(frames: seq<PushFrame>, idCounter: nat, m: Model)
    requires Stacked(frames, idCounter) && |frames| > 1 && Admits(frames[..|frames| - 1], idCounter, m)
    ensures Admits(frames, idCounter, m)
  {
    var rest := frames[..|frames| - 1];
    PopPrefix(frames, 0, m);
    forall id: nat | 0 < id < idCounter ensures GuardExcused(frames, id, m) {
      assert GuardExcused(rest, id, m);
      if !Holds(GuardOf(id), m) {
        var p :| 0 <= p < |rest| && rest[p].id == id && PrefixHolds(rest, p, m);
        PopPrefix(frames, p, m);
        assert frames[p].id == id;
      }
    }
  }

  lemma PopKeeps(frames: seq<PushFrame>, idCounter: nat, meaning: seq<Clause>)
    requires Stacked(frames, idCounter) && FlagsRight(frames) && Complete(frames, idCounter, meaning) && |frames| > 1
    ensures var rest := frames[..|frames| - 1];
            Stacked(rest, idCounter) && FlagsRight(rest) && Complete(rest, idCounter, meaning)
  {
    var rest := frames[..|frames| - 1];
    forall i | 0 <= i < |rest| && rest[i].unsat ensures PrefixUnsat(rest, i) {
      assert PrefixUnsat(frames, i);
      forall m: Model ensures !PrefixHolds(rest, i, m) { PopPrefix(frames, i, m); }
    }
    forall m: Model | Admits(rest, idCounter, m) ensures Clauses.Sat(meaning, OfModel(m)) {
      PopAdmits(frames, idCounter, m);
    }
  }

  lemma PopReady(frames: seq<PushFrame>, idCounter: nat, n: nat, asserted: Cache, cnfized: Cache,
                 frameTerms: seq<Term>, dead: set<Term>)
    requires SimplifiedTo(frames, n, asserted, cnfized, frameTerms) && Alive(frames, idCounter, dead) && |frames| > 1
    ensures var rest := frames[..|frames| - 1];
            && SimplifiedTo(rest, if n > |rest| then |rest| else n, asserted, cnfized, frameTerms)
            && Alive(rest, idCounter, dead)
  {
    var rest := frames[..|frames| - 1];
    forall i: nat | i < n && i < |rest| && !rest[i].unsat ensures Ready(rest, i, asserted, cnfized, frameTerms) {
      assert Ready(frames, i, asserted, cnfized, frameTerms);
      forall m: Model ensures PrefixHolds(rest, i, m) <==> PrefixHolds(frames, i, m) { PopPrefix(frames, i, m); }
    }
  }

  // ---------- what the user asserted ----------

  ghost predicate AssertionsHold(asserted: seq<seq<Term>>, m: Model) {
    forall i, u :: 0 <= i < |asserted| && u in asserted[i] ==> Holds(u, m)
  }

  /** The formulas of a frame are the rewritten assertions of its level, and true. */
  ghost predicate Mirror(us: seq<Term>, fs: seq<Term>) {
    && (forall u :: u in us ==> InputTerm(u) && IsBool(u))
    && (forall f :: f in fs ==> f == True || exists u :: u in us && IteElimination.Rewritten(u, f))
    && (forall u :: u in us ==> exists f :: f in fs && IteElimination.Rewritten(u, f))
  }

  ghost predicate Mirrors(asserted: seq<seq<Term>>, frames: seq<PushFrame>) {
    |asserted| == |frames| && forall i :: 0 <= i < |frames| ==> Mirror(asserted[i], frames[i].formulas)
  }

  /** Models of the assertions extend to models of the stack, and models of the stack satisfy the assertions. */
  lemma MirrorModels(asserted: seq<seq<Term>>, frames: seq<PushFrame>, m: Model)
    requires Mirrors(asserted, frames)
    ensures StackHolds(frames, m) ==> AssertionsHold(asserted, m)
    ensures AssertionsHold(asserted, m) ==> StackHolds(frames, IteElimination.WithAux(m))
  {
    hide Eval, InputTerm;
    if StackHolds(frames, m) {
      forall i, u | 0 <= i < |asserted| && u in asserted[i] ensures Holds(u, m) {
        assert Mirror(asserted[i], frames[i].formulas);
        var f :| f in frames[i].formulas && IteElimination.Rewritten(u, f);
        assert Holds(f, m);
      }
    }
    if AssertionsHold(asserted, m) {
      ConstantMeaning(IteElimination.WithAux(m));
      forall i, f | 0 <= i < |frames| && f in frames[i].formulas ensures Holds(f, IteElimination.WithAux(m)) {
        assert Mirror(asserted[i], frames[i].formulas);
        if f != True {
          var u :| u in asserted[i] && IteElimination.Rewritten(u, f);
          assert Holds(u, m);
        }
      }
    }
  }

  lemma MirrorAnswer(asserted: seq<seq<Term>>, frames: seq<PushFrame>, status: Status)
    requires Mirrors(asserted, frames)
    requires status == Sat ==> exists m: Model :: StackHolds(frames, m)
    requires status == Unsat ==> forall m: Model :: !StackHolds(frames, m)
    ensures status == Sat ==> exists m: Model :: AssertionsHold(asserted, m)
    ensures status == Unsat ==> forall m: Model :: !AssertionsHold(asserted, m)
  {
    hide Mirrors, StackHolds, AssertionsHold;
    forall m: Model ensures StackHolds(frames, m) ==> AssertionsHold(asserted, m)
      ensures AssertionsHold(asserted, m) ==> StackHolds(frames, IteElimination.WithAux(m))
    {
      MirrorModels(asserted, frames, m);
    }
  }

  lemma MirrorsSame(asserted: seq<seq<Term>>, a: seq<PushFrame>, b: seq<PushFrame>)
    requires Mirrors(asserted, a) && SameFormulas(b, a)
    ensures Mirrors(asserted, b)
  {
    hide Mirror;
    forall i | 0 <= i < |b| ensures Mirror(asserted[i], b[i].formulas) {
      assert b[i].formulas == a[i].formulas;
    }
  }

  lemma PushMirrors(asserted: seq<seq<Term>>, frames: seq<PushFrame>, id: nat, unsat: bool)
    requires Mirrors(asserted, frames)
    ensures Mirrors(asserted + [[]], frames + [PushFrame(id, [], None, unsat)])
  {
  }

  lemma PopMirrors(asserted: seq<seq<Term>>, frames: seq<PushFrame>)
    requires Mirrors(asserted, frames)
    ensures |asserted| == |frames|
    ensures |frames| > 0 ==> Mirrors(asserted[..|asserted| - 1], frames[..|frames| - 1])
  {
    hide Mirror;
  }

  lemma MirrorsSome(asserted: seq<seq<Term>>, frames: seq<PushFrame>, idCounter: nat, n: nat, v: View)
    requires Mirrors(asserted, frames) && StackOk(frames, idCounter, n, v)
    ensures |asserted| == |frames| > 0
  {
    StackedSome(frames, idCounter);
  }

  lemma InputParts(root: Term)
    requires InputTerm(root)
    ensures WellFormed(root) && IteElimination.NoAux(root)
  {
    hide WellFormed, Vars;
  }

  /** The rewritten formula mentions no guard. */
  lemma RewrittenUser(root: Term, fla: Term)
    requires InputTerm(root) && IsBool(root) && IteElimination.Rewritten(root, fla)
    requires fla == root || IteElimination.Constrained(root, fla)
    ensures UserFormula(fla)
  {
    hide Vars, WellFormed, IteElimination.TopMostOf;
  }

  /** One more assertion at the top level. */
  ghost function Asserted(asserted: seq<seq<Term>>, root: Term): seq<seq<Term>>
    requires |asserted| > 0
  {
    var n := |asserted| - 1;
    asserted[n := asserted[n] + [root]]
  }

  lemma InsertMirrors(asserted: seq<seq<Term>>, frames: seq<PushFrame>, root: Term, fla: Term)
    requires Mirrors(asserted, frames) && |frames| > 0
    requires InputTerm(root) && IsBool(root) && IteElimination.Rewritten(root, fla)
    ensures |asserted| > 0 && Mirrors(Asserted(asserted, root), Inserted(frames, fla))
  {
    var n := |frames| - 1;
    assert Mirror(asserted[n], frames[n].formulas);
    hide InputTerm, IteElimination.Rewritten;
    InsertMirror(asserted[n], frames[n].formulas, root, fla);
    hide Mirror;
  }

  lemma InsertMirror(us: seq<Term>, fs: seq<Term>, u: Term, f: Term)
    requires Mirror(us, fs) && InputTerm(u) && IsBool(u) && IteElimination.Rewritten(u, f)
    ensures Mirror(us + [u], fs + [f])
  {
    hide InputTerm, IteElimination.Rewritten;
  }

  // ---------- insertion ----------

  lemma InsertOk(frames: seq<PushFrame>, idCounter: nat, n: nat, v: View, f: Term)
    requires StackOk(frames, idCounter, n, v) && UserFormula(f)
    ensures |frames| > 0
    ensures StackOk(Inserted(frames, f), idCounter, if n < |frames| - 1 then n else |frames| - 1, v)
  {
    hide Stacked, FlagsRight, SimplifiedTo, Alive, Complete, UserFormula;
    StackedSome(frames, idCounter);
    InsertKeeps(frames, idCounter, v.meaning, f);
    InsertReady(frames, idCounter, f, n, v.asserted, v.cnfized, v.frameTerms, v.dead);
  }

  /** The top frame got a formula the assertion was rewritten to. */
  ghost predicate InsertedRewritten(frames: seq<PushFrame>, root: Term, grown: seq<PushFrame>, rank: Order) {
    |frames| > 0 && exists fla :: IteElimination.Rewritten(root, fla) && IteElimination.Eliminated(root, fla, rank)
                                  && grown == Inserted(frames, fla)
  }

  lemma InsertsRewritten(frames: seq<PushFrame>, root: Term, fla: Term, rank: Order)
    requires |frames| > 0 && IteElimination.Rewritten(root, fla) && IteElimination.Eliminated(root, fla, rank)
    ensures InsertedRewritten(frames, root, Inserted(frames, fla), rank)
  {
    hide IteElimination.Rewritten, IteElimination.Eliminated;
  }

  lemma LesserIs(a: nat, b: int)
    ensures Lesser(a, b) == if a < b then a else b
  {
  }

  /** The smaller of two positions. */
  function Lesser(a: nat, b: int): int {
    if a < b then a else b
  }

  function Inserted(frames: seq<PushFrame>, f: Term): seq<PushFrame>
    requires |frames| > 0
  {
    var n := |frames| - 1;
    frames[n := frames[n].(formulas := frames[n].formulas + [f], root := None)]
  }

  lemma InsertPrefix(frames: seq<PushFrame>, f: Term, i: int, m: Model)
    requires |frames| > 0
    ensures PrefixHolds(Inserted(frames, f), i, m) ==> PrefixHolds(frames, i, m)
    ensures i < |frames| - 1 ==> (PrefixHolds(Inserted(frames, f), i, m) <==> PrefixHolds(frames, i, m))
  {
    var more := Inserted(frames, f);
    if PrefixHolds(more, i, m) {
      forall j, g | 0 <= j <= i && j < |frames| && g in frames[j].formulas ensures Holds(g, m) {
        assert g in more[j].formulas;
      }
    }
  }

  lemma InsertKeeps(frames: seq<PushFrame>, idCounter: nat, meaning: seq<Clause>, f: Term)
    requires Stacked(frames, idCounter) && FlagsRight(frames) && Complete(frames, idCounter, meaning) && UserFormula(f)
    ensures var more := Inserted(frames, f);
            Stacked(more, idCounter) && FlagsRight(more) && Complete(more, idCounter, meaning)
  {
    var more := Inserted(frames, f);
    hide UserFormula;
    forall i | 0 <= i < |more| && more[i].unsat ensures PrefixUnsat(more, i) {
      assert PrefixUnsat(frames, i);
      forall m: Model ensures !PrefixHolds(more, i, m) { InsertPrefix(frames, f, i, m); }
    }
    forall m: Model | Admits(more, idCounter, m) ensures Clauses.Sat(meaning, OfModel(m)) {
      InsertAdmits(frames, idCounter, f, m);
    }
  }

  lemma InsertAdmits(frames: seq<PushFrame>, idCounter: nat, f: Term, m: Model)
    requires Stacked(frames, idCounter) && Admits(Inserted(frames, f), idCounter, m)
    ensures Admits(frames, idCounter, m)
  {
    hide UserFormula;
    var more := Inserted(frames, f);
    InsertPrefix(frames, f, 0, m);
    forall id: nat | 0 < id < idCounter ensures GuardExcused(frames, id, m) {
      assert GuardExcused(more, id, m);
      if !Holds(GuardOf(id), m) {
        var p :| 0 <= p < |more| && more[p].id == id && PrefixHolds(more, p, m);
        InsertPrefix(frames, f, p, m);
        assert frames[p].id == id;
      }
    }
  }

  lemma InsertReady(frames: seq<PushFrame>, idCounter: nat, f: Term, n: nat, asserted: Cache, cnfized: Cache,
                    frameTerms: seq<Term>, dead: set<Term>)
    requires |frames| > 0 && SimplifiedTo(frames, n, asserted, cnfized, frameTerms) && Alive(frames, idCounter, dead)
    ensures var more := Inserted(frames, f);
            && SimplifiedTo(more, if |frames| - 1 < n then |frames| - 1 else n, asserted, cnfized, frameTerms)
            && Alive(more, idCounter, dead)
  {
    var more := Inserted(frames, f);
    forall i: nat | i < n && i < |frames| - 1 && !more[i].unsat ensures Ready(more, i, asserted, cnfized, frameTerms) {
      assert Ready(frames, i, asserted, cnfized, frameTerms);
      forall m: Model ensures PrefixHolds(more, i, m) <==> PrefixHolds(frames, i, m) { InsertPrefix(frames, f, i, m); }
    }
  }
}
