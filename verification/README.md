# Preprocessing in OpenSMT: a verified model

OpenSMT turns what the user asserts into what its SAT solver sees. On the way it eliminates
ites, simplifies by substitutions, converts to clauses with one guard for each frame of the
assertion stack, normalises linear arithmetic over its own rational numbers, and keeps
resolution proofs. This project models these steps in Dafny, loop by loop and field by field,
and proves that they keep the meaning of the formulas. Where a step does not, the input and the
exact condition are stated under "Findings".

Run `dafny verify dfyconfig.toml` to check everything.

## How it fits together

One theorem covers the whole pipeline. `Frames.MainSolver` is the assertion stack with push,
pop, insert and check; its ghost field `asserted` is what the user said at each level.
`Check` answers about `asserted`: a positive answer means a common model, a negative one that
there is none, after any sequence of operations, and with a search that always decides one of
the two is given. Inserting runs the ite elimination; giving a
frame to the solver adds the diamonds of its equalities and runs the substitution engine, the
merging of nested connectives and the conversion. Each contributes the theorem it needs:

| files | what they hold |
|---|---|
| `Terms`, `Pairs`, `NormalForm` | terms, models, truth assignments; the simplifying constructors, what they preserve and when their results are equal |
| `EqTransitivity` | the diamonds of equalities a formula is strengthened by |
| `Facts`, `Substitution`, `TarjanSearch`, `LoopBreaker`, `Simplification` | facts of a formula, substitution by ranked maps, Tarjan's search on an arena of nodes, loop breaking, the fixpoint |
| `Traversal`, `TreeOps` | depth-first searches with an explicit stack: invariants shared by the worklists |
| `IteDag`, `IteElimination`, `OwnSwitch` | the dag of ites, path conditions by an upward traversal, switches, replacement of ites; the formula that defeats it |
| `IncomingEdges`, `MaxArity` | how often a term is an argument; merging nested connectives of unshared terms |
| `Literals`, `Clauses`, `TermMapping` | solver literals, the meaning of clauses over terms, the injective map between terms and variables |
| `GuardedClauses`, `ClauseShapes`, `NestedBooleans`, `Definitions`, `CnfCaches`, `Conversion` | clauses under guards, the clause and de Morgan shortcuts, nested Boolean roots, Tseitin's definitions, the two caches, the converter |
| `FrameAssumptions`, `Frames` | the assumptions of a check, the frame state machine |
| `NumberTheory`, `Rationals`, `WordArithmetic`, `FastRational`, `Multiplicand` | gcds and coprimality, exact fractions, 32- and 64-bit word paths, the number class, the common multiplier |
| `Polynomials`, `LinearElimination`, `LinearConstraints`, `ConstraintForm` | elimination of variables by linear equations, integer tightening, one normal form for constraints with the same solutions |
| `Resolution`, `TopologicalOrder`, `ProofFilling` | clause merging, the two topological sorts, recomputing the clauses of a proof |
| `ValuationTrees`, `DecimalLiterals`, `Sequences` | function models as trees, decimal literals, shared sequence facts |

Loops and mutable objects of the source are loops and classes here, each tied to functions and
predicates over values; what is promised about those is proved as lemmas. References are
hash-consed in the source, so equality of references is equality of terms here, and the order of
references, which decides the order of arguments, is the parameter `rank`. `Truth` is any
assignment of truth values to Boolean terms that respects the connectives; path conditions are
exact for all of them, not only for those that come from models.

## Findings

Properties that do not hold of the code, each with an input and the exact condition. Where the
condition is one the callers keep, it is the contract they rely on.

- The ite elimination is meant to return a formula without ites. It stops when conjoining the
  switches gives the formula back, and that happens for a formula with ites exactly if it is the
  conjunction of its own switches (`IteElimination.ConjoinedSame`, `Rewrite`). The input is
  (c implies ite(c,a,b) = a) and (not c implies ite(c,a,b) = b), for which
  `OwnSwitch.ItesRemain` shows the call returning the ite. Models are kept even then.
- Collecting constants from linear equations is not equivalent to the equations. Once x = 0 is
  known, x - 5 = 0 fixes its variable again and is dropped (`LinearElimination.DropContradiction`).
  Call it a clash when an equation that fixes a variable is removed although the variable has
  another value already. Without a clash the result has exactly the solutions of the equations;
  with one the equations have none. So the solutions are kept if and only if there is no clash or
  what is kept has no solution either (`SolutionsKept`), and where it has one, a clash is there if
  and only if the collected values determine one of the equations and make it false
  (`ClashOnInput`). What is collected is entailed in every case, and the caller keeps the facts it
  took the equations from.
- `FastRational(word, uword)` divides a negative numerator as an unsigned number. On -2 and 2 it
  yields 2147483647 (`WordArithmetic.ConstructorFailsOn`). It is exact if and only if the numerator
  is not negative or the fraction is in lowest terms (`ConstructorExact`).
- `operator%` on words and on unbounded numbers gives different remainders for operands of
  different sign: 1 and 2 for -1 and 3, and for the least word and -1 the division of words is not
  even defined (`WordArithmetic.RemaindersDiffer`). They agree if and only if the operands are not
  the least word and -1, and the signs agree, the division is exact or the remainder is half the
  divisor (`RemaindersAgree`).
- The bottom-up topological sort counts all resolvents of a node, so it never lists an antecedent
  of the root that also has a resolvent outside the root's proof. It lists all nodes of the proof
  if and only if no resolvent of a node of the proof, other than of the root, lies outside it
  (`TopologicalOrder.TopolSortingBotUp`). For two nodes with the same two antecedents
  `BotUpMissesNodes` shows the call for the first, which lists that node alone.
- Merging two clauses does not check the polarity of the pivot: from p or q and p or r it makes
  q or r, which does not follow (`Resolution.MergesUnopposed`). The result follows from the clauses
  if and only if they clash on the pivot or contain another variable with both signs
  (`ResolventEntailed`).

## Model

| member | source | states |
|---|---|---|
| Terms.MkAndMeaning | src/logics/Logic.cc:427-470 | mkAnd over any Boolean arguments holds in a model exactly when all of them do, whatever it drops, absorbs or collapses; the result is well formed |
| Terms.MkOrMeaning | src/logics/Logic.cc:472-515 | mkOr holds in a model exactly when one of its arguments does, and is well formed |
| Terms.MkAndTruth | src/logics/Logic.cc:427-470 | mkAnd is the conjunction for every assignment of truth values to terms that respects negation and the constants, not just for those that come from models |
| Terms.MkOrTruth | src/logics/Logic.cc:472-515 | mkOr is the disjunction for every such assignment of truth values, the constants included |
| NormalForm.MkAndForm | src/logics/Logic.cc:427-470 | where the order of references separates the arguments, mkAnd is false if and only if false or a term and its negation are among them; otherwise it is built from exactly the other arguments, ascending strictly by the reference below the negation, with no constant, no repetition and no complementary pair |
| NormalForm.MkOrForm | src/logics/Logic.cc:472-515 | likewise mkOr is true if and only if true or a term and its negation are among the arguments, and is otherwise built from the strictly ascending list of the others |
| NormalForm.SameArguments | src/logics/Logic.cc:427-515 | mkAnd and mkOr depend on the set of their arguments alone, not on their order or repetition |
| NormalForm.ArgumentKept | src/logics/Logic.cc:427-515 | for any order of references, an argument that is no constant is an argument of the result unless the whole collapses |
| Terms.MkXorMeaning | src/logics/Logic.cc:517-544 | mkXor has the value of the exclusive or and is well formed, through all its shortcuts |
| NormalForm.MkXorForm | src/logics/Logic.cc:517-544 | an exclusive or is false exactly for one term on both sides, true exactly for complements, and does not depend on the order of its sides |
| Terms.MkImplMeaning | src/logics/Logic.cc:546-571 | mkImpl has the value of the implication |
| NormalForm.MkImplForm | src/logics/Logic.cc:546-571 | an implication is true exactly for a false premise, a true conclusion, or one term on both sides |
| Terms.MkEqMeaning | src/logics/Logic.cc:573-606 | mkEq holds exactly in the models where both sides have one value, for Boolean and other sorts |
| NormalForm.MkEqForm | src/logics/Logic.cc:573-606 | an equality is true exactly for one term on both sides and false exactly for complements; the order of the sides matters for Booleans only, and an equality that stays has no constant side |
| Terms.MkNotMeaning | src/logics/Logic.cc:654-676 | mkNot has the negated value and never builds a double negation |
| Terms.RebuildMeaning | src/rewriters/Rewriter.h:22-84 | replacing the arguments of any term by equal ones of the same sorts, through the simplifying constructors, keeps its value; only variables of the new arguments remain |
| Substitution.RewriteMeaning | src/rewriters/Substitutor.h:13-35 | substituting by a ranked map keeps the value of a term in every model of the equations of the keys the term meets |
| Substitution.RewriteChanges | src/rewriters/Substitutor.h:13-35 | substitution returns the same term exactly when no key occurs in it |
| Substitution.DeepestGoes | src/logics/Logic.cc:1066-1086 | a key of greatest rank among the variables of a term does not survive one substitution: why the closure makes progress |
| Substitution.TransitiveClosure | src/logics/Logic.cc:1066-1086 | the closure terminates on every ranked map; no key occurs in any target afterwards, although targets that were unchanged once are skipped from then on; the equations have the models they had |
| Facts.Contains | src/logics/Logic.cc:1162-1187 | the search over an explicit stack answers whether one term occurs in another |
| Facts.ConjunctsMeaning | src/logics/Logic.cc:1093-1149 | a signed formula holds in a model exactly when all the signed conjuncts it splits into do |
| Facts.GetNewFacts | src/logics/Logic.cc:1093-1149 | terminates; meets every conjunct once and fails exactly at the first that the fact of an earlier one contradicts; then the formula has no model; on success the map holds exactly the facts of the formula's conjuncts |
| Facts.FactsHold | src/logics/Logic.cc:1093-1149 | every model of a formula satisfies each of its facts, and facts bring no new variables |
| Facts.RetrieveSubstitutions | src/logics/Logic.cc:1001-1062 | fails exactly when an atom is fixed to both constants; otherwise returns a ranked sub-map of the first substitution offered for every variable, and each key left out lies on a dependency loop with a key that is kept |
| LoopBreaker.SubstNodeAllocator.Alloc | src/logics/SubstLoopBreaker.cc:45-66 | the node of a source term: the old one if it has one, else a new one over the variables of its target |
| LoopBreaker.TarjanAlgorithm.AddNode | src/logics/SubstLoopBreaker.cc:94-101 | refines the step of the search that puts a node on both stacks |
| LoopBreaker.TarjanAlgorithm.PopScc | src/logics/SubstLoopBreaker.cc:118-127 | pops exactly the nodes down to the root of a component, newest first, and marks them complete |
| TarjanSearch.AdvanceKeeps | src/logics/SubstLoopBreaker.cc:103-137 | asking for the next child keeps the order of the stacks, the statuses, the low links and the connectedness of the stack |
| TarjanSearch.LowerKeeps | src/logics/SubstLoopBreaker.cc:103-137 | lowering a low link to the index of a stack node that is reached keeps the invariant of the search |
| TarjanSearch.FinishKeeps | src/logics/SubstLoopBreaker.cc:103-137 | leaving a node that is not the root of its component keeps the invariant and hands its low link to its parent |
| TarjanSearch.ComponentKeeps | src/logics/SubstLoopBreaker.cc:103-137 | popping a component keeps the invariant: its nodes have no edge to an unfinished node, and a search without loops lists children first |
| TarjanSearch.ComponentIsLoop | src/logics/SubstLoopBreaker.cc:103-137 | in a component of several nodes the newest and the oldest node are different, have children and reach each other |
| TarjanSearch.ComponentTight | src/logics/SubstLoopBreaker.cc:103-137 | popping a component keeps, loops or not, that the children of completed nodes are completed, that finished nodes have passed their low link on, and what is known of the children the search has moved past |
| TarjanSearch.PoppedComponent | src/logics/SubstLoopBreaker.cc:103-137 | the nodes popped at a root, if none was completed before, are each once exactly a strongly connected component of the graph |
| LoopBreaker.TarjanAlgorithm.GetLoops | src/logics/SubstLoopBreaker.cc:103-137 | every list returned is a strongly connected component of several nodes, and every node on a cycle that this search completes is in one; no loop begins where another ends; without loops the nodes completed come out children first; the search terminates |
| LoopBreaker.SubstLoopBreaker.ConstructSubstitutionGraph | src/logics/SubstLoopBreaker.cc:139-197 | the nodes are the keys and the variables they lead to, their edges are exactly the variables of the targets, and the roots returned reach every node |
| LoopBreaker.SubstLoopBreaker.FindLoops | src/logics/SubstLoopBreaker.cc:199-209 | the lists are exactly the strongly connected components of several nodes that the start nodes reach; if there is none, the nodes reachable from the start nodes have an order in which children come first |
| LoopBreaker.SubstLoopBreaker.BreakLoops | src/logics/SubstLoopBreaker.cc:257-269 | exactly the last nodes of the loops lose their children, nothing else changes, and start nodes and orphans together still reach every node |
| LoopBreaker.SubstLoopBreaker.ConstructLooplessSubstitution | src/logics/SubstLoopBreaker.cc:211-229 | the result maps exactly the enabled keys whose node kept its children, to their targets |
| LoopBreaker.SubstLoopBreaker.Run | src/logics/SubstLoopBreaker.cc:231-255 | terminates and returns a sub-map that a rank orders, so it is acyclic; every enabled key that was dropped lies on a dependency loop with a key that is kept, so a map that offers something is never emptied |
| LoopBreaker.RankedHasNoLoop | src/logics/SubstLoopBreaker.cc:231-255 | no key of a ranked map depends on itself through another key, over dependency paths of any length |
| Simplification.OffersEntailed | src/logics/Theory.cc:45-61 | every substitution retrieved from a formula's facts is an equation that holds in all its models |
| Simplification.RewriteRoot | src/logics/Theory.cc:72-79 | rewriting a formula by its closed substitutions removes the keys; formula and equations together have the models of the old formula; a changed formula has fewer variables |
| Simplification.RoundKeeps | src/logics/Theory.cc:43-80 | a round keeps the invariant, and its new keys are disjoint from all earlier ones: the guard that skips known keys drops nothing |
| Simplification.NothingOffered | src/logics/Theory.cc:45-61 | if the substitutions retrieved from a formula are none, no fact of any conjunct offers one: neither the search for facts nor the loop breaker has lost it |
| Simplification.ExhaustedIrreducible | src/logics/Logic.cc:1001-1062 | a formula whose facts offer no substitution has, by its shape, no conjunct that can be solved for a variable |
| Simplification.ComputeSubstitutions | src/logics/Theory.cc:34-96 | for every formula the loop terminates (the variables shrink) at a fixpoint: no conjunct of the result is a Boolean variable of either sign, an equality with a variable on one side that does not occur on the other, or an exclusive or that amounts to one; eliminated variables do not occur in the result, the remembered map is acyclic, and map and result together have exactly the models of the formula |
| Simplification.FlaFromSubstitutionResult | src/logics/Theory.cc:110-120 | the conjunction of the equations of the map, in the order of the keys, and of the result; it holds exactly where they all do |
| Simplification.ApplySubstitutionBasedSimplification | src/logics/Theory.cc:122-124 | for every formula the conjunction of the equations found and of a result that can be solved no further; it has exactly the models of the input |
| TreeOps.TopLevelConjuncts | src/common/TreeOps.h:28-125 | the visitor returns exactly the terms below the conjunctions at the top, each once, on every dag |
| Clauses.PropModel | src/cnfizers/Tseitin.cc:36-84 | under the valuation a model induces, the propositional value of a formula is its truth in the model |
| Clauses.DefClausesMeaning | src/cnfizers/Tseitin.cc:87-260 | the clauses for one term hold in a valuation exactly when the term's literal has the value of its connective over the literals of its arguments |
| Clauses.DefinedValue | src/cnfizers/Tseitin.cc:36-84 | where the definitions of everything below a formula hold, its literal has the formula's propositional value |
| TermMapping.TermMapper.GetOrCreateLit | src/cnfizers/TermMapper.cc:32-111 | the literal stands for the term with the sign of its negations; the maps between terms and variables stay inverse, and a variable is created only for a term without one |
| TermMapping.LiftClauses | src/cnfizers/TermMapper.cc:32-111 | because no two variables stand for one term, every assignment to the solver's variables is a valuation of terms with the same clauses |
| TermMapping.AsClausesGrow | src/cnfizers/TermMapper.cc:32-51 | new variables leave the meaning of all clauses as it is |
| GuardedClauses.AddsMeaning | src/cnfizers/Cnfizer.cc:365-400 | what valuations satisfy after clauses were added: the old clauses and, unless the solver is no longer OK, the new ones; nothing else |
| ClauseShapes.IsClause | src/cnfizers/Cnfizer.cc:284-321 | answers whether a formula is a literal or a tree of disjunctions over literals |
| ClauseShapes.CheckDeMorgan | src/cnfizers/Cnfizer.cc:323-363 | answers whether a formula is a negated tree of conjunctions over literals |
| ClauseShapes.RetrieveClause | src/cnfizers/Cnfizer.cc:437-452 | appends exactly the leaves of the tree of disjunctions, from left to right; one of them is true exactly when the formula is, in every valuation |
| ClauseShapes.RetrieveConjuncts | src/cnfizers/Cnfizer.cc:454-467 | appends exactly the leaves of the tree of conjunctions, from left to right; they are all true exactly when the formula is, in every valuation |
| NestedBooleans.GetNestedBoolRoots | src/logics/Logic.cc:295-316 | exactly the Boolean arguments of subterms that are no Boolean operators |
| Conversion.Cnfizer.AddClause | src/cnfizers/Cnfizer.cc:365-400 | adds the clause with the guard literal of the current frame, and nothing else; reports whether the solver is still OK |
| Conversion.Cnfizer.CnfizeAnd | src/cnfizers/Tseitin.cc:87-117 | adds exactly the definition of a conjunction, guarded by the current frame |
| Conversion.Cnfizer.CnfizeOr | src/cnfizers/Tseitin.cc:119-146 | adds exactly the definition of a disjunction, guarded by the current frame |
| Conversion.Cnfizer.CnfizeXor | src/cnfizers/Tseitin.cc:148-202 | adds exactly the definition of an exclusive or, guarded by the current frame |
| Conversion.Cnfizer.CnfizeIff | src/cnfizers/Tseitin.cc:204-260 | adds exactly the definition of an equivalence, guarded by the current frame |
| Conversion.Cnfizer.Cnfize | src/cnfizers/Tseitin.cc:36-84 | terminates; adds the definitions of exactly the terms below the connectives of the formula that the cache did not know for the frame or the bottom frame, each once; afterwards the cache is closed: whatever a cached term's value depends on is cached for its frame or the bottom frame |
| CnfCaches.CachedValue | src/cnfizers/Cnfizer.cc:482-490 | where a frame is enabled, the literal of every term its cache knows has the term's propositional value: a cache hit never leaves out a definition that an enabled clause needs |
| Conversion.Cnfizer.AssertClause | src/cnfizers/Cnfizer.cc:406-435 | a formula that is a clause already is added as the one guarded clause of its leaves, which has its meaning |
| Conversion.Cnfizer.DeMorganize | src/cnfizers/Cnfizer.cc:213-239 | a negated conjunction of literals is added as the one guarded clause of the negated leaves, which has its meaning |
| Conversion.Cnfizer.AssertConjunct | src/cnfizers/Cnfizer.cc:159-170 | a conjunct that is a clause or a negated conjunction of literals adds its clause and no definition; any other adds its unit clause and exactly the definitions below it that were missing |
| CnfCaches.AssertKeeps | src/cnfizers/Cnfizer.cc:129-185 | after a conjunct was asserted, by whichever shortcut, it holds in every valuation of the clauses that enables its frame; what was asserted before still does |
| CnfCaches.AssertSurvives | src/cnfizers/Cnfizer.cc:129-185 | asserting a conjunct loses no model of a formula that entails it, and none that disables the frame |
| Conversion.Cnfizer.SetFrameTerm | src/cnfizers/Cnfizer.cc:109-127 | the guard of the frame is current; it is created on first use and the guards of other frames stay |
| Conversion.Cnfizer.CnfizeAndGiveToSolver | src/cnfizers/Cnfizer.cc:129-185 | on success all top-level conjuncts are asserted and all nested Boolean roots defined for the frame; on failure the clauses have no model; models of the formula, and models that disable the frame, survive; the clauses added assert conjuncts the frame did not have, or are missing definitions that an indirect one of these or a nested root needs, and nothing else |
| FrameAssumptions.SolutionFrames | src/cnfizers/Cnfizer.cc:79-107 | a solution under the assumptions is a valuation of the clauses in which exactly the guards of the given frames are off |
| FrameAssumptions.NoModel | src/cnfizers/Cnfizer.cc:79-107 | a conflict among the first k enabled assumptions means that no model enables the frames up to position k |
| Conversion.Cnfizer.Assumptions | src/cnfizers/Cnfizer.cc:79-107 | the in-place filtering leaves one literal for every frame that has a guard, in order: negated for the enabled frames, positive for all others |
| Conversion.Cnfizer.Solve | src/cnfizers/Cnfizer.cc:79-107 | a positive answer comes with a valuation that enables the given frames and satisfies the clauses; a negative one names a frame up to which no model exists; clauses and variables are kept |
| Frames.GivenHolds | src/cnfizers/Cnfizer.cc:129-185 | a formula given for a frame holds in every model that agrees with a valuation of the clauses enabling the frame |
| Frames.GuardsAdmit | src/cnfizers/Cnfizer.cc:79-127 | a model of the formulas up to a frame stays a model when the guards of these frames are switched off and all others on; clauses of other frames are satisfied by their guards |
| Frames.ConflictPrefix | src/api/MainSolver.cc:264-312 | if no model of the clauses enables the frames up to position k, the formulas of these frames have no model |
| Frames.StackModel | src/api/MainSolver.cc:295-312 | the model of a positive answer satisfies every formula on the stack |
| Frames.FlaggedRight | src/api/MainSolver.h:145-150 | flagging from an unsatisfiable prefix on keeps the flags upward closed and right: the formulas up to a flagged frame have no model |
| Frames.MainSolver.constructor | src/api/MainSolver.h:157-178 | one bottom frame; the invariant of all runs holds |
| Frames.MainSolver.Push | src/api/MainSolver.cc:45-51 | a new frame that inherits the flag of the one below; the invariant is kept |
| Frames.MainSolver.Pop | src/api/MainSolver.cc:53-77 | drops the top level unless it is the bottom one; the solver is usable again exactly unless the rest is known to be unsatisfiable; as many frames as are left stay simplified; the invariant is kept |
| Frames.MainSolver.InsertFormula | src/api/MainSolver.cc:102-133 | refuses other sorts; otherwise the top frame, which has to be simplified again, gets exactly what the elimination of ites makes of the formula; the invariant, which ties the frames to what the user asserted, is kept |
| Frames.MainSolver.RememberUnsatFrame | src/api/MainSolver.h:145-150 | flags exactly the frames from the index on |
| Frames.MainSolver.GetCollateFunction | src/logics/Theory.cc:18-32 | the conjunction of the formulas of the frames up to the current one; it holds exactly where they all do |
| IncomingEdges.ComputeIncomingEdges | src/simplifiers/BoolRewriting.cc:19-57 | terminates; the count of a term is the number of argument positions, over all Boolean operators of the formula, that hold it, although an operator is expanded once and its arguments may wait on the stack several times; the root has no edge and counts one |
| MaxArity.MergeAndOrArgs | src/simplifiers/BoolRewriting.h:29-53 | opens exactly the rewritten arguments with the same connective that one place holds, and keeps the term if nothing changed; SharedStays and FlatStays say what that leaves |
| MaxArity.MergedMeaning | src/simplifiers/BoolRewriting.h:56-115 | merging keeps the models of a formula, whichever terms are taken for shared |
| MaxArity.MergedFlat | src/simplifiers/BoolRewriting.h:56-115 | in the merged formula a conjunction below a conjunction, or a disjunction below a disjunction, is what became of a shared term, at any depth that Boolean operators reach |
| MaxArity.SharedStays | src/simplifiers/BoolRewriting.h:29-53 | what became of an argument held in several places is one argument of the merged connective still, unless it is a constant or the connective collapses |
| MaxArity.FlatStays | src/simplifiers/BoolRewriting.h:56-115 | a formula in which a connective is below the same connective only where several places hold it is kept as it is |
| MaxArity.RewriteMaxArity | src/simplifiers/BoolRewriting.h:56-115 | the worklist terminates with the bottom-up merging of the formula; every argument it meets is an operator or an atom |
| MaxArity.RewriteMaxArityClassic | src/simplifiers/BoolRewriting.cc:59-69 | the formula is the merging of the root in which exactly the terms held in several places are taken for shared; it has the models of the root; nested connectives are left only where several places held the nested term, and a root with no others comes back unchanged |
| EqTransitivity.Ends | src/logics/Logic.cc:1224-1247 | the two ends of a conjunction of two equalities with a common side, which are unique if they differ |
| EqTransitivity.LearnEqTransitivity | src/logics/Logic.cc:1190-1265 | the search terminates with one implication for every diamond of equalities below the formula, and for nothing else; their conjunction is well formed, brings no new variables and holds in every model |
| EqTransitivity.DiamondForced | src/logics/Logic.cc:1213-1215 | truth values that know nothing of equality but follow the connectives make the ends of every true diamond equal once they make the learnt conjunction true |
| Frames.MainSolver.Simplify | src/logics/UFTheory.cc:10-26 | the frame's root becomes the collated formula, conjoined with the implications of its diamonds and simplified by substitutions to a fixpoint; it means what the formulas of the frames up to this one mean |
| Frames.MainSolver.GiveFrame | src/api/MainSolver.cc:135-190 | one frame gets its simplified root, and its widened form is what the solver is given: either the invariant holds for one frame more, or the formulas up to this frame have no model |
| Frames.MainSolver.SimplifyFormulas | src/api/MainSolver.cc:135-190 | gives exactly the frames that are not simplified, up to the first that fails; on failure exactly the frames from the failing one on are flagged, rightly |
| Frames.MainSolver.Check | src/api/MainSolver.cc:264-312 | over every run of push, pop, insert and check: a positive answer means that all assertions on the stack have a common model, a negative one that they have none; a search that always decides never leaves the check undecided, so the answer is then positive if and only if there is a common model; the roots of simplified frames stay, and flags go from the failing or blamed frame on |
| Frames.MirrorModels | src/api/MainSolver.cc:102-133 | models of the assertions extend to models of the stack, and models of the stack satisfy the assertions |
| IteDag.ConstructIteDag | src/itehandler/IteToSwitch.cc:192-263 | the dag has a node for every ite, children allocated before parents, and the top-level ites are exactly the root, if it is one, the conditions of ites and the arguments of other terms |
| IteDag.GetReachableSubGraph | src/itehandler/IteToSwitch.cc:75-125 | the dag of one ite has nodes for exactly its branches, children before parents again |
| IteDag.Dag.AnnotateWithParentInfo | src/itehandler/IteToSwitch.cc:33-73 | every node gets exactly its parents with their signs, sorted, and the leaves are exactly the leaf nodes, ascending |
| IteDag.ClimbingTop | src/itehandler/IteToSwitch.cc:127-190 | in the upward traversal the top of the stack is unfinished, and it is a leaf exactly when no gray node is above it; gray nodes are never above the top |
| IteDag.AllParentsBlack | src/itehandler/IteToSwitch.cc:127-190 | a gray node is never a parent of the top, so the condition of every parent is there when it is looked up |
| IteDag.Dag.GetCondValPairs | src/itehandler/IteToSwitch.cc:127-190 | the traversal terminates and pairs every leaf with its path condition, the last leaf first |
| IteDag.PathExact | src/itehandler/IteToSwitch.cc:127-190 | the path condition of a node holds exactly when evaluation from the root passes through it, for every assignment of truth values |
| IteDag.OneCondition | src/itehandler/IteToSwitch.cc:127-190 | exactly one leaf condition holds: that of the leaf evaluation reaches |
| IteDag.MakeSwitch | src/itehandler/IteToSwitch.cc:274-283 | builds the conjunction of one implication for each leaf of the ite's own dag |
| IteDag.SwitchTruth | src/itehandler/IteToSwitch.cc:274-283 | the switch of an ite holds exactly when the ite equals the leaf that evaluation reaches |
| IteElimination.ReplaceItes | src/itehandler/IteHandler.cc:42-99 | the loop replaces every topmost ite by its variable and nothing else, without looking below the ite |
| IteElimination.StripShape | src/itehandler/IteHandler.cc:42-99 | the result of the replacement has no ite and is well formed; its new variables are those of topmost ites |
| IteElimination.SwitchedValue | src/itehandler/IteHandler.cc:10-14 | in a model of all stripped switches every auxiliary variable has the value of its ite, ites below ites included |
| IteElimination.IteToSwitch.constructor | src/itehandler/IteToSwitch.cc:265-272 | one switch for each top-level ite |
| IteElimination.IteToSwitch.Conjoin | src/itehandler/IteToSwitch.cc:285-287 | the formula with all switches |
| IteElimination.ConjoinedSame | src/itehandler/IteHandler.cc:10-14 | conjoining gives the formula back exactly if it has no ite or is itself the conjunction of its switches |
| IteElimination.Rewrite | src/itehandler/IteHandler.cc:10-14 | every model of the input, with each variable given its ite's value, is a model of the output; every model of the output is one of the input; each auxiliary variable has its ite's value in it; the output is the conjunction with all switches with its ites replaced, unless that conjunction is the input; it has no ite if and only if the input has none or is not the conjunction of its switches |
| OwnSwitch.ItesRemain | src/itehandler/IteHandler.cc:10-14 | the elimination called on the formula that is its own switch returns it unchanged, with its ite |
| WordArithmetic.GcdWords | src/common/FastRational.h:516-530 | the Euclidean loop computes the greatest common divisor |
| WordArithmetic.SumLword | src/common/FastRational.h:563-571 | the sum of two 64-bit values exactly when it stays within 64 bits; the test itself does not overflow |
| WordArithmetic.DifferenceLword | src/common/FastRational.h:573-581 | the difference of two 64-bit values exactly when it stays within 64 bits |
| WordArithmetic.AddWords | src/common/FastRational.h:631-691 | every word branch gives the exact sum in lowest terms exactly when it fits the two words |
| WordArithmetic.SubWords | src/common/FastRational.h:693-759 | every word branch gives the exact difference in lowest terms exactly when it fits the two words |
| WordArithmetic.AddAssignWords | src/common/FastRational.h:869-908 | the in-place sum is exact and in lowest terms; the word path gives up on a sum that fits if and only if both fractions are added over the product of the denominators and the sum, or its gcd with the product, leaves 64 bits |
| WordArithmetic.SubAssignWords | src/common/FastRational.h:910-939 | the in-place difference is exact and in lowest terms; the word path gives up on a difference that fits if and only if a numerator over the least common denominator is no word |
| WordArithmetic.MulWords | src/common/FastRational.h:761-810 | cross-cancelling alone gives the exact product in lowest terms exactly when it fits |
| WordArithmetic.MulAssignWords | src/common/FastRational.h:941-972 | the in-place product is exact; the word path gives up on a product that fits only if its numerator is the least word |
| WordArithmetic.DivAssignWords | src/common/FastRational.h:974-1004 | the in-place quotient is exact; the word path gives up on a quotient that fits only if its numerator is the least word |
| WordArithmetic.InverseWords | src/common/FastRational.h:1011-1036 | the reciprocal exactly when it fits the two words |
| WordArithmetic.CompareWords | src/common/FastRational.h:489-500 | the sign of the difference of the two values |
| WordArithmetic.CeilWords | src/common/FastRational.h:284-297 | the least integer above a fraction that is not an integer |
| WordArithmetic.FloorQuotientWords | src/common/FastRational.cc:147-168 | the floor of the quotient for all words but the least one, which goes to the unbounded path |
| WordArithmetic.SumGcdNarrows | src/common/FastRational.h:660-672 | the gcd of a non-zero sum and the common denominator is no greater than a denominator, so storing it in 32 bits never truncates |
| WordArithmetic.ConstructorExact | src/common/FastRational.h:614-629 | the constructor from two words reduces correctly if and only if the numerator is not negative or the fraction is in lowest terms |
| WordArithmetic.ConstructorFailsOn | src/common/FastRational.h:614-629 | on -2 and 2 it gives 2147483647 instead of -1 |
| WordArithmetic.RemaindersAgree | src/common/FastRational.h:387-397 | the remainder on words is defined and agrees with the unbounded one if and only if the operands are not the least word and -1, and the signs agree, the division is exact or the remainder is half the divisor |
| WordArithmetic.RemaindersDiffer | src/common/FastRational.h:387-397 | for -1 and 3 the two paths give 1 and 2; for the least word and -1 the quotient of words is not defined |
| Rationals.SumGcdDividesDenGcd | src/common/FastRational.h:655-672 | the gcd left in a non-zero sum over the least common denominator divides the gcd of the denominators |
| Rationals.CrossCancel | src/common/FastRational.h:775-800 | cancelling across the two fractions alone gives the exact product in lowest terms |
| Rationals.CanonicalUnique | src/common/FastRational.h:452-459 | fractions in lowest terms are equal part by part exactly when their values are |
| FastRationals.Addition | src/common/FastRational.h:631-691 | the destination holds the exact sum in lowest terms and the operands keep their values, also when they are one object; on words that hold the result the unbounded fraction is not touched |
| FastRationals.Substraction | src/common/FastRational.h:693-759 | the destination holds the exact difference in lowest terms and the operands keep their values, also when they are one object; on words that hold the result the unbounded fraction is not touched |
| FastRationals.Multiplication | src/common/FastRational.h:761-810 | the destination holds the exact product in lowest terms and the operands keep their values, also when they are one object; on words that hold the result the unbounded fraction is not touched |
| FastRationals.Division | src/common/FastRational.h:812-858 | the destination holds the exact quotient in lowest terms and the operands keep their values; on words that hold the result, other than with the least numerator, the unbounded fraction is not touched |
| FastRationals.AdditionAssign | src/common/FastRational.h:869-908 | the first operand becomes the exact sum, also when both are one object; for words the unbounded fraction is used if and only if the word path gives up |
| FastRationals.SubstractionAssign | src/common/FastRational.h:910-939 | the first operand becomes the exact difference; for words the unbounded fraction is used if and only if the word path gives up |
| FastRationals.MultiplicationAssign | src/common/FastRational.h:941-972 | the first operand becomes the exact product |
| FastRationals.DivisionAssign | src/common/FastRational.h:974-1004 | the first operand becomes the exact quotient |
| FastRationals.FastRational.Equals | src/common/FastRational.h:452-459 | equality of the stored parts decides equality of the values |
| FastRationals.FastRational.Compare | src/common/FastRational.h:489-500 | the sign of the difference of the values, in either representation |
| FastRationals.FastRational.Ceil | src/common/FastRational.h:284-297 | the least integer not below the value |
| FastRationals.FastRational.Floor | src/common/FastRational.h:299-303 | the greatest integer not above the value |
| FastRationals.FastRational.Negate | src/common/FastRational.h:475-487 | the negated value; a word stays a word unless it is the least one |
| FastRationals.FastRational.Inverse | src/common/FastRational.h:1011-1036 | the reciprocal, and the operand keeps its value |
| FastRationals.FloorQuotient | src/common/FastRational.cc:147-168 | the quotient of two integers rounded down, in either representation |
| Multiplicand.GetMultiplicand | src/common/FastRational.cc:196-247 | the integers that clear all denominators are exactly the multiples of the result; the loop terminates |
| Multiplicand.RoundKeepsClears | src/common/FastRational.cc:207-241 | one round keeps the integers that clear the multiplier and the remaining denominators |
| Polynomials.Merge | src/tsolvers/lasolver/Polynomial.h:93-172 | the merged polynomial is sorted without zero coefficients and has the value of the sum, at all points |
| LinearElimination.EraseIndices | src/logics/ArithLogic.cc:251-257 | exactly the polynomials at the other positions remain, with multiplicity |
| LinearElimination.RoundMeaning | src/logics/ArithLogic.cc:259-326 | a round keeps common zeros and, if there was one, adds none |
| LinearElimination.CollectConstantSubstitutions | src/logics/ArithLogic.cc:259-326 | terminates (the variables that occur shrink); every solution of the equations has the collected values and solves what is kept; nothing else does unless an equation was removed although its variable had another value, and then the equations have no solution; every equation, at the collected values, is kept, removed or zero; no polynomial kept is settled |
| LinearElimination.ClashOnInput | src/logics/ArithLogic.cc:277-302 | if what is kept has a solution, an equation was removed against the value of its variable if and only if the collected values determine an equation of the input and make it false |
| LinearElimination.SolutionsKept | src/logics/ArithLogic.cc:259-326 | the result has exactly the solutions of the equations if and only if no equation was removed against the value its variable had, or what is kept has no solution; the former can be read off the equations and the collected values |
| LinearElimination.DropContradiction | src/logics/ArithLogic.cc:277-302 | for x = 0 and x - 5 = 0 the second equation is dropped: the result has a solution although the equations have none |
| LinearElimination.CollectSingleEqualitySubstitutions | src/logics/ArithLogic.cc:343-374 | every polynomial with a variable that no other polynomial has is solved for such a variable and removed; no polynomial is solved twice, exactly the others are kept, and solved and kept ones together have exactly the old solutions |
| LinearElimination.SinglesMeaning | src/logics/ArithLogic.cc:343-374 | solved and kept polynomials together have exactly the old solutions |
| LinearElimination.ArithmeticElimination | src/logics/ArithLogic.cc:377-437 | every entry of the combined map follows from the equations, no variable occurs in its own value, and a rank orders the map, so it has no cycle; every equation that mentions a variable mentions one that has a value in the map |
| LinearElimination.TriangularSolvable | src/logics/ArithLogic.cc:377-437 | whatever the other variables are, the variables of a ranked map have values that satisfy it |
| LinearConstraints.Plus | src/logics/ArithLogic.cc:557-621 | the normalised sum has the value of the sum at all points and no factor is zero or repeated |
| LinearConstraints.Negate | src/logics/ArithLogic.cc:489-537 | the negated value at all points |
| LinearConstraints.SumToNormalizedIntPair | src/logics/ArithLogic.cc:1219-1295 | coprime integer coefficients and the constant on the other side, after scaling by one positive number |
| LinearConstraints.SumToNormalizedRealPair | src/logics/ArithLogic.cc:1297-1315 | a leading coefficient of one or minus one, after scaling by one positive number |
| LinearConstraints.MkBinaryLeq | src/logics/ArithLogic.cc:667-690 | over the integers the result holds at exactly the same points, with coprime integer coefficients and an integer bound; over the reals it holds at exactly the same points with a unit leading coefficient; the factors ascend by variable |
| LinearConstraints.MkBinaryEq | src/logics/ArithLogic.cc:746-774 | over the integers and the reals the result holds at exactly the same points, with factors that ascend by variable; over the integers it is false if and only if there is no integer solution |
| ConstraintForm.LeqForm | src/logics/ArithLogic.cc:667-690 | two inequalities, over the integers or the reals, become the same term if and only if they have the same solutions |
| ConstraintForm.EqForm | src/logics/ArithLogic.cc:746-774 | two equalities become the same term, up to the sign of all coefficients, if and only if they have the same solutions |
| LinearConstraints.TightSolvable | src/logics/ArithLogic.cc:1330-1335 | an equation with coprime integer coefficients and an integer constant has an integer solution |
| Resolution.MergeClauses | src/proof/PGHelp.cc:167-217 | the result is the sorted union without the pivot and without repetitions; no write is beyond the places made room for |
| Resolution.ResolventEntailed | src/proof/PGHelp.cc:167-217 | the resolvent follows from its antecedents if and only if they clash on the pivot or contain another variable with both signs |
| Resolution.MergesUnopposed | src/proof/PGHelp.cc:167-217 | merging p or q with p or r on p gives q or r, which does not follow |
| Resolution.HasOccurrenceBin | src/proof/PGHelp.cc:27-43 | binary search finds the sign of the variable exactly when it occurs |
| TopologicalOrder.TopolSortingTopDown | src/proof/PGHelp.cc:104-130 | terminates; the nodes listed are exactly those derivable from the leaves, each once, after both its antecedents |
| TopologicalOrder.TopolSortingBotUp | src/proof/PGHelp.cc:132-159 | terminates; each node listed occurs once, after all its resolvents; the root is listed, and so is every node whose resolvents are listed; all nodes of the proof are listed if and only if all resolvents lie below the root |
| TopologicalOrder.BotUpMissesNodes | src/proof/PGHelp.cc:132-159 | for two nodes with the same two antecedents the sort from the first lists it alone, although its proof has three nodes |
| ProofFilling.ProofGraph.FillProofGraph | src/proof/PGBuild.cc:338-373 | recomputes from the leaves the clauses of any resolution proof with these leaves and pivots |
| ProofFilling.ProofGraph.EmptyProofGraph | src/proof/PGBuild.cc:375-390 | clears exactly the clauses of the inner nodes |
| ProofFilling.ProofSound | src/proof/PGBuild.cc:338-373 | every clause of a proof follows from its leaves |
| ProofFilling.Refutation | src/proof/PGBuild.cc:338-373 | under every assignment a proof of the empty clause has a leaf that is false |
| ValuationTrees.ModelBuilder.AddToValuationTree | src/models/ModelBuilder.cc:60-91 | afterwards the tree has the value for the tuple unless it had one, and all other tuples and trees look up what they did |
| ValuationTrees.ModelBuilder.AddToTheoryFunction | src/models/ModelBuilder.cc:22-58 | refuses exactly the tuples and values whose number or sorts the signature does not allow; otherwise the first value given for a tuple is what is recorded, over any sequence of insertions |
| ValuationTrees.ValuationTreeToFunctionBody | src/models/ModelBuilder.cc:93-135 | the traversal with an explicit stack terminates and gives the body that the recursive definition gives |
| ValuationTrees.BodyAgrees | src/models/ModelBuilder.cc:93-135 | the nested ites evaluate to what the tree has for the arguments, and to the default elsewhere |
| ValuationTrees.ModelBuilder.FunctionBody | src/models/ModelBuilder.cc:10-20 | the body of a function is, for every tuple, the first value given for it, and the default for all tuples without one |
| DecimalLiterals.FirstPass | src/common/StringConv.h:122-157 | accepts exactly the decimals and the fractions, and counts the significant digits |
| DecimalLiterals.SecondPass | src/common/StringConv.h:169-189 | the length of the denominator is one more than the places that are not trailing zeros |
| DecimalLiterals.CopyNominator | src/common/StringConv.h:195-204 | writes exactly the significant digits and never passes the terminator |
| DecimalLiterals.WriteFraction | src/common/StringConv.h:192-212 | the fraction with its terminator fills the buffer exactly |
| DecimalLiterals.ValueKept | src/common/StringConv.h:109-215 | the significant digits over the power of ten that is left have the value of the literal |
| DecimalLiterals.FractionTextShort | src/common/StringConv.h:169-212 | the text of a decimal that is not zero is as short as it can be: no leading zero, and a last digit other than zero unless the denominator is one |
| DecimalLiterals.StringToRational | src/common/StringConv.h:109-215 | accepts exactly decimals and fractions with an optional sign; the text of a decimal is zero or the significant digits over the least power of ten, and denotes its value; zero has no sign; a fraction is passed on |

## Left out

Whole parts of the repository:

- SAT search, theory solvers and lookahead: the solver is a set of clauses with two sound oracles, one for conflicts while clauses are added and one for the search under assumptions. A positive answer of the search is taken to come with a model of the theory.
- Parsing, command dispatch, options, printing, statistics, timers, the C interface and threads.
- Interpolation and partitions: the branches under `produce_inter` and `keepPartitionInfo` are not modelled.
- Bit vectors, arrays, distinct terms beyond their equalities (`DistinctRewriter`), `div` and `mod`.
- GMP: the unbounded part of a rational is an exact fraction, and normalising it an assignment.
- Proof reduction and the transformations of proofs.
- Simplification under assignments and dominators (`simplifyUnderAssignment`), which no core step calls.

In the modelled parts:

- Terms are those of QF_UF with ites and without constants of uninterpreted sorts, so two different constants are never known to be distinct. With such constants a substitution key may be a compound term, and the claim that eliminated keys do not come back is about variables.
- Simplification.ComputeSubstitutions: the arithmetic override of `retrieveSubstitutions` is not plugged in; `LinearElimination` states what it computes on polynomials. Turning equality terms into polynomials and back (`polyToPTRef`) is not modelled, nor are conflicts with the formula's other facts.
- Frames.MainSolver.Simplify: this is the simplification of `UFTheory`, with partitions off. The rewriting of distinct terms after it is the identity on terms without them, and `AppearsInUfVisitor` (src/logics/UFTheory.cc:23-25) sets marks that have no meaning.
- Frames.MainSolver.InsertFormula: user formulas mention neither guards nor the variables of ites, which the source secures by reserved names; `conjoinExtras` is the identity, as in the base class.
- Frames.MainSolver.Check: the exception for overflow during the search and the computation of a model by the theory are left out; frames are stored in the stack instead of being referenced through a store.
- Conversion.Cnfizer: `declareVars` and the collection of formulas below uninterpreted functions are left out, as are the clauses of implications, which `mkImpl` builds as disjunctions, and of ites, whose call is commented out (src/cnfizers/Tseitin.cc:67-69). The cache of `checkPureConj` is write-only in the source and omitted.
- Conversion.Cnfizer.Cnfize: terms are marked processed in a cache set; whether a variable is frozen has no effect on meaning.
- LoopBreaker.SubstLoopBreaker.Run: the table of shared child lists is never filled by the source and is omitted, as are the `parent` field, which only printing reads, and the graph output. The variables of a target come from `Vars` in some order instead of from a traversal with marks.
- IteDag.Dag.GetCondValPairs: the branch for a black node on the stack cannot be reached and is omitted; that is what `ClimbingTop` shows.
- IteElimination.Rewrite: the name of an auxiliary variable is the ite itself instead of a prefix, its reference number and a suffix.
- The order of `std::set` and `std::map` is modelled; hash tables are iterated in some fixed order.
- FastRationals.Division: by zero is refused by precondition, as the assertions of the source demand; likewise Inverse, DivisionAssign and FloorQuotient.
- Polynomials.Merge: the temporary storage is a list that grows; the hooks for added and removed variables are not called by the code modelled.
- LinearConstraints.Plus: sums with uninterpreted or non-linear factors are left out; a factor is a variable with a coefficient.
- LinearConstraints.MkBinaryEq: sorts are checked by the caller, and with uninterpreted functions the source does not normalise.
- TopologicalOrder.TopolSortingBotUp: `rank`, a ghost parameter, says that the graph of the proof is acyclic; so it is for ProofFilling.ProofGraph.FillProofGraph.
- TopologicalOrder.TopolSortingTopDown: needs a leaf, as the loop of the source takes one before testing; the visited bits of nodes are a local set.
- Resolution.MergeClauses: clauses are sorted without repetitions and contain the pivot, as the assertions of the source demand.
- ProofFilling.ProofGraph.FillProofGraph: the branch for nodes already visited is not reached from a stack of unvisited nodes and is omitted.
- ValuationTrees.ModelBuilder.AddToTheoryFunction: the prefix of formal names is left out; sorts and names are numbers, and constants of the value sorts are distinct.
- ValuationTrees.ModelBuilder.FunctionBody: the default value of the sort is a parameter, and the body is kept as nested choices with the shortcuts of `mkIte` and `mkEq` on constants.
- DecimalLiterals.StringToRational: the normalisation of fractions with a slash, done by GMP on the text, is not part of this model.
