# Verification of the symbolic reasoner, its proof checker and the code around them

This project models the deterministic core of the neuro-symbolic reasoner in Dafny and proves what the
rest of the system relies on.

**The reasoner** is signed Datalog: explicit positive and negative literals, conjunctive rules that are not
empty, heads bound by their bodies, predicates of one or two arguments. `ForwardChainingEngine` saturates a
theory round by round with an index, a sorted join and a delta filter, and keeps one proof per literal by a
deterministic choice key. `ProofVerifier` shares no inference code with it: it recomputes the closure
naively and replays the proof node by node. The meaning of both is defined once, without an algorithm, in
`Semantics`: rule instances, the immediate-consequence operator and its stages, derivation trees and the
least model. The engine is proved to compute the least model, to choose the best and lowest proofs, and to
count exactly; the verifier is proved sound for any proof whatever and complete for the engine's own.

**Around it** the project models the canonical forms of rules and theories, the two-phase conversion of a
parsed candidate into a valid theory, the reader of the formal S-expression notation, the bounded-memory
sampler of the evaluation data, and the local job manager.

| files | subject |
|---|---|
| `Keys`, `StableSort`, `Orders` | Python's key order, `sorted` and what stability means, and the orders in plain terms |
| `Logic`, `Semantics`, `Typing` | theories and their checks, stages, trees and models, argument types |
| `Unification`, `Proofs`, `Choices`, `Rounds`, `Engine`, `Bounds` | the engine |
| `Preferences`, `Answers` | which derivation is kept and what the answer means, in plain terms |
| `Checks`, `Graphs`, `NaiveSaturation`, `NodeChecks`, `Verifier`, `Soundness` | the verifier |
| `HashContents`, `AcceptedProofs` | what the hashes determine, and what an accepted proof says in plain terms |
| `Completeness`, `Recount` | both together, and when the verifier's recount runs out |
| `OrderInvariance`, `OrderOutcome`, `OrderReports` | permuted inputs: equal results, and equal limit errors |
| `Canonicalization`, `CanonicalKeys`, `CanonicalText` | canonical forms, when keys are equal, their JSON text |
| `Converter`, `ConvertedFields` | conversion, and the converted theory field by field |
| `Reader`, `JsonEscapes` | the S-expression reader, and the JSON strings it shares with the canonical forms |
| `Apportionment`, `Sampling`, `Streaming`, `SampleAgreement`, `SampleDepths`, `SampleContents` | the sampler |
| `Jobs`, `JobManager`, `JobStory` | the job manager as a step system, the class that takes the steps, and what becomes of each job |

`dafny verify dfyconfig.toml` checks everything.

## How to read the model

- SHA-256 over canonical JSON is a parameter, a function from payloads to strings. Completeness of the verifier
  assumes that distinct payloads have distinct digests, as the hypothesis `Injective`; soundness and order
  invariance assume nothing about it. In the same way the text of a canonical shape and the digest of the
  sampler's order key are parameters. `CanonicalText` gives the text as `json.dumps` writes it and proves what
  is assumed of it elsewhere.
- Exceptions are results. A limit error carries the limit and the observed value, and each error contract
  says which limit the theory itself exceeds; a rejection by the verifier carries the code of the check that
  fails, and `Checks` says for every code, without the order of the checks, what passing it means.
- Methods follow the imperative code and are proved against the definitions of `Semantics`, `Choices` and
  the other specification modules; the main theorems are lemmas about those definitions.
- The job manager's locked sections are steps of a state machine. Any interleaving of callers and worker is
  a run, the clock reading is a parameter of each step, how a pipeline ends is arbitrary, and ids are fresh.

## Findings

- The verifier counts rule instances again in every pass, the engine once. Under equal limits the verifier
  can therefore stop on the firing limit for a result the engine returned. It can fail in no other way, and
  `Completeness.ReasonAndVerify` says exactly when it does. `Recount.ExampleRunsOut` is such a theory, of one
  fact and one rule, and `Recount.TightLimitsRunOut` finds such limits for every theory that derives anything.
- `canonical_rule_key` is independent of variable names up to seven variables only; the schema admits 64. Beyond
  seven it tries one assignment, by the sorted order of the names, and rules that are equal up to renaming may
  get different keys. `CanonicalKeys.EquivalentRulesDifferentKeys` gives two such rules of eight variables and
  `CanonicalKeys.KeysBeyondSevenAgree` the exact condition; `CanonicalKeys.KeyAcrossSeven` compares with rules of
  fewer variables.
- Closure literals need not respect declared argument types: a typed variable can be bound through a
  predicate that declares none. `Typing` gives a valid theory for which this happens and the exact condition
  on a rule under which it cannot.
- `submit` looks up every queued id, but pruning may remove a cancelled job whose id is still queued. `Jobs`
  gives a run that ends in the lookup error for any bounds, the exact condition, and shows that submissions
  go on failing until the worker takes a job. `docs/API_CONTRACT.md` lists no such outcome.
- `submit` starts no thread while the old one is still alive. A job accepted while that thread is leaving its
  loop after a shutdown is therefore queued with no thread to take it, and nothing is taken until another
  submission is accepted. With a bound of one queued job that submission is refused, so the job waits until
  it is cancelled. `Jobs.StrandedIsReachable` gives the run and `Jobs.StrandedIff` the exact condition;
  `Jobs.StaysServed`, `Jobs.NothingTakenUntilAccepted` and `Jobs.FullQueueStaysStranded` say how runs go on.
- The expression reader returns the same Python string for a bare arrow and for the quoted string `"->"`. The
  literal `(-> "a" "b" "+")` is therefore read like `("->" "a" "b" "+")`, and
  `((("a" "b" "c" "+")) "->" ("d" "e" "f" "+"))` is read as a rule. `Reader.ArrowAsField` and
  `Reader.QuotedArrowRule` state both inputs, `Reader.ArrowMayBeQuoted` their family, and
  `Reader.OnlySpelling` that reading is one-to-one exactly where no arrow of either kind occurs.
- A stratified sample that asks for everything sorts the joined groups in the streaming version and the
  stream itself in the other. With repeated ids they can differ; `SampleAgreement` gives the exact condition.
- The two balanced samplers test for missing labels and for a too small target in opposite orders, so they
  fail together but name different errors exactly when a label is missing and the target is below the number
  of labels (`SampleAgreement.BalancedErrors`, with an input in `SampleAgreement.BalancedErrorsDiffer`).
- `_validate_body` rejects a body that is in order but uses one of its three reserved names;
  `Converter.ProbeExact` gives the exact condition and `Converter.ReservedNameRejected` such a body, which
  together with a query would make a valid theory.
- `docs/DECISIONS.md` (D-012) speaks of label/depth-stratified selection; the code stratifies by label only,
  and the model follows the code. `SampleDepths.SampleIgnoresDepth` says that depths decide nothing about a
  sample, and `SampleDepths.SampleOfOneDepth` makes samples of a single depth.

## Model

| member | source | states |
|---|---|---|
| `Logic.ValidateSemantics` | backend/src/verilogic_ns_api/reasoning/models.py:107-155 | accepts exactly the valid theories: no id repeats, every literal is declared at its arity with known source, entities, variables and types, and every rule is range-restricted |
| `Logic.ValidateLiteral` | backend/src/verilogic_ns_api/reasoning/models.py:174-211 | accepts exactly the literals without one of the six faults, and a reported fault is a fault the literal has |
| `Logic.ValidateRule` | backend/src/verilogic_ns_api/reasoning/models.py:134-155 | accepts exactly the rules whose source, variables, body and head are in order and whose head variables occur in the body |
| `Logic.UniqueBy` | backend/src/verilogic_ns_api/reasoning/models.py:158-167 | returns the dictionary of the items exactly when no id repeats |
| `Logic.LiteralKeysInjective` | backend/src/verilogic_ns_api/reasoning/models.py:228-229 | the sort keys of literals, facts and rule literals tell unequal ones apart, so no sort leaves a tie to input order |
| `Keys.SortByOrderFree` | backend/src/verilogic_ns_api/reasoning/engine.py:126-137 | sorting by a key that tells the elements apart forgets their input order |
| `Orders.StringOrder` | backend/src/verilogic_ns_api/reasoning/models.py:228-229 | the key order on strings: by the first code point that differs, a proper prefix first |
| `Orders.LiteralOrder` | backend/src/verilogic_ns_api/reasoning/models.py:228-229 | the order of literals: by predicate, then arity, then positive before negative, then the arguments |
| `Orders.FactOrder` | backend/src/verilogic_ns_api/reasoning/engine.py:99-107 | the order of facts: by predicate, sign, arguments and source |
| `Orders.BodyInOrder` | backend/src/verilogic_ns_api/reasoning/unification.py:20-25 | a rule's body is taken in the order of predicate, sign, arguments (entities before variables) and source |
| `Orders.SubstOrder` | backend/src/verilogic_ns_api/reasoning/proofs.py:99-115 | sorted bindings compare at the first variable whose entities differ |
| `Semantics.FixedStageIsLeastModel` | backend/src/verilogic_ns_api/reasoning/engine.py:170-182 | a stage that one more round leaves alone contains the facts, is closed under the rules, and lies inside every such set |
| `Semantics.ModelIsDerivable` | backend/src/verilogic_ns_api/reasoning/verifier.py:218-247 | a literal is in the least model of a valid theory exactly when it has a derivation tree |
| `Semantics.StageIsHeight` | backend/src/verilogic_ns_api/reasoning/engine.py:138-182 | a literal is in stage k exactly when it has a derivation tree of height at most k |
| `Semantics.StageDeclarable` | backend/src/verilogic_ns_api/reasoning/models.py:107-155 | every literal derived in any round uses a declared predicate at its arity and declared entities only |
| `Semantics.StagesStop` | backend/src/verilogic_ns_api/reasoning/engine.py:138-182 | from any round on, forward chaining over a valid theory reaches a stage that repeats |
| `Typing.RulePreservesIff` | backend/src/verilogic_ns_api/reasoning/models.py:205-211 | a rule derives only well-typed literals from well-typed ones exactly when its typed body positions cannot all be filled, or each variable at a typed head position also stands at a typed body position (or all entities have the type asked for) |
| `Typing.ClosureWellTyped` | backend/src/verilogic_ns_api/reasoning/models.py:205-211 | when every rule meets that condition, every stage is well typed |
| `Typing.AllTypedGuards` | backend/src/verilogic_ns_api/reasoning/models.py:34-43 | the condition holds for every rule when every predicate declares its argument types |
| `Typing.ValidTheoryIllTypedClosure` | backend/src/verilogic_ns_api/reasoning/models.py:205-211 | a concrete valid theory whose first round derives an argument of the wrong type |
| `Unification.MatchLiteral` | backend/src/verilogic_ns_api/reasoning/unification.py:28-45 | extends a substitution exactly when the extension grounds the pattern to the candidate, by the least extension |
| `Unification.IterBodyMatches` | backend/src/verilogic_ns_api/reasoning/unification.py:65-86 | over an exact index: each substitution that binds exactly the body variables and grounds the body into the closure, once, with the grounded sorted body as premises, and with a delta exactly those with a premise in it |
| `Unification.DeduplicateStates` | backend/src/verilogic_ns_api/reasoning/unification.py:89-102 | the same states, each once, in key order |
| `NaiveSaturation.NaiveMatches` | backend/src/verilogic_ns_api/reasoning/verifier.py:282-318 | the index-free join finds the same substitutions as the declarative match, each once |
| `NaiveSaturation.NaiveFiringsBounds` | backend/src/verilogic_ns_api/reasoning/verifier.py:229-234 | over k productive rounds the verifier counts between N and (k+1) * N firings, N being the number of rule instances over the closure |
| `Proofs.MakeRuleDerivation` | backend/src/verilogic_ns_api/reasoning/proofs.py:55-115 | the merged node map, depth, premise ids and choice key are those of the derivation defined by the rule, the substitution and the premises |
| `Preferences.DerivationHolds` | backend/src/verilogic_ns_api/reasoning/proofs.py:55-98 | an instance's derivation has the nodes of its premises and two more: the application, naming rule, source, text, sorted bindings and premises in order, and the literal it concludes |
| `Preferences.ChosenIsPreferred` | backend/src/verilogic_ns_api/reasoning/proofs.py:107-115 | a literal keeps the derivation of the one instance preferred to every other over the whole closure: lower, then with fewer nodes, then by a smaller rule id, then by the smaller entity at the first variable that differs |
| `Preferences.FewestNodes` | backend/src/verilogic_ns_api/reasoning/proofs.py:107-115 | no instance offers a lower derivation than the one kept, nor one of the same depth with fewer nodes |
| `Preferences.FirstSourceKept` | backend/src/verilogic_ns_api/reasoning/proofs.py:31-52 | a fact keeps one node, that of the least of its source ids |
| `Preferences.RoundOrder` | backend/src/verilogic_ns_api/reasoning/engine.py:126-150 | a round takes its instances by rule id, and those of a rule by their bindings |
| `Proofs.BuildProof` | backend/src/verilogic_ns_api/reasoning/proofs.py:118-144 | the proof of both sides, or the node-limit error with the exact number of merged nodes |
| `Graphs.ReachableNodes` | backend/src/verilogic_ns_api/reasoning/verifier.py:337-348 | exactly the nodes reachable from the roots, or a dangling reference that is reachable |
| `Graphs.CycleCheck.Visit` | backend/src/verilogic_ns_api/reasoning/verifier.py:356-369 | visiting a node keeps the two sets as depth-first search does and fails only on a cycle or a dangling edge |
| `Graphs.AssertAcyclic` | backend/src/verilogic_ns_api/reasoning/verifier.py:351-372 | raises exactly when the graph has a cycle or a dangling edge |
| `Graphs.RankedIsAcyclic` | backend/src/verilogic_ns_api/reasoning/verifier.py:198-211 | a graph whose edges all lower a rank has no cycle |
| `NodeChecks.ValidateNodes` | backend/src/verilogic_ns_api/reasoning/verifier.py:136-216 | accepts exactly the node maps in which every node passes every check, returns their graph, and names a check that fails |
| `NodeChecks.ValidateInstance` | backend/src/verilogic_ns_api/reasoning/verifier.py:165-200 | the substitution, premise, conclusion and depth checks of one rule application, each with its own code |
| `NodeChecks.ValidateSubstitution` | backend/src/verilogic_ns_api/reasoning/verifier.py:165-181 | accepts exactly the sorted bindings without repeats, of declared entities, of exactly the variables the rule uses |
| `NodeChecks.ValidatePremises` | backend/src/verilogic_ns_api/reasoning/verifier.py:185-194 | accepts exactly the premises that are literal nodes equal to the grounded sorted body |
| `NodeChecks.ValidateRoots` | backend/src/verilogic_ns_api/reasoning/verifier.py:105-134 | accepts exactly the roots that match the status and state the query and its opposite |
| `Verifier.ProofVerifier.CheckDag` | backend/src/verilogic_ns_api/reasoning/verifier.py:75-90 | accepts exactly the proofs whose hashes, order, roots, nodes, cycles and reachability pass, and names a failing check |
| `Verifier.ProofVerifier.NaiveClosure` | backend/src/verilogic_ns_api/reasoning/verifier.py:218-247 | the least model of the theory, or a limit the naive iteration really exceeds |
| `Verifier.ProofVerifier.VerifyProof` | backend/src/verilogic_ns_api/reasoning/verifier.py:50-103 | for the closure it computes or any set a caller hands in: acceptance means every check passes, a rejection names one that does not, and a limit error reports a limit that is exceeded |
| `Verifier.ProofVerifier.VerifyResult` | backend/src/verilogic_ns_api/reasoning/verifier.py:35-48 | the same for a whole result, with the conflict flag and count of its own closure |
| `Soundness.CheckedNodesAreDerivable` | backend/src/verilogic_ns_api/reasoning/verifier.py:136-216 | in any proof whose nodes pass, made by whomever and under any digest, every source, conclusion and derived literal has a derivation tree; the recomputed closure plays no part |
| `Soundness.AcceptedProofsDerive` | backend/src/verilogic_ns_api/reasoning/verifier.py:50-103 | everything an accepted proof states has a derivation tree |
| `Soundness.NodeInStage` | backend/src/verilogic_ns_api/reasoning/verifier.py:136-216 | a checked node's literal is reached by forward chaining within the node's recorded depth |
| `Soundness.CheckedNodesAreAcyclic` | backend/src/verilogic_ns_api/reasoning/verifier.py:182-215 | once the depth checks pass there is no cycle and no dangling reference |
| `Soundness.AcceptedStatusIsTrue` | backend/src/verilogic_ns_api/reasoning/verifier.py:92-98 | an accepted status is the true classification of the query by derivability of the query and of its opposite |
| `Soundness.RootsAreDerivable` | backend/src/verilogic_ns_api/reasoning/verifier.py:105-134 | passing roots and nodes alone already make a claimed support or opposition derivable |
| `Engine.InitialClosure` | backend/src/verilogic_ns_api/reasoning/engine.py:97-118 | each fact literal with its best source derivation, every other fact counted as a duplicate |
| `Engine.BuildIndex` | backend/src/verilogic_ns_api/reasoning/engine.py:214-223 | an index that holds exactly the closure |
| `Engine.FindConflicts` | backend/src/verilogic_ns_api/reasoning/engine.py:226-234 | the atoms both asserted and denied, sorted, once each |
| `Engine.DeltaInstancesAreNew` | backend/src/verilogic_ns_api/reasoning/unification.py:84-86 | the matches that touch the delta are the rule instances over the closure that were not instances over the stage before: each is considered in exactly one round |
| `Engine.RoundOutcome` | backend/src/verilogic_ns_api/reasoning/engine.py:138-182 | a completed round finds exactly the literals the next stage adds, with their best derivations, and its counters account for every instance |
| `Engine.ForwardChainingEngine.SaturateState` | backend/src/verilogic_ns_api/reasoning/engine.py:94-199 | the least model, with each literal chosen in the round it entered and best among all instances, exact telemetry and productive rounds; or an error for a limit the theory exceeds, the first one met in the order of rounds and instances |
| `Engine.ForwardChainingEngine.Saturate` | backend/src/verilogic_ns_api/reasoning/engine.py:78-92 | the literals of the least model in order, each with the round it entered, and the conflicts and counters of the saturation |
| `Engine.ForwardChainingEngine.Reason` | backend/src/verilogic_ns_api/reasoning/engine.py:46-76 | the four-way status, the proof and the counters read off that closure; or the saturation's error, or the size of the proof |
| `Answers.AnswerMeans` | backend/src/verilogic_ns_api/reasoning/engine.py:46-76 | the status says whether the query's atom is derivable with its sign and with the other one, and the proof has a root for each side that is |
| `Answers.ListedConflicts` | backend/src/verilogic_ns_api/reasoning/engine.py:226-234 | the conflicts are the atoms derivable with both signs, as positive literals by predicate, arity and arguments, each once |
| `Answers.ListedClosure` | backend/src/verilogic_ns_api/reasoning/engine.py:78-92 | the closure is listed by predicate, arity, sign and arguments |
| `Choices.LayeredDepth` | backend/src/verilogic_ns_api/reasoning/proofs.py:55-115 | a recorded depth is the round in which the literal entered the closure |
| `Choices.LayeredIsBest` | backend/src/verilogic_ns_api/reasoning/engine.py:159-167 | the choices made round by round are the best among all rule instances over the final closure |
| `Bounds.RecordedDepthIsLeastHeight` | backend/src/verilogic_ns_api/reasoning/engine.py:180-195 | a recorded depth is the least height of any derivation tree of its literal, and at most the number of rounds |
| `Bounds.EntryIsLeastHeight` | backend/src/verilogic_ns_api/reasoning/engine.py:138-182 | a literal enters in round j exactly when its lowest derivation tree has height j |
| `Bounds.RoundsWithinBase` | backend/src/verilogic_ns_api/reasoning/engine.py:138-182 | distinct facts plus rounds never exceed the closure, nor the closure the Herbrand base |
| `Bounds.RoundsBoundedByDeclarations` | backend/src/verilogic_ns_api/reasoning/engine.py:138-182 | the rounds are bounded by twice the sum over predicates of entities to the power of the arity, less the distinct facts |
| `Completeness.EngineResultAcceptable` | backend/src/verilogic_ns_api/reasoning/verifier.py:35-103 | with an injective digest, the result of a best closure passes every check of the verifier |
| `Completeness.OnlyFiringsCanRunOut` | backend/src/verilogic_ns_api/reasoning/verifier.py:229-246 | under limits that sufficed for the engine the verifier can exceed only its recount of rule firings |
| `Completeness.ReasonAndVerify` | backend/src/verilogic_ns_api/reasoning/verifier.py:35-103 | reasoning then verifying under the same limits never ends in a rejection: it is accepted exactly when the recount of firings fits its limit |
| `Recount.RecountExceedsIff` | backend/src/verilogic_ns_api/reasoning/verifier.py:229-234 | the recount exceeds the number of rule instances exactly when some round derives something new |
| `Recount.LimitsSuffice` | backend/src/verilogic_ns_api/reasoning/engine.py:46-76 | every valid theory has limits under which reasoning succeeds, with a firing limit equal to the number of rule instances |
| `Recount.TightLimitsRunOut` | backend/src/verilogic_ns_api/reasoning/verifier.py:229-234 | every theory that derives something new has limits under which the engine succeeds and the recount exceeds the firing limit |
| `Recount.ExampleRunsOut` | backend/src/verilogic_ns_api/reasoning/verifier.py:229-234 | a concrete theory of one fact and one rule: the engine needs one firing, the recount two |
| `OrderReports.SameReasoningOutcome` | backend/src/verilogic_ns_api/reasoning/engine.py:46-76 | reasoning over theories that differ only in the order of their lists, rule bodies and variable lists gives the same outcome: one result, or one limit error with the same limit and value |
| `OrderReports.SameSaturationOutcome` | backend/src/verilogic_ns_api/reasoning/engine.py:94-199 | the same for saturation alone |
| `OrderReports.SameRoundStop` | backend/src/verilogic_ns_api/reasoning/engine.py:142-168 | a round of reordered theories stops at partner instances, for the same limit with the same value |
| `OrderReports.ReportsExceeds` | backend/src/verilogic_ns_api/reasoning/engine.py:201-204 | a reported limit is one that the theory exceeds |
| `OrderOutcome.ReasonOutcomeReordered` | backend/src/verilogic_ns_api/reasoning/engine.py:46-76 | both orderings succeed with equal results, or each exceeds the limit that stops the other |
| `OrderOutcome.SaturateOutcomeReordered` | backend/src/verilogic_ns_api/reasoning/engine.py:94-199 | the same for saturation |
| `OrderOutcome.ReasoningCarriesOver` | backend/src/verilogic_ns_api/reasoning/engine.py:46-76 | a result of one ordering is a result of the other under the same limits |
| `OrderOutcome.SaturationCarriesOver` | backend/src/verilogic_ns_api/reasoning/engine.py:94-199 | a saturation of one ordering is a saturation of the other under the same limits |
| `OrderOutcome.ExceedsReordered` | backend/src/verilogic_ns_api/reasoning/engine.py:201-204 | every limit one ordering exceeds, with the value observed, the other exceeds too |
| `OrderInvariance.ReasoningReordered` | backend/src/verilogic_ns_api/reasoning/engine.py:46-76 | two results for reordered theories are equal in status, proof, hashes and counters |
| `OrderInvariance.SaturationReordered` | backend/src/verilogic_ns_api/reasoning/engine.py:94-199 | two saturations of reordered theories are equal in closure, derivations, conflicts and telemetry |
| `OrderInvariance.TheoryHashReordered` | backend/src/verilogic_ns_api/reasoning/models.py:360-389 | reordering leaves the theory hash unchanged |
| `HashContents.TheoryHashIff` | backend/src/verilogic_ns_api/reasoning/models.py:360-389 | with an injective digest two valid theories have one hash exactly when they differ only in the order of their lists |
| `HashContents.AcceptedForItsTheory` | backend/src/verilogic_ns_api/reasoning/verifier.py:60-62 | a result that the engine made for one theory is accepted for another only if that is a reordering of the first |
| `HashContents.AcceptedForOneTheory` | backend/src/verilogic_ns_api/reasoning/verifier.py:60-62 | the same for any proof accepted for two theories, whoever made it |
| `HashContents.NodeIdDetermines` | backend/src/verilogic_ns_api/reasoning/proofs.py:147-149 | the id of a node determines everything in it |
| `HashContents.ProofHashDetermines` | backend/src/verilogic_ns_api/reasoning/proofs.py:152-154 | accepted proofs with one hash are one proof, for any theories |
| `AcceptedProofs.SourceNodeQuotes` | backend/src/verilogic_ns_api/reasoning/verifier.py:144-158 | a source node of an accepted proof states a fact of the theory, at depth zero, and quotes the sentence with that id word for word |
| `AcceptedProofs.ApplicationQuotes` | backend/src/verilogic_ns_api/reasoning/verifier.py:160-194 | an application of an accepted proof names a rule by id and source, quotes its sentence, and its premises are literal nodes that state the grounded body in the order of predicate, sign, arguments and source |
| `AcceptedProofs.ApplicationBinds` | backend/src/verilogic_ns_api/reasoning/verifier.py:165-181 | the bindings of an application name exactly the variables that occur in its rule, in order and each once, and bind them to declared entities |
| `AcceptedProofs.ApplicationConcludes` | backend/src/verilogic_ns_api/reasoning/verifier.py:188-200 | the conclusion of an application is its rule's head with the variables replaced as bound, one deeper than the deepest premise |
| `AcceptedProofs.DerivedNodeStates` | backend/src/verilogic_ns_api/reasoning/verifier.py:202-215 | a derived literal is the conclusion of an application of the proof, at its depth |
| `AcceptedProofs.NodesAreReached` | backend/src/verilogic_ns_api/reasoning/verifier.py:337-348 | from a root a chain of nodes, each resting on the next, leads to every node |
| `AcceptedProofs.ProofForm` | backend/src/verilogic_ns_api/reasoning/verifier.py:50-134 | version, query, status, nodes in the order of their ids, and a root stating the query or its opposite exactly when the status claims that side |
| `OrderInvariance.FittingExceedsNothing` | backend/src/verilogic_ns_api/reasoning/engine.py:201-204 | a theory that saturates within its limits exceeds none of them, so success and limit error exclude each other |
| `Canonicalization.CanonicalRuleKey` | backend/src/verilogic_ns_api/semantic_parsing/canonicalization.py:28-46 | the least text among the rule's shapes under the tried assignments of canonical names |
| `Canonicalization.PermutationsExact` | backend/src/verilogic_ns_api/semantic_parsing/canonicalization.py:31-40 | the permutations tried are exactly the rearrangements of the canonical names |
| `CanonicalKeys.KeyEqualityIsAlphaEquivalence` | backend/src/verilogic_ns_api/semantic_parsing/canonicalization.py:28-46 | two rules of at most seven variables each have equal keys exactly when they are the same rule up to variable names and body order; for different numbers of variables this uses that texts follow the canonical names |
| `CanonicalText.JsonKeysDecide` | backend/src/verilogic_ns_api/semantic_parsing/canonicalization.py:28-46 | the same for the JSON text that the program writes, with no assumption about texts |
| `CanonicalText.JsonText` | backend/src/verilogic_ns_api/semantic_parsing/canonicalization.py:41-46 | the JSON text determines the shape it was made from, and putting lower canonical names into a shape never raises it |
| `CanonicalText.QuoteDelimits` | backend/src/verilogic_ns_api/semantic_parsing/canonicalization.py:41-46 | a string quoted as `json.dumps` does it shows its own end: a quoted string followed by anything is read in one way only |
| `JsonEscapes.KeyTextsAre` | backend/src/verilogic_ns_api/semantic_parsing/canonicalization.py:41-46 | the texts of a literal and of a rule, spelled out |
| `CanonicalText.JsonSetsDecide` | backend/src/verilogic_ns_api/semantic_parsing/canonicalization.py:49-67 | theories whose statement sets have the same JSON texts have the same least model |
| `CanonicalKeys.LowerCandidate` | backend/src/verilogic_ns_api/semantic_parsing/canonicalization.py:31-46 | every candidate of a rule has one of each equivalent rule that is the same or lower: the one that uses the first names |
| `CanonicalKeys.KeysBeyondSevenAgree` | backend/src/verilogic_ns_api/semantic_parsing/canonicalization.py:38-40 | beyond seven variables the keys agree exactly when giving both rules the canonical names in the sorted order of their own names makes them equal up to body order |
| `CanonicalKeys.KeyAcrossSeven` | backend/src/verilogic_ns_api/semantic_parsing/canonicalization.py:28-46 | a rule has the key of one with more than seven variables exactly when that one's only shape is a candidate of it with the least text |
| `CanonicalKeys.NameByRank` | backend/src/verilogic_ns_api/semantic_parsing/canonicalization.py:29-40 | beyond seven variables a variable gets the canonical name numbered by how many declared names come before its own |
| `CanonicalKeys.EquivalentRulesDifferentKeys` | backend/src/verilogic_ns_api/semantic_parsing/canonicalization.py:38-40 | two concrete rules of eight variables that differ only by renaming and have different keys |
| `Canonicalization.EqualKeysAlphaEquivalent` | backend/src/verilogic_ns_api/semantic_parsing/canonicalization.py:28-46 | equal keys mean the same rule up to variable names and body order, for any number of variables |
| `Canonicalization.RenamedRulesEqualKeys` | backend/src/verilogic_ns_api/semantic_parsing/canonicalization.py:28-46 | with at most seven variables, a one-to-one renaming and a body permutation leave the key unchanged |
| `Canonicalization.CanonicalStatementSets` | backend/src/verilogic_ns_api/semantic_parsing/canonicalization.py:49-55 | the set of fact texts and a key for every rule, and nothing else |
| `Canonicalization.EqualSetsEqualClosures` | backend/src/verilogic_ns_api/semantic_parsing/canonicalization.py:49-67 | theories with equal canonical statement sets have the same least model |
| `Canonicalization.EqualSetsEqualStages` | backend/src/verilogic_ns_api/semantic_parsing/canonicalization.py:49-67 | they even agree round by round |
| `Converter.ConvertTheoryCandidate` | backend/src/verilogic_ns_api/semantic_parsing/converter.py:46-115 | succeeds exactly when every source is covered once with its kind, arities agree and the probe theory is valid, and returns the converted body |
| `ConvertedFields.ConvertedBodyStates` | backend/src/verilogic_ns_api/semantic_parsing/converter.py:46-115 | the body field by field: the k-th fact and the k-th rule say what the k-th fact and rule statement says, under the caller's id; the sources, the entities named and the predicates used with their arities, in order, and nothing else |
| `Converter.RegisterAll` | backend/src/verilogic_ns_api/semantic_parsing/converter.py:62-65 | fails exactly when two literals give one predicate different arities |
| `Converter.ProbeExact` | backend/src/verilogic_ns_api/semantic_parsing/converter.py:168-195 | the probe accepts a body exactly when its source ids are distinct, its rules are sound and it uses none of the three reserved names |
| `Converter.CombineTheoryAndQuery` | backend/src/verilogic_ns_api/semantic_parsing/converter.py:118-156 | succeeds exactly when the query's arity agrees and the combined theory is valid |
| `ConvertedFields.CombinedStates` | backend/src/verilogic_ns_api/semantic_parsing/converter.py:118-156 | the combined theory field by field: the body's facts and rules, the query's predicate, arguments and sign, one more source, and the entities and predicates of both |
| `Converter.CombinedExact` | backend/src/verilogic_ns_api/semantic_parsing/converter.py:118-156 | a converted body and query form a valid theory exactly when the arity agrees, the source ids are distinct, the query's too, and the rules are sound |
| `Converter.TwoPhasesCompose` | backend/src/verilogic_ns_api/semantic_parsing/converter.py:118-156 | after an accepted first phase the second succeeds exactly when the query's arity agrees with the body and its source id is new |
| `Converter.ReservedNameRejected` | backend/src/verilogic_ns_api/semantic_parsing/converter.py:168-195 | a concrete body the probe rejects for its name although the combined theory is valid |
| `Converter.CoverageIssues` | backend/src/verilogic_ns_api/validation_correction/feedback.py:68-128 | an issue for every uncovered, repeated, unknown or wrongly typed source and for nothing else |
| `Converter.ValidateTheoryCandidate` | backend/src/verilogic_ns_api/validation_correction/feedback.py:44-128 | no conversion error escapes; the candidate is valid exactly when there is no issue, in which case it converts, and otherwise the issues say which sources or which later check failed |
| `Converter.ValidateQueryCandidate` | backend/src/verilogic_ns_api/validation_correction/feedback.py:131-183 | a theory it returns is the combined one and satisfies the engine's precondition; the issue it reports otherwise is determined |
| `Reader.Tokenize` | backend/src/verilogic_ns_api/reasoning/proofwriter.py:487-528 | returns the tokens a text renders, with any whitespace between them and any JSON escapes, and fails when it renders none |
| `Reader.DecodeExact` | backend/src/verilogic_ns_api/reasoning/proofwriter.py:504-522 | decoding a string body gives a string exactly when the body writes it piece by piece as section 7 of RFC 8259 allows; a lone surrogate escape stays a lone surrogate |
| `JsonEscapes.QuoteReadsBack` | backend/src/verilogic_ns_api/reasoning/proofwriter.py:504-522 | a string quoted as `json.dumps` does it is read back by the reader as the same code points |
| `JsonEscapes.LettersRead` | backend/src/verilogic_ns_api/reasoning/proofwriter.py:521-521 | the value of each escape by a letter, and no others |
| `JsonEscapes.DigitsRead` | backend/src/verilogic_ns_api/reasoning/proofwriter.py:521-521 | an escape by four hexadecimal digits of either case has their value |
| `JsonEscapes.PlainRead` | backend/src/verilogic_ns_api/reasoning/proofwriter.py:521-521 | control characters, quotes and backslashes do not stand for themselves, and everything else does |
| `JsonEscapes.SpacesAre` | backend/src/verilogic_ns_api/reasoning/proofwriter.py:490-493 | exactly the 29 characters of `str.isspace` separate tokens |
| `Reader.LexExact` | backend/src/verilogic_ns_api/reasoning/proofwriter.py:487-528 | a text renders at most one token sequence, the one the tokenizer finds |
| `Reader.FlattenUnique` | backend/src/verilogic_ns_api/reasoning/proofwriter.py:535-553 | a token sequence starts with at most one expression |
| `Reader.Parser.ParseExpression` | backend/src/verilogic_ns_api/reasoning/proofwriter.py:535-553 | reads exactly the tokens of one expression, where a bare arrow and the string `->` are the same item, and fails only when the remaining tokens start with none |
| `Reader.ParseRepresentation` | backend/src/verilogic_ns_api/reasoning/proofwriter.py:531-560 | returns a list of items exactly when the text renders it |
| `Reader.TextsReadOnce` | backend/src/verilogic_ns_api/reasoning/proofwriter.py:531-560 | a text renders at most one expression |
| `Reader.PrintedReadsBack` | backend/src/verilogic_ns_api/reasoning/proofwriter.py:531-560 | every expression has a text, the printed one, that reads back as it and as nothing else |
| `Reader.OnlySpelling` | backend/src/verilogic_ns_api/reasoning/proofwriter.py:541-544 | a token sequence is the only one that reads as it does exactly when it holds neither a bare nor a quoted arrow |
| `Reader.ParseLiteral` | backend/src/verilogic_ns_api/reasoning/proofwriter.py:69-78 | returns a literal exactly when the text renders its three fields and a polarity mark of its sign |
| `JsonEscapes.MarksAre` | backend/src/verilogic_ns_api/reasoning/proofwriter.py:69-78 | `+` marks a literal as positive, `-` and `~` as negated, and nothing else is a mark |
| `Reader.ArrowAsField` | backend/src/verilogic_ns_api/reasoning/proofwriter.py:541-544 | a literal whose first field is `->` is read from a bare arrow as from a quoted one |
| `Reader.ParseRule` | backend/src/verilogic_ns_api/reasoning/proofwriter.py:80-97 | returns a rule exactly when the text renders a non-empty body, the item `->` and a head |
| `Reader.ArrowMayBeQuoted` | backend/src/verilogic_ns_api/reasoning/proofwriter.py:80-97 | quoting or baring an arrow anywhere in a rule's tokens changes nothing about the rule read |
| `Reader.QuotedArrowRule` | backend/src/verilogic_ns_api/reasoning/proofwriter.py:80-97 | for all literals, the text of a rule whose arrow is quoted is read as that rule |
| `StableSort.SortByAgree` | backend/src/verilogic_ns_api/datasets/sampling.py:26-29 | two inputs sort to the same sequence exactly when every key class comes in the same order |
| `StableSort.BestStep` | backend/src/verilogic_ns_api/datasets/sampling.py:129-139 | cutting to the best n after every step loses nothing |
| `StableSort.ResortAgrees` | backend/src/verilogic_ns_api/datasets/sampling.py:179-193 | sorting first by another key changes the result exactly when it reorders two elements of equal key |
| `Streaming.RetainBest` | backend/src/verilogic_ns_api/datasets/sampling.py:129-139 | the retained list is the best `capacity` examples of everything seen |
| `Streaming.BoundedSample` | backend/src/verilogic_ns_api/datasets/sampling.py:142-223 | succeeds exactly when a selection is feasible and returns the streamed choice |
| `Streaming.StreamBalanced` | backend/src/verilogic_ns_api/datasets/sampling.py:163-193 | the balanced stream, with the exact condition of each of its errors |
| `Streaming.StreamStratified` | backend/src/verilogic_ns_api/datasets/sampling.py:195-223 | the stratified stream fails only on an empty stream |
| `Streaming.SampleExamples` | backend/src/verilogic_ns_api/datasets/sampling.py:97-126 | the test-split guard and the choice among the samplers, with the exact condition of each error; every sampled example is of the stream, of an allowed split, a requested label and a requested depth, and an unbalanced sample without a size holds all of these |
| `Sampling.BalancedSample` | backend/src/verilogic_ns_api/datasets/sampling.py:32-65 | the balanced choice over the full list, with the exact condition of each of its errors |
| `Sampling.StratifiedSample` | backend/src/verilogic_ns_api/datasets/sampling.py:68-94 | the stratified choice over the full list; it never fails |
| `SampleAgreement.StreamAgreesWithList` | backend/src/verilogic_ns_api/datasets/sampling.py:142-223 | streaming returns what sorting the full list returns, except for a stratified sample of everything: then exactly when no two examples of one id come against the order of their labels' first appearance |
| `SampleAgreement.TwinsDisagree` | backend/src/verilogic_ns_api/datasets/sampling.py:207-209 | a concrete stream of three examples on which the two differ |
| `SampleAgreement.BalancedByGroup` | backend/src/verilogic_ns_api/datasets/sampling.py:32-65 | a balanced sample holds exactly its quota of each requested label, the first in key order, and nothing else |
| `SampleAgreement.StratifiedByGroup` | backend/src/verilogic_ns_api/datasets/sampling.py:68-94 | a stratified sample has the target size and holds, of each group, its first examples in number the floor or ceiling of its exact share |
| `SampleAgreement.SampleSize` | backend/src/verilogic_ns_api/datasets/sampling.py:32-94 | a sample has the requested size, or, stratified, all examples when fewer exist |
| `SampleAgreement.EqualQuotasSum` | backend/src/verilogic_ns_api/datasets/sampling.py:50-58 | the equal quotas of the labels add up to the target |
| `SampleAgreement.BalancedErrors` | backend/src/verilogic_ns_api/datasets/sampling.py:165-176 | the two balanced samplers fail together, and name different errors exactly when a label is missing and the target is below the number of labels |
| `SampleAgreement.BalancedErrorsDiffer` | backend/src/verilogic_ns_api/datasets/sampling.py:165-176 | a concrete stream of one example on which they name different errors |
| `SampleAgreement.StreamReordered` | backend/src/verilogic_ns_api/datasets/sampling.py:142-223 | with distinct ids the outcome and the sample do not depend on the order of the stream |
| `SampleDepths.SampleIgnoresDepth` | backend/src/verilogic_ns_api/datasets/sampling.py:32-94 | taking the reasoning depths away before or after sampling is the same |
| `SampleDepths.SampleOfOneDepth` | backend/src/verilogic_ns_api/datasets/sampling.py:68-94 | any examples with distinct ids can be given depths so that the sample is exactly the examples of one depth |
| `SampleContents.SampleTakesFirst` | backend/src/verilogic_ns_api/datasets/sampling.py:32-94 | a sample holds no example more often than the stream, and of each label none that comes after one left out in the order of digest and id |
| `SampleContents.RandomTakesFirst` | backend/src/verilogic_ns_api/datasets/sampling.py:125-126 | a random sample has the size asked for and holds the examples that come first |
| `SampleContents.SampleInOrder` | backend/src/verilogic_ns_api/datasets/sampling.py:20-29 | a sample is listed by the digest of seed and id, then by id |
| `SampleContents.BalancedShares` | backend/src/verilogic_ns_api/datasets/sampling.py:50-58 | each requested label gets the target divided by their number, and the first ones requested one more until the remainder is used up |
| `SampleContents.BalancedLeast` | backend/src/verilogic_ns_api/datasets/sampling.py:47-49 | without a target each requested label gets as many examples as the rarest of them has |
| `SampleContents.StratifiedShares` | backend/src/verilogic_ns_api/datasets/sampling.py:77-89 | each label gets its exact share rounded down or up, the larger remainders are rounded up, and ties go to CONTRADICTED, then ENTAILED, then UNKNOWN |
| `SampleContents.StreamTakesFirst` | backend/src/verilogic_ns_api/datasets/sampling.py:142-223 | the streamed sample, too, holds of each label only examples that come first |
| `SampleContents.RequestedAre` | backend/src/verilogic_ns_api/datasets/sampling.py:38-38 | the configured labels in their order are requested, or all in their declared order when none are configured |
| `Apportionment.Apportion` | backend/src/verilogic_ns_api/datasets/sampling.py:77-89 | the allocation loop computes the largest-remainder quotas and its failure branch is never reached |
| `Apportionment.QuotasSumToTarget` | backend/src/verilogic_ns_api/datasets/sampling.py:77-89 | the quotas add up to the target |
| `Apportionment.QuotaIsRounding` | backend/src/verilogic_ns_api/datasets/sampling.py:77-89 | each quota is the floor or the ceiling of its exact share and at most its group's size |
| `Apportionment.LargestRemaindersWin` | backend/src/verilogic_ns_api/datasets/sampling.py:210-221 | a group that gets one more has a remainder at least that of one that does not, ties by label value |
| `Jobs.StepInv` | backend/src/verilogic_ns_api/orchestration/jobs.py:63-201 | every locked section keeps the invariant of the job table, the queue and the worker |
| `Jobs.RunIsSafe` | backend/src/verilogic_ns_api/orchestration/jobs.py:63-201 | in every interleaving: at most one active job, the worker's; a result exactly for completed jobs; queued jobs within the bound and once each in the queue; at most one job above the retention limit |
| `Jobs.TerminalIsFinal` | backend/src/verilogic_ns_api/orchestration/jobs.py:125-169 | a finished job is later gone or unchanged in status, result and completion time |
| `Jobs.RequestedNeverCompletes` | backend/src/verilogic_ns_api/orchestration/jobs.py:85-98 | a job whose cancellation was requested or granted never completes |
| `Jobs.ShutdownSettles` | backend/src/verilogic_ns_api/orchestration/jobs.py:100-113 | after a shutdown no job of the time completes that had not completed before |
| `JobStory.StatusIsTold` | backend/src/verilogic_ns_api/orchestration/jobs.py:85-165 | a job failed exactly when an earlier step recorded an error, completed exactly when one recorded a result before the job was marked, and was cancelled exactly when one cancelled it waiting, or recorded the cancellation or a result after the mark |
| `JobStory.EndIsTold` | backend/src/verilogic_ns_api/orchestration/jobs.py:85-165 | a finished job has the status, the completion time and the result of the step that ended it |
| `JobStory.MarkIsTold` | backend/src/verilogic_ns_api/orchestration/jobs.py:85-113 | a job is marked exactly when it was cancelled while waiting or running, or the manager was shut down while it was known |
| `JobStory.StartIsTold` | backend/src/verilogic_ns_api/orchestration/jobs.py:126-137 | a job has started exactly when the worker took it, at that time |
| `JobStory.LiveIsTold` | backend/src/verilogic_ns_api/orchestration/jobs.py:85-137 | a job that has not ended waits until it starts, then runs, and is asked to stop once marked |
| `JobStory.SubmissionIsTold` | backend/src/verilogic_ns_api/orchestration/jobs.py:63-75 | a known job was accepted by an earlier submission, whose request and time it keeps |
| `JobStory.StepFollows` | backend/src/verilogic_ns_api/orchestration/jobs.py:63-173 | every field of a job after a step, from what it was and how the step concerns it |
| `JobStory.StepTells` | backend/src/verilogic_ns_api/orchestration/jobs.py:63-169 | the queue, the worker, the shutdown flag and the accepted ids after every step |
| `JobStory.RepliesShowTheTable` | backend/src/verilogic_ns_api/orchestration/jobs.py:77-98 | `get` and `cancel` return the job as the call leaves it, or say that it is unknown |
| `JobStory.PruneTells` | backend/src/verilogic_ns_api/orchestration/jobs.py:175-201 | pruning leaves no job that is too old, changes none, and holds exactly as many of the others as fit the limit |
| `JobStory.DroppedTells` | backend/src/verilogic_ns_api/orchestration/jobs.py:175-201 | a dropped job had finished, and was too old or one of too many; then no kept job finished earlier |
| `JobStory.FirstAcceptedGoes` | backend/src/verilogic_ns_api/orchestration/jobs.py:190-201 | of two jobs that finished at the same time the one accepted first is dropped first |
| `JobStory.CallsPrune` | backend/src/verilogic_ns_api/orchestration/jobs.py:63-165 | `submit`, `get`, `cancel` and the end of a run leave no job that is too old |
| `Jobs.LiveIsKept` | backend/src/verilogic_ns_api/orchestration/jobs.py:175-201 | an unfinished job is never pruned, and moves only along the life cycle |
| `Jobs.StepMoves` | backend/src/verilogic_ns_api/orchestration/jobs.py:63-201 | every step moves every job along the life cycle and never brings back an id |
| `Jobs.FirstComeFirstServed` | backend/src/verilogic_ns_api/orchestration/jobs.py:125-137 | jobs start in the order in which they were accepted |
| `Jobs.PruneWithinLimit` | backend/src/verilogic_ns_api/orchestration/jobs.py:175-201 | after pruning no more than the retention limit of jobs is held |
| `Jobs.PruneDropsOldest` | backend/src/verilogic_ns_api/orchestration/jobs.py:190-201 | an unexpired job is dropped only above the limit, and none that is kept finished earlier |
| `Jobs.SubmitLookupFails` | backend/src/verilogic_ns_api/orchestration/jobs.py:63-69 | `submit` raises a lookup error exactly when the queue holds the id of a job that is gone, or of a cancelled job that its own pruning removes |
| `Jobs.SubmitsFailUntilTake` | backend/src/verilogic_ns_api/orchestration/jobs.py:63-69 | from then until the worker takes a job, every submission fails |
| `Jobs.LookupFailureIsReachable` | backend/src/verilogic_ns_api/orchestration/jobs.py:63-69 | a concrete run, for any bounds, that ends in that failure |
| `Jobs.AcceptedIff` | backend/src/verilogic_ns_api/orchestration/jobs.py:63-75 | a submission is accepted exactly when the lookup succeeds and fewer jobs than the bound are queued, and each refusal has its exact condition |
| `Jobs.ExitingEntered` | backend/src/verilogic_ns_api/orchestration/jobs.py:125-131 | the thread leaves its loop exactly when it finds the queue empty after a shutdown |
| `Jobs.StrandedIff` | backend/src/verilogic_ns_api/orchestration/jobs.py:115-131 | an accepted job can be left queued with no thread exactly when the worker was leaving its loop at its submission |
| `Jobs.StaysServed` | backend/src/verilogic_ns_api/orchestration/jobs.py:115-131 | a job accepted at any other time is, in every later state of the run, out of the queue or ahead of a thread that goes on taking jobs |
| `Jobs.AcceptedWithoutWorker` | backend/src/verilogic_ns_api/orchestration/jobs.py:115-131 | an accepted submission leaves a thread that is leaving its loop alone, and its job is then queued when that thread is gone |
| `Jobs.NothingTakenUntilAccepted` | backend/src/verilogic_ns_api/orchestration/jobs.py:115-131 | with no thread, no run takes a job or changes the queue until a submission is accepted |
| `Jobs.FullQueueStaysStranded` | backend/src/verilogic_ns_api/orchestration/jobs.py:63-75 | with no thread and a full queue, no run without a cancellation or shutdown accepts a submission or starts a thread again |
| `Jobs.StrandedIsReachable` | backend/src/verilogic_ns_api/orchestration/jobs.py:63-131 | a concrete run, for any bounds, to a queued job with no thread; with a bound of one queued job every further submission is refused |
| `JobManager.InMemoryJobManager.Create` | backend/src/verilogic_ns_api/orchestration/jobs.py:41-61 | a manager exactly for bounds within the limits |
| `JobManager.InMemoryJobManager.Submit` | backend/src/verilogic_ns_api/orchestration/jobs.py:63-75 | the submit step and its reply: accepted, queue full or lookup error |
| `JobManager.InMemoryJobManager.Cancel` | backend/src/verilogic_ns_api/orchestration/jobs.py:85-98 | the cancel step and its reply |
| `JobManager.InMemoryJobManager.Shutdown` | backend/src/verilogic_ns_api/orchestration/jobs.py:100-113 | the shutdown step over all jobs |
| `JobManager.InMemoryJobManager.Take` | backend/src/verilogic_ns_api/orchestration/jobs.py:126-137 | the step at the top of the worker's loop |
| `JobManager.InMemoryJobManager.Finish` | backend/src/verilogic_ns_api/orchestration/jobs.py:138-165 | the step that records how a run ended |
| `JobManager.InMemoryJobManager.PruneLocked` | backend/src/verilogic_ns_api/orchestration/jobs.py:175-201 | the pruning step: expired jobs, then the oldest finished ones above the limit |

## Left out

- Wall-clock limits: `_check_timeout`, `execution_duration_ms` and the worker join of `shutdown`; the clock is a parameter where a step needs it.
- The bytes of SHA-256 and of the JSON it digests, and with them collisions; error messages, and the positions inside them.
- Identifier patterns and length caps of the schemas, parser metadata, and confidence values; metadata is not part of the hashed theory payload in the model.
- Python's recursion limit: `_assert_acyclic` and the expression parser recurse once per level, so very deep proofs or texts can raise `RecursionError`.
- Converter.ValidateTheoryCandidate: issue descriptions and paths, de-duplication, ordering and the cap at 64 are not modelled, nor which codes schema errors map to; an answer that does not match the schema is reported as one structured-output issue.
- Apportionment.Apportion: shares are exact rationals; the original computes them as floating-point numbers, whose rounding is not modelled.
- `LeakageAccumulator` and the overlap report, which count how often an example id occurs in a split and list the example ids, question ids, contents and theories that several splits share: not modelled.
- JobManager.InMemoryJobManager.Finish: jobs are values in the table, not shared objects; the worker's reference to its job is the table entry, which the invariant keeps there while the job is active.
- JobManager.InMemoryJobManager.Take: exceptions that are not `Exception`, a failing `runtime.close`, and spurious wake-ups of the condition are not modelled.
- JobManager.InMemoryJobManager.Submit: the random id is a parameter that has not been issued before; collisions of the token generator are not modelled.
- ProofWriter conversion outside the S-expression reader: its identifier maps use a truncated hash suffix, so nothing promises that they are injective.
- `closure_keys` and `canonical_query`: a serialization of the closure proved about elsewhere, and one call of the literal key.
- Providers, response caches, the command line, the HTTP API, file writing, dataset download, prompts, experiment configuration, the research catalogue, metrics, and the stage bookkeeping of the pipeline and its trace.
