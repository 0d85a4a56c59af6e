/** The proof verifier (backend/src/verilogic_ns_api/reasoning/verifier.py). It matches, grounds and
    saturates with its own code; only the meaning of a theory is shared with the engine. */
module Verifier {
  import opened Keys
  import opened Logic
  import opened Semantics
  import opened Proofs
  import opened Graphs
  import opened Checks
  import opened NaiveSaturation
  import opened NodeChecks

  datatype VerifyError = Rejected(code: Code) | Resource(error: LimitError)

  datatype VerificationResult = VerificationResult(status: Status, proofHash: string, nodeCount: nat)

  /** A verification stops at a limit only when the proof or the theory exceeds it. */
  ghost predicate VerifyExceeds(theory: Theory, limits: Limits, nodeCount: nat, e: LimitError) {
    || NaiveExceeds(theory, limits, e)
    || (e == LimitError(MaxProofNodes, limits.maxProofNodes, nodeCount) && nodeCount > limits.maxProofNodes)
  }

  /** The naive closure of the theory fits the limits: it is reached in the allowed rounds with the
      allowed literals and firings. */
  ghost predicate NaiveFits(theory: Theory, limits: Limits, k: nat)
    requires ValidTheory(theory)
  {
    && Stage(theory, k) == ModelOf(theory) && ReachedStage(theory, k) && k <= limits.maxRounds
    && |ModelOf(theory)| <= limits.maxDerivedLiterals
    && NaiveFirings(theory, k) <= limits.maxRuleFirings
  }

  /** The loop of `verify_proof` that loads the nodes. */
  method LoadNodes(sha: Digest, proofNodes: seq<ProofNode>) returns (r: Result<NodeMap, Code>)
    ensures r.Ok? <==> DistinctIds(proofNodes, NODE_ID) && forall n :: n in proofNodes ==>
        RecomputeNodeId(sha, n) == n.nodeId
    ensures r.Ok? ==> r.value == NodeMapOf(proofNodes)
    ensures r.Err? ==> match r.error
                         case DuplicateNodeCode => !DistinctIds(proofNodes, NODE_ID)
                         case NodeHashCode => exists n :: n in proofNodes && RecomputeNodeId(sha, n) != n.nodeId
                         case _ => false
  {
    hide RecomputeNodeId, DistinctIds, Lookup;
    var nodes: NodeMap := map[];
    assert proofNodes[..0] == [];
    NoNodes();
    for i := 0 to |proofNodes|
      invariant nodes == Lookup(proofNodes[..i], NODE_ID) && DistinctIds(proofNodes[..i], NODE_ID)
      invariant forall n :: n in proofNodes[..i] ==> RecomputeNodeId(sha, n) == n.nodeId
    {
      var n := proofNodes[i];
      assert n in proofNodes;
      NextItem(proofNodes, i, NODE_ID);
      if n.nodeId in nodes {
        return Err(DuplicateNodeCode);
      }
      if RecomputeNodeId(sha, n) != n.nodeId {
        return Err(NodeHashCode);
      }
      assert proofNodes[..i + 1] == proofNodes[..i] + [n];
      nodes := nodes[n.nodeId := n];
    }
    assert proofNodes[..|proofNodes|] == proofNodes;
    return Ok(nodes);
  }

  lemma NoNodes()
    ensures Lookup([], NODE_ID) == map[] && DistinctIds([], NODE_ID)
  {
  }

  function Classify(query: CanonicalLiteral, closure: set<CanonicalLiteral>): (status: Status)
    ensures StatusIs(status, query in closure, query.Opposite() in closure)
  {
    if query in closure && query.Opposite() in closure then Inconsistent
    else if query in closure then Entailed
    else if query.Opposite() in closure then Contradicted
    else Unknown
  }

  lemma OneStatus(a: Status, b: Status, support: bool, opposition: bool)
    requires StatusIs(b, support, opposition)
    ensures StatusIs(a, support, opposition) <==> a == b
  {
  }

  class ProofVerifier {
    const limits: Limits
    const sha: Digest

    constructor (limits: Limits, sha: Digest)
      ensures this.limits == limits && this.sha == sha
    {
      this.limits := limits;
      this.sha := sha;
    }

    /** The matches of one rule in a pass. */
    method FireRule(theory: Theory, rule: Rule, closure: set<CanonicalLiteral>, newLiterals: set<CanonicalLiteral>,
                    firings: nat, ghost seen: set<Instance>, ghost start: nat)
      returns (r: Result<(set<CanonicalLiteral>, nat), LimitError>, ghost after: set<Instance>)
      requires rule in theory.rules && RangeRestricted(rule)
      requires PassState(theory, closure, seen, newLiterals, start, firings) && firings <= limits.maxRuleFirings
      requires forall i :: i in seen ==> i.rule != rule
      ensures r.Ok? ==>
            PassState(theory, closure, after, r.value.0, start, r.value.1) && r.value.1 <= limits.maxRuleFirings
      ensures r.Ok? ==> forall i :: i in after <==>
          i in seen || (i.rule == rule && i in Instances(theory.rules, closure))
      ensures r.Err? ==> r.error == LimitError(MaxRuleFirings, limits.maxRuleFirings, limits.maxRuleFirings + 1)
      ensures r.Err? ==> start + |Instances(theory.rules, closure)| >= r.error.observed
    {
      hide Instances, PassState, Leq;
      var found: set<CanonicalLiteral>, count: nat := newLiterals, firings;
      after := seen;
      var matches := NaiveMatches(rule.body, closure);
      for n := 0 to |matches|
        invariant PassState(theory, closure, after, found, start, count) && count <= limits.maxRuleFirings
        invariant forall i :: i in after <==>
            i in seen || (i.rule == rule && exists j :: 0 <= j < n && matches[j] == i.sub)
      {
        var s := matches[n];
        assert s in matches;
        ghost var i := Instance(rule, s);
        InstancesExact(theory.rules, closure, rule, s);
        count := count + 1;
        if count > limits.maxRuleFirings {
          PassBound(theory, closure, after, found, start, count - 1, i);
          return Err(LimitError(MaxRuleFirings, limits.maxRuleFirings, count)), after;
        }
        var conclusion := GroundIndependently(rule.head, s);
        PassStep(theory, closure, after, found, start, count - 1, i, conclusion.value);
        if conclusion.value !in closure {
          found := found + {conclusion.value};
        }
        after := after + {i};
      }
      forall i: Instance | i.rule == rule && i in Instances(theory.rules, closure) ensures i in after {
        InstancesExact(theory.rules, closure, rule, i.sub);
        assert i.sub in matches;
      }
      forall i: Instance | i in after && i !in seen ensures i in Instances(theory.rules, closure) {
        InstancesExact(theory.rules, closure, rule, i.sub);
        assert i.sub in matches;
      }
      return Ok((found, count)), after;
    }

    /** One pass over all rules. */
    method Pass(theory: Theory, closure: set<CanonicalLiteral>, start: nat)
      returns (r: Result<(set<CanonicalLiteral>, nat), LimitError>)
      requires WellFormed(theory) && start <= limits.maxRuleFirings
      ensures r.Ok? ==> r.value.0 == Heads(Instances(theory.rules, closure)) - closure
      ensures r.Ok? ==> r.value.1 == start + |Instances(theory.rules, closure)| <= limits.maxRuleFirings
      ensures r.Err? ==> r.error == LimitError(MaxRuleFirings, limits.maxRuleFirings, limits.maxRuleFirings + 1)
      ensures r.Err? ==> start + |Instances(theory.rules, closure)| >= r.error.observed
    {
      hide Instances, PassState, SchemaValid;
      var newLiterals: set<CanonicalLiteral>, firings: nat := {}, start;
      ghost var seen: set<Instance> := {};
      EmptyPass(theory, closure, start);
      for n := 0 to |theory.rules|
        invariant PassState(theory, closure, seen, newLiterals, start, firings) && firings <= limits.maxRuleFirings
        invariant forall i :: i in seen <==> i.rule in theory.rules[..n] && i in Instances(theory.rules, closure)
      {
        var rule := theory.rules[n];
        RuleFacts(theory, n);
        assert theory.rules[..n + 1] == theory.rules[..n] + [rule];
        var step;
        step, seen := FireRule(theory, rule, closure, newLiterals, firings, seen, start);
        if step.Err? {
          return Err(step.error);
        }
        newLiterals, firings := step.value.0, step.value.1;
      }
      assert theory.rules[..|theory.rules|] == theory.rules;
      forall i: Instance | i in Instances(theory.rules, closure) ensures i in seen {
        InstancesExact(theory.rules, closure, i.rule, i.sub);
      }
      PassEnd(theory, closure, seen, newLiterals, start, firings);
      return Ok((newLiterals, firings));
    }

    /** `_naive_closure`: the least model, or an error for a limit it exceeds. */
    method NaiveClosure(theory: Theory) returns (r: Result<set<CanonicalLiteral>, LimitError>, ghost rounds: nat)
      requires WellFormed(theory)
      ensures r.Ok? ==> r.value == ModelOf(theory) && |r.value| <= limits.maxDerivedLiterals
      ensures r.Ok? ==> r.value == Stage(theory, rounds) && ReachedStage(theory, rounds) && rounds <= limits.maxRounds
      ensures r.Ok? ==> NaiveFirings(theory, rounds) <= limits.maxRuleFirings
      ensures r.Err? ==> NaiveExceeds(theory, limits, r.error)
    {
      hide Instances, ValidTheory, SchemaValid, HerbrandBase, Stage, NaiveFirings, Heads, StageGrowsAt;
      var closure := set f | f in theory.facts :: Canonical(f);
      StageZero(theory);
      rounds := 0;
      if |closure| > limits.maxDerivedLiterals {
        return Err(LimitError(MaxDerivedLiterals, limits.maxDerivedLiterals, |closure|)), rounds;
      }
      var firings: nat := 0;
      var productive: nat := 0;
      BaseBound(theory, 0);
      while true
        invariant productive == rounds && closure == Stage(theory, rounds) && ReachedStage(theory, rounds)
        invariant |closure| <= limits.maxDerivedLiterals && rounds <= limits.maxRounds
        invariant firings == FiringsBefore(theory, rounds) <= limits.maxRuleFirings
        invariant |closure| <= |HerbrandBase(theory)|
        decreases |HerbrandBase(theory)| - |closure|
      {
        var step := Pass(theory, closure, firings);
        NaiveFiringsStep(theory, rounds);
        if step.Err? {
          assert ReachedStage(theory, rounds) && step.error.observed <= NaiveFirings(theory, rounds);
          return Err(step.error), rounds;
        }
        var newLiterals := step.value.0;
        firings := step.value.1;
        StageNext(theory, rounds, newLiterals);
        if newLiterals == {} {
          FixedStageIsModel(theory, rounds);
          return Ok(closure), rounds;
        }
        productive := productive + 1;
        if productive > limits.maxRounds {
          StageGrowsUnfold(theory, rounds);
          return Err(LimitError(MaxRounds, limits.maxRounds, productive)), rounds;
        }
        GrowthBound(theory, rounds);
        rounds := rounds + 1;
        closure := closure + newLiterals;
        if |closure| > limits.maxDerivedLiterals {
          return Err(LimitError(MaxDerivedLiterals, limits.maxDerivedLiterals, |closure|)), rounds;
        }
      }
    }

    /** The header checks of `verify_proof`, up to the proof hash. */
    method CheckHeader(theory: Theory, proof: ProofDAG, expected: Option<Status>) returns (r: Result<(), Code>)
      requires ValidTheory(theory)
      ensures r.Ok? <==> forall code | HeaderCode(code) :: ProofPasses(sha, theory, proof, expected, code)
      ensures r.Err? ==> HeaderCode(r.error) && !ProofPasses(sha, theory, proof, expected, r.error)
    {
      hide ValidTheory, NodePasses, TheoryHash, RecomputeProofHash;
      if proof.schemaVersion != "1.0" {
        assert !ProofPasses(sha, theory, proof, expected, SchemaVersionCode);
        return Err(SchemaVersionCode);
      }
      if proof.theoryHash != TheoryHash(sha, theory) {
        assert !ProofPasses(sha, theory, proof, expected, TheoryHashCode);
        return Err(TheoryHashCode);
      }
      if proof.query != Canonical(theory.query) {
        assert !ProofPasses(sha, theory, proof, expected, QueryCode);
        return Err(QueryCode);
      }
      if expected.Some? && proof.status != expected.value {
        assert !ProofPasses(sha, theory, proof, expected, StatusCode);
        return Err(StatusCode);
      }
      if RecomputeProofHash(sha, proof) != proof.proofHash {
        assert !ProofPasses(sha, theory, proof, expected, ProofHashCode);
        return Err(ProofHashCode);
      }
      return Ok(());
    }

    /** The checks of the nodes, the roots and the graph. */
    method CheckDag(theory: Theory, proof: ProofDAG, expected: Option<Status>) returns (r: Result<(), Code>)
      requires WellFormed(theory)
      ensures r.Ok? <==> forall code | DagCode(code) :: ProofPasses(sha, theory, proof, expected, code)
      ensures r.Err? ==> DagCode(r.error) && !ProofPasses(sha, theory, proof, expected, r.error)
    {
      hide ValidTheory, SchemaValid, NodesOk, Acyclic, NoDangling, RootOk, ReachableFrom, SortBy, GraphOf, NodeMapOf,
        RecomputeNodeId, RootsOf, ProofPasses, DagCode, IdsOf, DistinctIds;
      var loaded := LoadNodes(sha, proof.nodes);
      if loaded.Err? {
        LoadRejects(sha, theory, proof, expected, loaded.error);
        return Err(loaded.error);
      }
      var nodes := loaded.value;
      if SortBy(IdsOf(proof.nodes), STRING_KEY) != IdsOf(proof.nodes) {
        OrderRejects(sha, theory, proof, expected);
        return Err(NodeOrderCode);
      }
      var roots := ValidateRoots(proof, nodes, Canonical(theory.query));
      if roots.Err? {
        RootsReject(sha, theory, proof, expected, nodes, roots.error);
        return Err(roots.error);
      }
      var graph := ValidateNodes(theory, proof.nodes, nodes);
      if graph.Err? {
        NodesReject(sha, theory, proof, expected, nodes, graph.error);
        return Err(graph.error);
      }
      GraphKeys(nodes);
      var reachable := ReachableNodes(graph.value, roots.value);
      if reachable.Err? {
        DanglingRootRejects(sha, theory, proof, expected, reachable.error.node);
        return Err(DanglingCode);
      }
      if reachable.value != nodes.Keys {
        UnreachableRejects(sha, theory, proof, expected, nodes, reachable.value);
        return Err(UnreachableNodeCode);
      }
      DagAccepts(sha, theory, proof, expected, nodes);
      return Ok(());
    }

    /** `verify_proof`: accepts only a proof that passes every condition, names a condition that really
        fails, and stops at a limit only when it is exceeded. The status is judged by the closure that is
        passed in, whatever it is, and by the least model when none is. */
    method VerifyProof(theory: Theory, proof: ProofDAG, expected: Option<Status>,
                       closure: Option<set<CanonicalLiteral>>)
      returns (r: Result<VerificationResult, VerifyError>)
      requires WellFormed(theory)
      ensures r.Ok? ==> forall code :: JudgedPasses(sha, theory, proof, expected, Judged(theory, closure), code)
      ensures r.Ok? ==> |proof.nodes| <= limits.maxProofNodes
      ensures r.Ok? ==> r.value == VerificationResult(proof.status, proof.proofHash, |proof.nodes|)
      ensures r.Ok? && closure.None? ==> exists k :: NaiveFits(theory, limits, k)
      ensures r.Err? && r.error.Rejected? ==>
                !JudgedPasses(sha, theory, proof, expected, Judged(theory, closure), r.error.code)
      ensures r.Err? && r.error.Resource? ==> VerifyExceeds(theory, limits, |proof.nodes|, r.error.error)
      ensures r.Err? && r.error.Resource? && closure.Some? ==> r.error.error.name == MaxProofNodes
    {
      hide ValidTheory, SchemaValid, ProofPasses, NaiveExceeds, ReachedStage;
      var header := CheckHeader(theory, proof, expected);
      if header.Err? {
        return Err(Rejected(header.error));
      }
      if |proof.nodes| > limits.maxProofNodes {
        return Err(Resource(LimitError(MaxProofNodes, limits.maxProofNodes, |proof.nodes|)));
      }
      var dag := CheckDag(theory, proof, expected);
      if dag.Err? {
        return Err(Rejected(dag.error));
      }
      var derived: set<CanonicalLiteral>;
      if closure.Some? {
        derived := closure.value;
      } else {
        var naive;
        ghost var rounds;
        naive, rounds := NaiveClosure(theory);
        if naive.Err? {
          return Err(Resource(naive.error));
        }
        derived := naive.value;
        assert NaiveFits(theory, limits, rounds);
      }
      assert derived == Judged(theory, closure);
      var actualStatus := Classify(Canonical(theory.query), derived);
      if proof.status != actualStatus {
        OneStatus(proof.status, actualStatus, Canonical(theory.query) in derived,
          Canonical(theory.query).Opposite() in derived);
        return Err(Rejected(IncorrectStatusCode));
      }
      forall code ensures JudgedPasses(sha, theory, proof, expected, derived, code) {
        if !HeaderCode(code) && !DagCode(code) && code != IncorrectStatusCode {
          ResultCodesPass(sha, theory, proof, expected, code);
        }
      }
      return Ok(VerificationResult(proof.status, proof.proofHash, |proof.nodes|));
    }

    /** `verify_result`: accepts only a result that passes every condition; any rejection names a
        condition that fails, and any limit error a limit that is exceeded. */
    method VerifyResult(theory: Theory, result: ReasoningResult) returns (r: Result<VerificationResult, VerifyError>)
      requires WellFormed(theory)
      ensures r.Ok? ==> ResultAcceptable(sha, theory, result) && |result.proof.nodes| <= limits.maxProofNodes
      ensures r.Ok? ==> exists k :: NaiveFits(theory, limits, k)
      ensures r.Ok? ==> r.value == VerificationResult(result.status, result.proof.proofHash, |result.proof.nodes|)
      ensures r.Err? && r.error.Rejected? ==> !ResultPasses(sha, theory, result, r.error.code)
      ensures r.Err? && r.error.Resource? ==> VerifyExceeds(theory, limits, |result.proof.nodes|, r.error.error)
    {
      hide ValidTheory, SchemaValid, NaiveExceeds, NaiveFits, Conflicts, ProofPasses, ResultPasses, JudgedPasses;
      if result.theoryId != theory.theoryId {
        ResultRejects(sha, theory, result, TheoryIdCode);
        return Err(Rejected(TheoryIdCode));
      }
      if result.query != Canonical(theory.query) {
        ResultRejects(sha, theory, result, QueryCode);
        return Err(Rejected(QueryCode));
      }
      var closure;
      ghost var rounds;
      closure, rounds := NaiveClosure(theory);
      if closure.Err? {
        return Err(Resource(closure.error));
      }
      Fits(theory, limits, rounds);
      var conflicts := NaiveConflicts(closure.value);
      if result.closureContainsConflicts != (conflicts != {}) {
        ResultRejects(sha, theory, result, ConflictFlagCode);
        return Err(Rejected(ConflictFlagCode));
      }
      if result.conflictCount != |conflicts| {
        ResultRejects(sha, theory, result, ConflictCountCode);
        return Err(Rejected(ConflictCountCode));
      }
      r := VerifyProof(theory, result.proof, Some(result.status), Some(closure.value));
      assert Judged(theory, Some(closure.value)) == ModelOf(theory);
      if r.Ok? {
        AcceptedByModel(sha, theory, result.proof, Some(result.status));
        ResultAccepts(sha, theory, result);
      } else if r.error.Rejected? {
        JudgedByModel(sha, theory, result.proof, Some(result.status), r.error.code);
        ResultRejects(sha, theory, result, r.error.code);
      }
    }
  }

  lemma AcceptedByModel(sha: Digest, theory: Theory, proof: ProofDAG, expected: Option<Status>)
    requires ValidTheory(theory)
    requires forall code :: JudgedPasses(sha, theory, proof, expected, ModelOf(theory), code)
    ensures ProofAcceptable(sha, theory, proof, expected)
  {
    hide ValidTheory, JudgedPasses, ProofPasses;
    forall code ensures ProofPasses(sha, theory, proof, expected, code) {
      JudgedByModel(sha, theory, proof, expected, code);
    }
  }

  lemma Fits(theory: Theory, limits: Limits, k: nat)
    requires ValidTheory(theory)
    requires Stage(theory, k) == ModelOf(theory) && ReachedStage(theory, k) && k <= limits.maxRounds
    requires |ModelOf(theory)| <= limits.maxDerivedLiterals && NaiveFirings(theory, k) <= limits.maxRuleFirings
    ensures NaiveFits(theory, limits, k)
  {
    hide ValidTheory;
  }

  lemma ResultRejects(sha: Digest, theory: Theory, result: ReasoningResult, code: Code)
    requires ValidTheory(theory)
    requires || (code == TheoryIdCode && result.theoryId != theory.theoryId)
             || (code == QueryCode && result.query != Canonical(theory.query))
             || (code == ConflictFlagCode && result.closureContainsConflicts != (Conflicts(ModelOf(theory)) != {}))
             || (code == ConflictCountCode && result.conflictCount != |Conflicts(ModelOf(theory))|)
             || !ProofPasses(sha, theory, result.proof, Some(result.status), code)
    ensures !ResultPasses(sha, theory, result, code)
  {
    hide ValidTheory, ProofPasses, Conflicts;
  }

  lemma ResultAccepts(sha: Digest, theory: Theory, result: ReasoningResult)
    requires ValidTheory(theory) && ProofAcceptable(sha, theory, result.proof, Some(result.status))
    requires result.theoryId == theory.theoryId && result.query == Canonical(theory.query)
    requires result.closureContainsConflicts == (Conflicts(ModelOf(theory)) != {})
    requires result.conflictCount == |Conflicts(ModelOf(theory))|
    ensures ResultAcceptable(sha, theory, result) && result.proof.status == result.status
  {
    StatusMatches(sha, theory, result);
    hide ValidTheory, ProofPasses, Conflicts;
    forall code ensures ResultPasses(sha, theory, result, code) {
      assert ProofPasses(sha, theory, result.proof, Some(result.status), code);
    }
  }

  function NaiveConflicts(closure: set<CanonicalLiteral>): (r: set<CanonicalLiteral>)
    ensures r == Conflicts(closure)
  {
    set l | l in closure && l.negated && l.Opposite() in closure :: l.(negated := false)
  }

  predicate HeaderCode(code: Code) {
    code.SchemaVersionCode? || code.TheoryHashCode? || code.QueryCode? || code.StatusCode? || code.ProofHashCode?
  }

  predicate DagCode(code: Code) {
    match code
    case DuplicateNodeCode | NodeHashCode | NodeOrderCode => true
    case SupportRootCode | OppositionRootCode | UnknownProofCode => true
    case CycleCode | DanglingCode | UnreachableNodeCode => true
    case _ => NodeCode(code)
  }

  lemma ResultCodesPass(sha: Digest, theory: Theory, proof: ProofDAG, expected: Option<Status>, code: Code)
    requires ValidTheory(theory) && !HeaderCode(code) && !DagCode(code) && code != IncorrectStatusCode
    ensures ProofPasses(sha, theory, proof, expected, code)
  {
    hide ValidTheory;
    var nodes := NodeMapOf(proof.nodes);
    forall id | id in nodes ensures NodePasses(theory, nodes, nodes[id], code) {
      OtherCodesPass(theory, nodes, nodes[id], code);
    }
  }

  lemma StatusVerdict(sha: Digest, theory: Theory, proof: ProofDAG, expected: Option<Status>, actual: Status)
    requires ValidTheory(theory)
    requires StatusIs(actual, Canonical(theory.query) in ModelOf(theory),
        Canonical(theory.query).Opposite() in ModelOf(theory))
    ensures ProofPasses(sha, theory, proof, expected, IncorrectStatusCode) <==> proof.status == actual
  {
    hide ValidTheory;
  }

  lemma StatusMatches(sha: Digest, theory: Theory, result: ReasoningResult)
    requires ValidTheory(theory) && ProofAcceptable(sha, theory, result.proof, Some(result.status))
    ensures result.proof.status == result.status
  {
    hide ValidTheory;
    assert ProofPasses(sha, theory, result.proof, Some(result.status), StatusCode);
  }

  lemma LoadRejects(sha: Digest, theory: Theory, proof: ProofDAG, expected: Option<Status>, code: Code)
    requires ValidTheory(theory)
    requires match code
             case DuplicateNodeCode => !DistinctIds(proof.nodes, NODE_ID)
             case NodeHashCode => exists n :: n in proof.nodes && RecomputeNodeId(sha, n) != n.nodeId
             case _ => false
    ensures DagCode(code) && !ProofPasses(sha, theory, proof, expected, code)
  {
    hide ValidTheory, DistinctIds, RecomputeNodeId;
  }

  lemma OrderRejects(sha: Digest, theory: Theory, proof: ProofDAG, expected: Option<Status>)
    requires ValidTheory(theory) && SortBy(IdsOf(proof.nodes), STRING_KEY) != IdsOf(proof.nodes)
    ensures DagCode(NodeOrderCode) && !ProofPasses(sha, theory, proof, expected, NodeOrderCode)
  {
    hide ValidTheory, SortBy, IdsOf;
  }

  lemma RootsReject(sha: Digest, theory: Theory, proof: ProofDAG, expected: Option<Status>, nodes: NodeMap, code: Code)
    requires ValidTheory(theory) && nodes == NodeMapOf(proof.nodes)
    requires var query := Canonical(theory.query);
             match code
             case SupportRootCode => !RootOk(nodes, proof.supportRootId, NeedsSupport(proof.status), query)
             case OppositionRootCode => !RootOk(nodes, proof.oppositionRootId, NeedsOpposition(proof.status),
               query.Opposite())
             case UnknownProofCode => proof.status.Unknown? && proof.nodes != []
             case _ => false
    ensures DagCode(code) && !ProofPasses(sha, theory, proof, expected, code)
  {
    hide ValidTheory, RootOk, NodeMapOf;
  }

  lemma DanglingRootRejects(sha: Digest, theory: Theory, proof: ProofDAG, expected: Option<Status>, n: string)
    requires ValidTheory(theory)
    requires ReachableFrom(GraphOf(NodeMapOf(proof.nodes)), RootsOf(proof), n) && n !in NodeMapOf(proof.nodes)
    ensures DagCode(DanglingCode) && !ProofPasses(sha, theory, proof, expected, DanglingCode)
  {
    hide ValidTheory, NodeMapOf, GraphOf, RootsOf, ReachableFrom, NoDangling;
  }

  lemma UnreachableRejects(sha: Digest, theory: Theory, proof: ProofDAG, expected: Option<Status>, nodes: NodeMap,
                           reachable: set<string>)
    requires ValidTheory(theory) && nodes == NodeMapOf(proof.nodes) && reachable != nodes.Keys
    requires forall n :: n in reachable <==> ReachableFrom(GraphOf(nodes), RootsOf(proof), n)
    requires forall n :: ReachableFrom(GraphOf(nodes), RootsOf(proof), n) ==> n in nodes
    ensures DagCode(UnreachableNodeCode) && !ProofPasses(sha, theory, proof, expected, UnreachableNodeCode)
  {
    hide ValidTheory, NodeMapOf, GraphOf, RootsOf, ReachableFrom;
    assert !(nodes.Keys <= reachable);
  }

  lemma DagAccepts(sha: Digest, theory: Theory, proof: ProofDAG, expected: Option<Status>, nodes: NodeMap)
    requires ValidTheory(theory) && nodes == NodeMapOf(proof.nodes)
    requires DistinctIds(proof.nodes, NODE_ID) && forall n :: n in proof.nodes ==> RecomputeNodeId(sha, n) == n.nodeId
    requires SortBy(IdsOf(proof.nodes), STRING_KEY) == IdsOf(proof.nodes)
    requires RootOk(nodes, proof.supportRootId, NeedsSupport(proof.status), Canonical(theory.query))
    requires RootOk(nodes, proof.oppositionRootId, NeedsOpposition(proof.status), Canonical(theory.query).Opposite())
    requires proof.status.Unknown? ==> proof.nodes == []
    requires NodesOk(theory, nodes) && Acyclic(GraphOf(nodes)) && NoDangling(GraphOf(nodes))
    requires forall n :: n in nodes <==> ReachableFrom(GraphOf(nodes), RootsOf(proof), n)
    ensures forall code | DagCode(code) :: ProofPasses(sha, theory, proof, expected, code)
  {
    hide ValidTheory, DistinctIds, RecomputeNodeId, SortBy, IdsOf, RootOk, NodesOk, Acyclic, NoDangling,
      ReachableFrom, GraphOf, NodeMapOf, RootsOf, NodePasses, TheoryHash, RecomputeProofHash, TrueStatus;
    forall code | DagCode(code) ensures ProofPasses(sha, theory, proof, expected, code) {
      NodesPassAll(sha, theory, proof, expected, nodes, code);
    }
  }

  lemma NodesReject(sha: Digest, theory: Theory, proof: ProofDAG, expected: Option<Status>, nodes: NodeMap, code: Code)
    requires ValidTheory(theory) && nodes == NodeMapOf(proof.nodes)
    requires match code
             case CycleCode => !Acyclic(GraphOf(nodes))
             case DanglingCode => !NoDangling(GraphOf(nodes))
             case code => exists id :: id in nodes && !NodePasses(theory, nodes, nodes[id], code)
    ensures DagCode(code) && !ProofPasses(sha, theory, proof, expected, code)
  {
    hide ValidTheory, Acyclic, NoDangling, GraphOf, NodePasses, NodeMapOf, ReachableFrom, RootsOf, TrueStatus;
    if code != CycleCode && code != DanglingCode {
      var id :| id in nodes && !NodePasses(theory, nodes, nodes[id], code);
      NotNodeCode(theory, nodes, nodes[id], code);
    }
  }

  lemma GraphKeys(nodes: NodeMap)
    ensures GraphOf(nodes).Keys == nodes.Keys
  {
  }

  lemma NodesPassAll(sha: Digest, theory: Theory, proof: ProofDAG, expected: Option<Status>, nodes: NodeMap, code: Code)
    requires ValidTheory(theory) && nodes == NodeMapOf(proof.nodes) && NodesOk(theory, nodes)
    ensures NodeCode(code) ==> ProofPasses(sha, theory, proof, expected, code)
  {
    hide ValidTheory, NodePasses;
    forall id | id in nodes ensures NodePasses(theory, nodes, nodes[id], code) {
      assert NodeOk(theory, nodes, nodes[id]);
    }
  }
}
