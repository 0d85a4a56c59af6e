/** What acceptance means: a proof whose nodes pass the checks derives everything it states, whoever
    made it and whatever the digest. */
module Soundness {
  import opened Keys
  import opened Logic
  import opened Semantics
  import opened Unification
  import opened Proofs
  import opened Graphs
  import opened Checks
  import opened NodeChecks

  function StatedLiteral(n: ProofNode): CanonicalLiteral {
    if n.RuleApplicationNode? then n.conclusion else n.literal
  }

  /** The premises of a checked application match its body among the literals of lower depth. */
  lemma ApplicationMatches(theory: Theory, nodes: NodeMap, id: string, known: set<CanonicalLiteral>)
    requires WellFormed(theory) && NodesOk(theory, nodes) && IsApplication(nodes, id)
    requires forall p :: p in nodes[id].premiseIds && p in nodes && IsLiteralNode(nodes[p]) ==>
        nodes[p].literal in known
    ensures var n := nodes[id];
            && n.ruleId in RulesById(theory)
            && RulesById(theory)[n.ruleId] in theory.rules
            && Matches(RulesById(theory)[n.ruleId].body, DictOf(n.substitution), known)
            && Grounds(RulesById(theory)[n.ruleId].head, DictOf(n.substitution), n.conclusion)
  {
    hide WellFormed, SortBy, DictOf, DepthOk;
    var n := nodes[id];
    assert NodeOk(theory, nodes, n);
    assert NodePasses(theory, nodes, n, RuleCode);
    assert NodePasses(theory, nodes, n, SubstitutionCode);
    assert NodePasses(theory, nodes, n, PremiseCountCode);
    assert NodePasses(theory, nodes, n, PremiseCode);
    assert NodePasses(theory, nodes, n, ConclusionCode);
    RuleBodyNonEmpty(theory, n.ruleId);
    PremisesMatch(nodes, RulesById(theory)[n.ruleId], n.premiseIds, n.substitution, known);
  }

  lemma PremisesMatch(nodes: NodeMap, rule: Rule, ids: seq<string>, items: seq<Binding>, known: set<CanonicalLiteral>)
    requires |ids| == |rule.body| && PremisesOk(nodes, rule, ids, items) && RangeRestricted(rule)
    requires DictOf(items).Keys == UsedVars(rule)
    requires forall p :: p in ids && p in nodes && IsLiteralNode(nodes[p]) ==> nodes[p].literal in known
    ensures Matches(rule.body, DictOf(items), known)
  {
    hide SortBy, DictOf;
    var s := DictOf(items);
    SortedBodySame(rule.body);
    var body := SortedBody(rule.body);
    assert s.Keys == BodyVars(rule.body);
    forall b | b in rule.body ensures Vars(b) <= s.Keys && Ground(b, s) in known {
      assert b in body;
      var i :| 0 <= i < |body| && body[i] == b;
      assert PremiseOk(nodes, ids[i], body[i], s);
      assert ids[i] in ids;
    }
  }

  /** What the depth checks say of one node's children. */
  lemma ApplicationDepth(theory: Theory, nodes: NodeMap, id: string)
    requires NodesOk(theory, nodes) && IsApplication(nodes, id)
    ensures nodes[id].depth > 0
    ensures forall p :: p in nodes[id].premiseIds && p in nodes ==> nodes[p].depth < nodes[id].depth
  {
    hide InstancePasses;
    var n := nodes[id];
    assert NodeOk(theory, nodes, n);
    assert NodePasses(theory, nodes, n, RuleCode);
    assert NodePasses(theory, nodes, n, DepthCode);
    assert InstancePasses(theory, nodes, RulesById(theory)[n.ruleId], n, DepthCode);
    DepthUnfold(theory, nodes, RulesById(theory)[n.ruleId], n);
  }

  lemma DepthUnfold(theory: Theory, nodes: NodeMap, rule: Rule, n: ProofNode)
    requires n.RuleApplicationNode? && InstancePasses(theory, nodes, rule, n, DepthCode)
    ensures DepthOk(nodes, n.premiseIds, n.depth)
  {
  }

  lemma DerivedPoints(theory: Theory, nodes: NodeMap, id: string)
    requires NodesOk(theory, nodes) && id in nodes && nodes[id].DerivedLiteralNode?
    ensures IsApplication(nodes, nodes[id].applicationId)
    ensures nodes[nodes[id].applicationId].conclusion == nodes[id].literal
    ensures nodes[nodes[id].applicationId].depth == nodes[id].depth
  {
    var n := nodes[id];
    assert NodeOk(theory, nodes, n);
    assert NodePasses(theory, nodes, n, ApplicationCode);
    assert NodePasses(theory, nodes, n, ConclusionCode);
    assert NodePasses(theory, nodes, n, DepthCode);
  }

  lemma SourceIsFact(theory: Theory, nodes: NodeMap, id: string)
    requires NodesOk(theory, nodes) && id in nodes && nodes[id].SourceFactNode?
    ensures nodes[id].literal in FactSet(theory) && nodes[id].depth == 0
  {
    var n := nodes[id];
    assert NodeOk(theory, nodes, n);
    assert NodePasses(theory, nodes, n, SourceFactCode);
    assert NodePasses(theory, nodes, n, DepthCode);
  }

  /** Every node of a checked proof states a literal that forward chaining reaches within the node's
      depth; the closure the verifier recomputes plays no part. */
  lemma {:induction false} NodeInStage(theory: Theory, nodes: NodeMap, id: string)
    requires WellFormed(theory) && NodesOk(theory, nodes) && id in nodes
    ensures StatedLiteral(nodes[id]) in Stage(theory, nodes[id].depth)
    decreases nodes[id].depth, if nodes[id].DerivedLiteralNode? then 1 else 0
  {
    hide WellFormed, NodesOk, FactSet;
    match nodes[id]
    case SourceFactNode(_, _, _, _, _) =>
      SourceIsFact(theory, nodes, id);
    case DerivedLiteralNode(_, _, application, _) =>
      DerivedPoints(theory, nodes, id);
      NodeInStage(theory, nodes, application);
    case RuleApplicationNode(_, ruleId, _, _, items, ids, conclusion, depth) =>
      ApplicationDepth(theory, nodes, id);
      var known := Stage(theory, depth - 1);
      forall p | p in ids && p in nodes && IsLiteralNode(nodes[p]) ensures nodes[p].literal in known {
        NodeInStage(theory, nodes, p);
        StageMonotone(theory, nodes[p].depth, depth - 1);
      }
      ApplicationMatches(theory, nodes, id, known);
      InstancesExact(theory.rules, known, RulesById(theory)[ruleId], DictOf(items));
      FiredInStep(theory, known, Instance(RulesById(theory)[ruleId], DictOf(items)), conclusion);
  }

  lemma FiredInStep(theory: Theory, known: set<CanonicalLiteral>, i: Instance, l: CanonicalLiteral)
    requires i in Instances(theory.rules, known) && Grounds(i.rule.head, i.sub, l)
    ensures l in Step(theory, known)
  {
  }

  /** Verifier soundness: every literal stated in a proof whose nodes pass the checks has a derivation
      tree from the theory. Nothing is assumed about who built the proof or about the digest. */
  lemma CheckedNodesAreDerivable(theory: Theory, nodes: NodeMap, id: string)
    requires WellFormed(theory) && NodesOk(theory, nodes) && id in nodes
    ensures Derivable(theory, StatedLiteral(nodes[id]))
  {
    hide WellFormed, NodesOk;
    NodeInStage(theory, nodes, id);
    var t := StageHasTree(theory, nodes[id].depth, StatedLiteral(nodes[id]));
  }

  // ---- The depth checks already rule out cycles ----

  function Rank(nodes: NodeMap, id: string): int {
    if id !in nodes then -1
    else if nodes[id].RuleApplicationNode? then 2 * nodes[id].depth - 1
    else 2 * nodes[id].depth
  }

  /** Once every node passes, each reference lowers (depth, kind), so the later cycle check cannot
      fail and no reference dangles. */
  lemma CheckedNodesAreAcyclic(theory: Theory, nodes: NodeMap)
    requires NodesOk(theory, nodes)
    ensures Acyclic(GraphOf(nodes)) && NoDangling(GraphOf(nodes))
  {
    hide Acyclic;
    forall a, b | Edge(GraphOf(nodes), a, b) ensures b in nodes && Rank(nodes, b) < Rank(nodes, a) {
      EdgeLowersRank(theory, nodes, a, b);
    }
    RankedIsAcyclic(GraphOf(nodes), (id: string) => Rank(nodes, id));
  }

  lemma EdgeLowersRank(theory: Theory, nodes: NodeMap, a: string, b: string)
    requires NodesOk(theory, nodes) && a in nodes && b in Children(nodes[a])
    ensures b in nodes && Rank(nodes, b) < Rank(nodes, a)
  {
    hide NodesOk;
    match nodes[a]
    case SourceFactNode(_, _, _, _, _) =>
    case DerivedLiteralNode(_, _, _, _) =>
      DerivedPoints(theory, nodes, a);
    case RuleApplicationNode(_, _, _, _, _, _, _, _) =>
      ApplicationDepth(theory, nodes, a);
      PremisePresent(theory, nodes, a, b);
  }

  lemma PremisePresent(theory: Theory, nodes: NodeMap, a: string, b: string)
    requires NodesOk(theory, nodes) && IsApplication(nodes, a) && b in nodes[a].premiseIds
    ensures b in nodes && IsLiteralNode(nodes[b])
  {
    hide SortBy, DictOf, DepthOk;
    var n := nodes[a];
    assert NodeOk(theory, nodes, n);
    assert NodePasses(theory, nodes, n, RuleCode);
    assert NodePasses(theory, nodes, n, PremiseCountCode);
    assert NodePasses(theory, nodes, n, PremiseCode);
    var rule := RulesById(theory)[n.ruleId];
    SortedBodySame(rule.body);
    var i :| 0 <= i < |n.premiseIds| && n.premiseIds[i] == b;
    assert PremiseOk(nodes, n.premiseIds[i], SortedBody(rule.body)[i], DictOf(n.substitution));
  }

  // ---- Accepted proofs ----

  lemma AcceptableNodes(sha: Digest, theory: Theory, proof: ProofDAG, expected: Option<Status>)
    requires ValidTheory(theory) && ProofAcceptable(sha, theory, proof, expected)
    ensures NodesOk(theory, NodeMapOf(proof.nodes))
  {
    hide ValidTheory, NodePasses;
    var nodes := NodeMapOf(proof.nodes);
    forall id, code | id in nodes ensures NodePasses(theory, nodes, nodes[id], code) {
      if NodeCode(code) {
        assert ProofPasses(sha, theory, proof, expected, code);
      } else {
        OtherCodesPass(theory, nodes, nodes[id], code);
      }
    }
  }

  /** Whatever an accepted proof states has a derivation tree, under any digest. */
  lemma AcceptedProofsDerive(sha: Digest, theory: Theory, proof: ProofDAG, expected: Option<Status>, id: string)
    requires WellFormed(theory) && ProofAcceptable(sha, theory, proof, expected) && id in NodeMapOf(proof.nodes)
    ensures Derivable(theory, StatedLiteral(NodeMapOf(proof.nodes)[id]))
  {
    hide ValidTheory, SchemaValid, NodesOk, ProofAcceptable, Derivable;
    AcceptableNodes(sha, theory, proof, expected);
    CheckedNodesAreDerivable(theory, NodeMapOf(proof.nodes), id);
  }

  /** An accepted proof classifies the query truly, by derivability: entailed exactly when the query
      has a derivation tree and its opposite has none, and likewise for the other statuses. */
  lemma AcceptedStatusIsTrue(sha: Digest, theory: Theory, proof: ProofDAG, expected: Option<Status>)
    requires ValidTheory(theory) && ProofAcceptable(sha, theory, proof, expected)
    ensures var q := Canonical(theory.query);
            StatusIs(proof.status, Derivable(theory, q), Derivable(theory, q.Opposite()))
  {
    hide ValidTheory, Derivable, NodePasses;
    assert ProofPasses(sha, theory, proof, expected, IncorrectStatusCode);
    ModelIsDerivable(theory, Canonical(theory.query));
    ModelIsDerivable(theory, Canonical(theory.query).Opposite());
  }

  /** The roots alone already carry the positive half: a proof that passes the node and root checks
      derives the query when it claims support and the opposite when it claims opposition. */
  lemma RootsAreDerivable(theory: Theory, proof: ProofDAG)
    requires WellFormed(theory) && NodesOk(theory, NodeMapOf(proof.nodes))
    requires RootOk(NodeMapOf(proof.nodes), proof.supportRootId, NeedsSupport(proof.status), Canonical(theory.query))
    requires RootOk(NodeMapOf(proof.nodes), proof.oppositionRootId, NeedsOpposition(proof.status),
                    Canonical(theory.query).Opposite())
    ensures NeedsSupport(proof.status) ==> Derivable(theory, Canonical(theory.query))
    ensures NeedsOpposition(proof.status) ==> Derivable(theory, Canonical(theory.query).Opposite())
  {
    hide WellFormed, NodesOk, Derivable;
    var nodes := NodeMapOf(proof.nodes);
    if NeedsSupport(proof.status) {
      CheckedNodesAreDerivable(theory, nodes, proof.supportRootId.value);
    }
    if NeedsOpposition(proof.status) {
      CheckedNodesAreDerivable(theory, nodes, proof.oppositionRootId.value);
    }
  }
}
