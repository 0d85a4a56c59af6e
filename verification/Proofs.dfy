/** Proof nodes, derivations with their choice keys, and the proof DAG of a result
    (backend/src/verilogic_ns_api/reasoning/proofs.py). The digest of a payload is a parameter;
    results that need distinct payloads to have distinct digests say so. */
module Proofs {
  import opened Keys
  import opened Logic
  import opened Semantics
  import opened Unification

  datatype ProofNode =
    | SourceFactNode(nodeId: string, literal: CanonicalLiteral, sourceId: string, sourceText: string,
                     depth: nat)
    | RuleApplicationNode(nodeId: string, ruleId: string, sourceId: string, sourceText: string,
                          substitution: seq<Binding>, premiseIds: seq<string>,
                          conclusion: CanonicalLiteral, depth: nat)
    | DerivedLiteralNode(nodeId: string, literal: CanonicalLiteral, applicationId: string, depth: nat)

  datatype Status = Entailed | Contradicted | Unknown | Inconsistent

  datatype ProofDAG = ProofDAG(schemaVersion: string, theoryHash: string, query: CanonicalLiteral,
                               status: Status, supportRootId: Option<string>,
                               oppositionRootId: Option<string>, nodes: seq<ProofNode>,
                               proofHash: string)

  /** What gets digested: a node without its id, a tie-break record, a proof without its hash, or a
      canonically ordered theory. */
  datatype Payload =
    | SourceFactPayload(literal: CanonicalLiteral, sourceId: string, sourceText: string, depth: nat)
    | ApplicationPayload(ruleId: string, sourceId: string, sourceText: string, substitution: seq<Binding>,
                         premiseIds: seq<string>, conclusion: CanonicalLiteral, depth: nat)
    | DerivedPayload(literal: CanonicalLiteral, applicationId: string, depth: nat)
    | TiePayload(ruleId: string, substitution: seq<Binding>, premiseIds: seq<string>, literal: CanonicalLiteral)
    | ProofPayload(schemaVersion: string, theoryHash: string, query: CanonicalLiteral, status: Status,
                   supportRootId: Option<string>, oppositionRootId: Option<string>, nodes: seq<ProofNode>)
    | TheoryPayload(theory: Theory)

  type Digest = Payload -> string

  ghost predicate Injective(sha: Digest) {
    forall p, q :: sha(p) == sha(q) ==> p == q
  }

  function NodePayload(n: ProofNode): Payload {
    match n
    case SourceFactNode(_, l, sid, text, d) => SourceFactPayload(l, sid, text, d)
    case RuleApplicationNode(_, rid, sid, text, items, ids, c, d) =>
      ApplicationPayload(rid, sid, text, items, ids, c, d)
    case DerivedLiteralNode(_, l, aid, d) => DerivedPayload(l, aid, d)
  }

  /** `recompute_node_id`. */
  function RecomputeNodeId(sha: Digest, n: ProofNode): string {
    sha(NodePayload(n))
  }

  /** `recompute_proof_hash`. */
  function RecomputeProofHash(sha: Digest, p: ProofDAG): string {
    sha(ProofPayload(p.schemaVersion, p.theoryHash, p.query, p.status, p.supportRootId, p.oppositionRootId, p.nodes))
  }

  // ---- The canonical theory and its hash ----

  const SOURCE_KEY := (s: SourceStatement) => Str(s.id)
  const ENTITY_KEY := (e: Entity) => Str(e.id)
  const PREDICATE_KEY := (p: PredicateDefinition) => Str(p.name)
  const VARIABLE_KEY := (v: VariableDefinition) => Str(v.name)
  const RULE_KEY := (r: Rule) => Str(r.id)

  function CanonicalRule(r: Rule): Rule {
    r.(variables := SortBy(r.variables, VARIABLE_KEY), body := SortedBody(r.body))
  }

  function CanonicalEach(rules: seq<Rule>): seq<Rule> {
    seq(|rules|, i requires 0 <= i < |rules| => CanonicalRule(rules[i]))
  }

  /** `canonical_theory_payload`: every list whose order carries no meaning, sorted. */
  function CanonicalTheory(t: Theory): Theory {
    t.(sources := SortBy(t.sources, SOURCE_KEY), entities := SortBy(t.entities, ENTITY_KEY),
       predicates := SortBy(t.predicates, PREDICATE_KEY), facts := SortBy(t.facts, FactKey),
       rules := SortBy(CanonicalEach(t.rules), RULE_KEY))
  }

  function TheoryHash(sha: Digest, t: Theory): string {
    sha(TheoryPayload(CanonicalTheory(t)))
  }

  // ---- Derivations ----

  datatype Derivation = Derivation(literal: CanonicalLiteral, depth: nat, rootId: string,
                                   nodes: map<string, ProofNode>, choiceKey: Key)

  function WithId(sha: Digest, n: ProofNode): ProofNode {
    n.(nodeId := RecomputeNodeId(sha, n))
  }

  /** `make_source_derivation`. */
  function SourceDerivation(sha: Digest, literal: CanonicalLiteral, sourceId: string, sourceText: string): Derivation {
    var node := WithId(sha, SourceFactNode("", literal, sourceId, sourceText, 0));
    Derivation(literal, 0, node.nodeId, map[node.nodeId := node],
               Pair(Num(0), Pair(Num(1), Pair(Str(sourceId), Str(node.nodeId)))))
  }

  function MaxDepth(premises: seq<Derivation>): nat
    requires premises != []
  {
    if |premises| == 1 then premises[0].depth
    else
      var d, rest := premises[0].depth, MaxDepth(premises[1..]);
      if d > rest then d else rest
  }

  lemma {:induction false} MaxDepthBounds(premises: seq<Derivation>)
    requires premises != []
    ensures forall i :: 0 <= i < |premises| ==> premises[i].depth <= MaxDepth(premises)
    ensures exists i :: 0 <= i < |premises| && premises[i].depth == MaxDepth(premises)
  {
    if |premises| > 1 {
      MaxDepthBounds(premises[1..]);
      var rest := premises[1..];
      assert forall i :: 1 <= i < |premises| ==> premises[i] == rest[i - 1];
      if premises[0].depth > MaxDepth(rest) {
        assert premises[0].depth == MaxDepth(premises);
      } else {
        var i :| 0 <= i < |rest| && rest[i].depth == MaxDepth(rest);
        assert premises[i + 1].depth == MaxDepth(premises);
      }
    } else {
      assert premises[0].depth == MaxDepth(premises);
    }
  }

  function RootIds(premises: seq<Derivation>): seq<string> {
    seq(|premises|, i requires 0 <= i < |premises| => premises[i].rootId)
  }

  /** The node maps of the premises, merged left to right. */
  function MergedNodes(premises: seq<Derivation>): map<string, ProofNode> {
    if premises == [] then map[]
    else MergedNodes(premises[..|premises| - 1]) + premises[|premises| - 1].nodes
  }

  function ApplicationOf(sha: Digest, literal: CanonicalLiteral, rule: Rule, s: Subst,
                         premises: seq<Derivation>, sourceText: string): ProofNode
    requires premises != []
  {
    WithId(sha, RuleApplicationNode("", rule.id, rule.sourceId, sourceText, SortedItems(s), RootIds(premises),
                                    literal, 1 + MaxDepth(premises)))
  }

  function ConclusionOf(sha: Digest, literal: CanonicalLiteral, application: ProofNode): ProofNode {
    WithId(sha, DerivedLiteralNode("", literal, application.nodeId, application.depth))
  }

  /** Lower depth first, then fewer nodes, then rule id, bindings, premise ids and the tie-break. */
  function ChoiceKey(depth: nat, nodeCount: nat, ruleId: string, items: seq<Binding>, premiseIds: seq<string>,
                     tie: string): Key
  {
    Pair(Num(depth), Pair(Num(nodeCount), Pair(Str(ruleId), Pair(BindingsKey(items),
         Pair(StrTuple(premiseIds), Str(tie))))))
  }

  /** The derivation of `literal` by `rule` under `s` from the given premise derivations. */
  function RuleDerivation(sha: Digest, literal: CanonicalLiteral, rule: Rule, s: Subst,
                          premises: seq<Derivation>, sourceText: string): Derivation
    requires premises != []
  {
    var application := ApplicationOf(sha, literal, rule, s, premises, sourceText);
    var derived := ConclusionOf(sha, literal, application);
    var nodes := MergedNodes(premises)[application.nodeId := application][derived.nodeId := derived];
    var tie := sha(TiePayload(rule.id, SortedItems(s), RootIds(premises), literal));
    Derivation(literal, application.depth, derived.nodeId, nodes,
               ChoiceKey(application.depth, |nodes|, rule.id, SortedItems(s), RootIds(premises), tie))
  }

  /** The loop of `make_rule_derivation` over its premises. */
  method MergePremises(premises: seq<Derivation>) returns (premiseIds: seq<string>, nodes: map<string, ProofNode>)
    ensures premiseIds == RootIds(premises) && nodes == MergedNodes(premises)
  {
    premiseIds, nodes := [], map[];
    for i := 0 to |premises|
      invariant premiseIds == RootIds(premises[..i])
      invariant nodes == MergedNodes(premises[..i])
    {
      assert premises[..i + 1][..i] == premises[..i];
      premiseIds := premiseIds + [premises[i].rootId];
      nodes := nodes + premises[i].nodes;
    }
    assert premises[..|premises|] == premises;
  }

  /** `make_rule_derivation`. */
  method MakeRuleDerivation(sha: Digest, literal: CanonicalLiteral, rule: Rule, s: Subst, premises: seq<Derivation>,
                            sourceText: string)
    returns (d: Derivation)
    requires premises != []
    ensures d == RuleDerivation(sha, literal, rule, s, premises, sourceText)
  {
    var depth := 1 + MaxDepth(premises);
    var bindings := SortedItems(s);
    var premiseIds, nodes := MergePremises(premises);
    var application := WithId(sha, RuleApplicationNode("", rule.id, rule.sourceId, sourceText, bindings, premiseIds,
                                                       literal, depth));
    assert application == ApplicationOf(sha, literal, rule, s, premises, sourceText);
    var derived := WithId(sha, DerivedLiteralNode("", literal, application.nodeId, depth));
    assert derived == ConclusionOf(sha, literal, application);
    nodes := nodes[application.nodeId := application];
    nodes := nodes[derived.nodeId := derived];
    var stableTie := sha(TiePayload(rule.id, bindings, premiseIds, literal));
    var choiceKey := ChoiceKey(depth, |nodes|, rule.id, bindings, premiseIds, stableTie);
    d := Derivation(literal, depth, derived.nodeId, nodes, choiceKey);
  }

  // ---- The proof DAG ----

  datatype Limits = Limits(maxDerivedLiterals: nat, maxRuleFirings: nat, maxRounds: nat, maxProofNodes: nat)

  datatype LimitName = MaxDerivedLiterals | MaxRuleFirings | MaxRounds | MaxProofNodes

  /** `ResourceLimitError`. */
  datatype LimitError = LimitError(name: LimitName, limit: nat, observed: nat)

  function NodesOf(d: Option<Derivation>): map<string, ProofNode> {
    if d.Some? then d.value.nodes else map[]
  }

  function RootOf(d: Option<Derivation>): Option<string> {
    if d.Some? then Some(d.value.rootId) else None
  }

  function OrderedNodes(nodes: map<string, ProofNode>): seq<ProofNode> {
    var ids := SortedStrings(nodes.Keys);
    seq(|ids|, i requires 0 <= i < |ids| => assert ids[i] in ids; nodes[ids[i]])
  }

  /** The proof of a status from the derivations of the query and of its opposite. */
  function ProofOf(sha: Digest, theory: Theory, query: CanonicalLiteral, status: Status,
                   support: Option<Derivation>, opposition: Option<Derivation>): ProofDAG
  {
    var nodes := OrderedNodes(NodesOf(support) + NodesOf(opposition));
    var hash := TheoryHash(sha, theory);
    ProofDAG("1.0", hash, query, status, RootOf(support), RootOf(opposition), nodes,
             sha(ProofPayload("1.0", hash, query, status, RootOf(support), RootOf(opposition), nodes)))
  }

  /** The merging steps of `build_proof`. */
  method MergeSides(support: Option<Derivation>, opposition: Option<Derivation>) returns (nodes: map<string, ProofNode>)
    ensures nodes == NodesOf(support) + NodesOf(opposition)
  {
    nodes := map[];
    if support.Some? {
      nodes := nodes + support.value.nodes;
    }
    if opposition.Some? {
      nodes := nodes + opposition.value.nodes;
    }
  }

  /** `build_proof`: fails exactly when the merged proof has too many nodes. */
  method BuildProof(sha: Digest, theory: Theory, query: CanonicalLiteral, status: Status,
                    support: Option<Derivation>, opposition: Option<Derivation>, limits: Limits)
    returns (r: Result<ProofDAG, LimitError>)
    ensures r.Ok? <==> |NodesOf(support) + NodesOf(opposition)| <= limits.maxProofNodes
    ensures r.Ok? ==> r.value == ProofOf(sha, theory, query, status, support, opposition)
    ensures r.Err? ==>
          r.error == LimitError(MaxProofNodes, limits.maxProofNodes, |NodesOf(support) + NodesOf(opposition)|)
  {
    var nodes := MergeSides(support, opposition);
    if |nodes| > limits.maxProofNodes {
      return Err(LimitError(MaxProofNodes, limits.maxProofNodes, |nodes|));
    }
    var orderedNodes := OrderedNodes(nodes);
    var theoryHash := TheoryHash(sha, theory);
    var payload := ProofPayload("1.0", theoryHash, query, status, RootOf(support), RootOf(opposition), orderedNodes);
    return Ok(ProofDAG("1.0", theoryHash, query, status, RootOf(support), RootOf(opposition), orderedNodes,
      sha(payload)));
  }
}
