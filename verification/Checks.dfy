/** What the proof verifier checks, stated declaratively: one condition per rejection code
    (backend/src/verilogic_ns_api/reasoning/verifier.py). */
module Checks {
  import opened Keys
  import opened Logic
  import opened Semantics
  import opened Unification
  import opened Proofs
  import opened Graphs

  datatype Code =
    | TheoryIdCode | QueryCode | ConflictFlagCode | ConflictCountCode
    | SchemaVersionCode | TheoryHashCode | StatusCode | ProofHashCode
    | DuplicateNodeCode | NodeHashCode | NodeOrderCode
    | SupportRootCode | OppositionRootCode | UnknownProofCode
    | SourceFactCode | SourceTextCode | DepthCode | RuleCode | SubstitutionOrderCode | SubstitutionCode
    | PremiseCountCode | PremiseCode | ConclusionCode | ApplicationCode
    | CycleCode | DanglingCode | UnreachableNodeCode | IncorrectStatusCode

  type NodeMap = map<string, ProofNode>

  predicate IsLiteralNode(n: ProofNode) {
    n.SourceFactNode? || n.DerivedLiteralNode?
  }

  function SourceText(theory: Theory, id: string): Option<string> {
    var sources := Lookup(theory.sources, SOURCE_ID);
    if id in sources then Some(sources[id].text) else None
  }

  function RulesById(theory: Theory): map<string, Rule> {
    Lookup(theory.rules, RULE_ID)
  }

  ghost predicate Grounds(p: RuleLiteral, s: Subst, l: CanonicalLiteral) {
    Vars(p) <= s.Keys && Ground(p, s) == l
  }

  /** The named premise is a literal node for the grounded body literal. */
  ghost predicate PremiseOk(nodes: NodeMap, id: string, p: RuleLiteral, s: Subst) {
    id in nodes && IsLiteralNode(nodes[id]) && Grounds(p, s, nodes[id].literal)
  }

  /** One more than the largest premise depth. */
  ghost predicate DepthOk(nodes: NodeMap, ids: seq<string>, depth: nat) {
    && (forall id :: id in ids && id in nodes ==> nodes[id].depth < depth)
    && (exists id :: id in ids && id in nodes && nodes[id].depth + 1 == depth)
  }

  ghost predicate IsApplication(nodes: NodeMap, id: string) {
    id in nodes && nodes[id].RuleApplicationNode?
  }

  ghost predicate SourceFactPasses(theory: Theory, n: ProofNode, code: Code)
    requires n.SourceFactNode?
  {
    match code
    case SourceFactCode => exists f :: f in theory.facts && f.sourceId == n.sourceId && Canonical(f) == n.literal
    case SourceTextCode => SourceText(theory, n.sourceId) == Some(n.sourceText)
    case DepthCode => n.depth == 0
    case _ => true
  }

  /** The bindings name each variable of the rule once, with declared entities. */
  ghost predicate SubstitutionOk(theory: Theory, rule: Rule, items: seq<Binding>) {
    && DistinctVariables(items)
    && (forall b :: b in items ==> b.entity in EntityIds(theory))
    && DictOf(items).Keys == UsedVars(rule)
  }

  /** The premises are literal nodes for the grounded body, in the order of the sorted body. */
  ghost predicate PremisesOk(nodes: NodeMap, rule: Rule, ids: seq<string>, items: seq<Binding>) {
    var body := SortedBody(rule.body);
    forall i :: 0 <= i < |body| && i < |ids| ==> PremiseOk(nodes, ids[i], body[i], DictOf(items))
  }

  /** What each code demands of an application of `rule`. */
  ghost predicate InstancePasses(theory: Theory, nodes: NodeMap, rule: Rule, n: ProofNode, code: Code)
    requires n.RuleApplicationNode?
  {
    match code
    case SubstitutionOrderCode => SortBy(n.substitution, BindingKey) == n.substitution
    case SubstitutionCode => SubstitutionOk(theory, rule, n.substitution)
    case PremiseCountCode => |n.premiseIds| == |rule.body|
    case PremiseCode => PremisesOk(nodes, rule, n.premiseIds, n.substitution)
    case ConclusionCode => Grounds(rule.head, DictOf(n.substitution), n.conclusion)
    case DepthCode => DepthOk(nodes, n.premiseIds, n.depth)
    case _ => true
  }

  ghost predicate ApplicationPasses(theory: Theory, nodes: NodeMap, n: ProofNode, code: Code)
    requires n.RuleApplicationNode?
  {
    var rules := RulesById(theory);
    match code
    case RuleCode => n.ruleId in rules && rules[n.ruleId].sourceId == n.sourceId
    case SourceTextCode => SourceText(theory, n.sourceId) == Some(n.sourceText)
    case _ => n.ruleId in rules ==> InstancePasses(theory, nodes, rules[n.ruleId], n, code)
  }

  ghost predicate DerivedPasses(nodes: NodeMap, n: ProofNode, code: Code)
    requires n.DerivedLiteralNode?
  {
    match code
    case ApplicationCode => IsApplication(nodes, n.applicationId)
    case ConclusionCode => IsApplication(nodes, n.applicationId) ==> nodes[n.applicationId].conclusion == n.literal
    case DepthCode => IsApplication(nodes, n.applicationId) ==> nodes[n.applicationId].depth == n.depth
    case _ => true
  }

  ghost predicate NodePasses(theory: Theory, nodes: NodeMap, n: ProofNode, code: Code) {
    match n
    case SourceFactNode(_, _, _, _, _) => SourceFactPasses(theory, n, code)
    case RuleApplicationNode(_, _, _, _, _, _, _, _) => ApplicationPasses(theory, nodes, n, code)
    case DerivedLiteralNode(_, _, _, _) => DerivedPasses(nodes, n, code)
  }

  ghost predicate NodeOk(theory: Theory, nodes: NodeMap, n: ProofNode) {
    forall code :: NodePasses(theory, nodes, n, code)
  }

  ghost predicate NodesOk(theory: Theory, nodes: NodeMap) {
    forall id :: id in nodes ==> NodeOk(theory, nodes, nodes[id])
  }

  function Children(n: ProofNode): seq<string> {
    match n
    case SourceFactNode(_, _, _, _, _) => []
    case RuleApplicationNode(_, _, _, _, _, ids, _, _) => ids
    case DerivedLiteralNode(_, _, id, _) => [id]
  }

  function GraphOf(nodes: NodeMap): Graph {
    map id | id in nodes :: Children(nodes[id])
  }

  const NODE_ID := (n: ProofNode) => n.nodeId

  function NodeMapOf(nodes: seq<ProofNode>): NodeMap {
    Lookup(nodes, NODE_ID)
  }

  function IdsOf(nodes: seq<ProofNode>): seq<string> {
    seq(|nodes|, i requires 0 <= i < |nodes| => nodes[i].nodeId)
  }

  predicate NeedsSupport(s: Status) {
    s.Entailed? || s.Inconsistent?
  }

  predicate NeedsOpposition(s: Status) {
    s.Contradicted? || s.Inconsistent?
  }

  ghost predicate RootOk(nodes: NodeMap, root: Option<string>, needed: bool, l: CanonicalLiteral) {
    && (root.Some? <==> needed)
    && (root.Some? ==> root.value in nodes && IsLiteralNode(nodes[root.value]) && nodes[root.value].literal == l)
  }

  function RootsOf(proof: ProofDAG): seq<string> {
    (if proof.supportRootId.Some? then [proof.supportRootId.value] else [])
    + (if proof.oppositionRootId.Some? then [proof.oppositionRootId.value] else [])
  }

  /** `_classify`. */
  predicate StatusIs(status: Status, support: bool, opposition: bool) {
    match status
    case Entailed => support && !opposition
    case Contradicted => !support && opposition
    case Unknown => !support && !opposition
    case Inconsistent => support && opposition
  }

  /** The status is the true one for the query in the least model. */
  ghost predicate TrueStatus(theory: Theory, status: Status)
    requires ValidTheory(theory)
  {
    var q := Canonical(theory.query);
    StatusIs(status, q in ModelOf(theory), q.Opposite() in ModelOf(theory))
  }

  /** What each code of `verify_proof` demands of a proof for `theory`. */
  ghost predicate ProofPasses(sha: Digest, theory: Theory, proof: ProofDAG, expected: Option<Status>, code: Code)
    requires ValidTheory(theory)
  {
    var nodes := NodeMapOf(proof.nodes);
    var query := Canonical(theory.query);
    match code
    case SchemaVersionCode => proof.schemaVersion == "1.0"
    case TheoryHashCode => proof.theoryHash == TheoryHash(sha, theory)
    case QueryCode => proof.query == query
    case StatusCode => expected.Some? ==> proof.status == expected.value
    case ProofHashCode => RecomputeProofHash(sha, proof) == proof.proofHash
    case DuplicateNodeCode => DistinctIds(proof.nodes, NODE_ID)
    case NodeHashCode => forall n :: n in proof.nodes ==> RecomputeNodeId(sha, n) == n.nodeId
    case NodeOrderCode => SortBy(IdsOf(proof.nodes), STRING_KEY) == IdsOf(proof.nodes)
    case SupportRootCode => RootOk(nodes, proof.supportRootId, NeedsSupport(proof.status), query)
    case OppositionRootCode => RootOk(nodes, proof.oppositionRootId, NeedsOpposition(proof.status), query.Opposite())
    case UnknownProofCode => proof.status.Unknown? ==> proof.nodes == []
    case CycleCode => Acyclic(GraphOf(nodes))
    case DanglingCode =>
      NoDangling(GraphOf(nodes)) && forall n :: ReachableFrom(GraphOf(nodes), RootsOf(proof), n) ==> n in nodes
    case UnreachableNodeCode => forall id :: id in nodes ==> ReachableFrom(GraphOf(nodes), RootsOf(proof), id)
    case IncorrectStatusCode => TrueStatus(theory, proof.status)
    case _ => forall id :: id in nodes ==> NodePasses(theory, nodes, nodes[id], code)
  }

  ghost predicate ProofAcceptable(sha: Digest, theory: Theory, proof: ProofDAG, expected: Option<Status>)
    requires ValidTheory(theory)
  {
    forall code :: ProofPasses(sha, theory, proof, expected, code)
  }

  /** The set against which `verify_proof` classifies the query: the closure it is given, or the least model. */
  ghost function Judged(theory: Theory, closure: Option<set<CanonicalLiteral>>): set<CanonicalLiteral>
    requires ValidTheory(theory)
  {
    if closure.Some? then closure.value else ModelOf(theory)
  }

  /** The same demands, with the status judged by a given set of literals. */
  ghost predicate JudgedPasses(sha: Digest, theory: Theory, proof: ProofDAG, expected: Option<Status>,
                               judged: set<CanonicalLiteral>, code: Code)
    requires ValidTheory(theory)
  {
    if code == IncorrectStatusCode
    then StatusIs(proof.status, Canonical(theory.query) in judged, Canonical(theory.query).Opposite() in judged)
    else ProofPasses(sha, theory, proof, expected, code)
  }

  lemma JudgedByModel(sha: Digest, theory: Theory, proof: ProofDAG, expected: Option<Status>, code: Code)
    requires ValidTheory(theory)
    ensures JudgedPasses(sha, theory, proof, expected, ModelOf(theory), code) <==>
              ProofPasses(sha, theory, proof, expected, code)
  {
    hide ValidTheory, NodePasses, GraphOf, NodeMapOf, RootsOf, ReachableFrom, RootOk;
  }

  /** `ReasoningResult`. */
  datatype ReasoningResult = ReasoningResult(theoryId: string, status: Status, query: CanonicalLiteral,
                                             closureContainsConflicts: bool, conflictCount: nat, proof: ProofDAG)

  /** What each code of `verify_result` demands. */
  ghost predicate ResultPasses(sha: Digest, theory: Theory, result: ReasoningResult, code: Code)
    requires ValidTheory(theory)
  {
    && ProofPasses(sha, theory, result.proof, Some(result.status), code)
    && match code
       case TheoryIdCode => result.theoryId == theory.theoryId
       case QueryCode => result.query == Canonical(theory.query)
       case ConflictFlagCode => result.closureContainsConflicts == (Conflicts(ModelOf(theory)) != {})
       case ConflictCountCode => result.conflictCount == |Conflicts(ModelOf(theory))|
       case _ => true
  }

  ghost predicate ResultAcceptable(sha: Digest, theory: Theory, result: ReasoningResult)
    requires ValidTheory(theory)
  {
    forall code :: ResultPasses(sha, theory, result, code)
  }

  // ---- Limits ----

  /** Instances matched over a pass of every stage from `0` to `k`: what the naive closure counts. */
  ghost function NaiveFirings(theory: Theory, k: nat): nat {
    |Instances(theory.rules, Stage(theory, k))| + if k == 0 then 0 else NaiveFirings(theory, k - 1)
  }
}
