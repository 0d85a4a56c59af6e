/** What an accepted proof says about its theory, in plain terms and under any digest: which sentences it quotes,
    what each node states and rests on, and how the whole is ordered and rooted
    (backend/src/verilogic_ns_api/reasoning/verifier.py). */
module AcceptedProofs {
  import opened Keys
  import opened Logic
  import opened Semantics
  import opened Unification
  import opened Proofs
  import opened Graphs
  import opened Checks
  import opened Orders

  // ---- What a node quotes ----

  /** The node quotes a sentence of the theory word for word. */
  ghost predicate Quotes(theory: Theory, sourceId: string, text: string) {
    SourceStatement(sourceId, text) in theory.sources
  }

  lemma SourceTextQuotes(theory: Theory, id: string, text: string)
    requires SourceText(theory, id) == Some(text)
    ensures Quotes(theory, id, text)
  {
    LookupKeys(theory.sources, SOURCE_ID);
    var s := Lookup(theory.sources, SOURCE_ID)[id];
    assert s == SourceStatement(id, text);
  }

  /** A source node of an accepted proof states a fact of the theory and quotes the sentence it comes from. */
  lemma SourceNodeQuotes(sha: Digest, theory: Theory, proof: ProofDAG, expected: Option<Status>, n: ProofNode)
    requires ValidTheory(theory) && ProofAcceptable(sha, theory, proof, expected)
    requires n in proof.nodes && n.SourceFactNode?
    ensures exists f :: f in theory.facts && f.sourceId == n.sourceId && f.pred == n.literal.pred
                        && f.arguments == n.literal.arguments && f.negated == n.literal.negated
    ensures Quotes(theory, n.sourceId, n.sourceText) && n.depth == 0
  {
    hide ValidTheory, Quotes, SourceText;
    var nodes := NodeMapOf(proof.nodes);
    AcceptedNode(sha, theory, proof, expected, n, SourceFactCode);
    AcceptedNode(sha, theory, proof, expected, n, SourceTextCode);
    AcceptedNode(sha, theory, proof, expected, n, DepthCode);
    SourceTextQuotes(theory, n.sourceId, n.sourceText);
  }

  predicate NodeCode(code: Code) {
    code in {SourceFactCode, SourceTextCode, DepthCode, RuleCode, PremiseCode, PremiseCountCode, SubstitutionOrderCode,
             SubstitutionCode, ConclusionCode, ApplicationCode}
  }

  lemma AcceptedNode(sha: Digest, theory: Theory, proof: ProofDAG, expected: Option<Status>, n: ProofNode, code: Code)
    requires ValidTheory(theory) && ProofAcceptable(sha, theory, proof, expected) && n in proof.nodes && NodeCode(code)
    ensures NodePasses(theory, NodeMapOf(proof.nodes), n, code)
  {
    hide ValidTheory, NodePasses, ProofPasses;
    AcceptedIds(sha, theory, proof, expected);
    LookupDistinct(proof.nodes, NODE_ID);
    AllPass(sha, theory, proof, expected, code);
    assert NODE_ID(n) in NodeMapOf(proof.nodes);
  }

  lemma AcceptedIds(sha: Digest, theory: Theory, proof: ProofDAG, expected: Option<Status>)
    requires ValidTheory(theory) && ProofAcceptable(sha, theory, proof, expected)
    ensures DistinctIds(proof.nodes, NODE_ID)
  {
    hide ValidTheory;
    assert ProofPasses(sha, theory, proof, expected, DuplicateNodeCode);
  }

  lemma AllPass(sha: Digest, theory: Theory, proof: ProofDAG, expected: Option<Status>, code: Code)
    requires ValidTheory(theory) && NodeCode(code) && ProofPasses(sha, theory, proof, expected, code)
    ensures var nodes := NodeMapOf(proof.nodes); forall id :: id in nodes ==> NodePasses(theory, nodes, nodes[id], code)
  {
    hide ValidTheory, NodePasses;
  }

  /** A rule application of an accepted proof names a rule of the theory by its id and source, and quotes the
      sentence; its premises state the grounded body, in the order of predicate, sign, arguments and source. */
  lemma ApplicationQuotes(sha: Digest, theory: Theory, proof: ProofDAG, expected: Option<Status>, n: ProofNode)
    returns (rule: Rule, order: seq<RuleLiteral>)
    requires ValidTheory(theory) && ProofAcceptable(sha, theory, proof, expected)
    requires n in proof.nodes && n.RuleApplicationNode?
    ensures rule in theory.rules && rule.id == n.ruleId && rule.sourceId == n.sourceId
    ensures Quotes(theory, n.sourceId, n.sourceText)
    ensures multiset(order) == multiset(rule.body) && |order| == |n.premiseIds|
    ensures forall i, j :: 0 <= i < j < |order| ==> order[i] == order[j] || RuleLiteralBefore(order[i], order[j])
    ensures forall i :: 0 <= i < |order| ==> StatesPremise(proof.nodes, n.premiseIds[i], order[i], n.substitution)
  {
    hide ValidTheory, Quotes, RuleLiteralBefore, PremisesOk, ProofAcceptable, StatesPremise, InstancePasses, NodePasses;
    AcceptedNode(sha, theory, proof, expected, n, RuleCode);
    AcceptedNode(sha, theory, proof, expected, n, SourceTextCode);
    AcceptedNode(sha, theory, proof, expected, n, PremiseCountCode);
    AcceptedNode(sha, theory, proof, expected, n, PremiseCode);
    rule := NamedRule(theory, NodeMapOf(proof.nodes), n);
    PremisesPass(theory, NodeMapOf(proof.nodes), n, rule);
    order := SortedBody(rule.body);
    BodyInOrder(rule.body);
    SameElements(order, rule.body);
    PremisesNamed(proof.nodes, rule, n.premiseIds, n.substitution);
  }

  /** A node of the proof with this id states the body literal under the bindings. */
  ghost predicate StatesPremise(all: seq<ProofNode>, id: string, b: RuleLiteral, items: seq<Binding>) {
    exists p :: p in all && p.nodeId == id && IsLiteralNode(p) && Grounds(b, DictOf(items), p.literal)
  }

  lemma NamedRule(theory: Theory, nodes: NodeMap, n: ProofNode) returns (rule: Rule)
    requires n.RuleApplicationNode?
    requires NodePasses(theory, nodes, n, RuleCode) && NodePasses(theory, nodes, n, SourceTextCode)
    ensures n.ruleId in RulesById(theory) && rule == RulesById(theory)[n.ruleId]
    ensures rule in theory.rules && rule.id == n.ruleId && rule.sourceId == n.sourceId
    ensures Quotes(theory, n.sourceId, n.sourceText)
  {
    hide SourceText, Quotes;
    LookupKeys(theory.rules, RULE_ID);
    rule := RulesById(theory)[n.ruleId];
    assert RULE_ID(rule) == n.ruleId;
    SourceTextQuotes(theory, n.sourceId, n.sourceText);
  }

  lemma PremisesPass(theory: Theory, nodes: NodeMap, n: ProofNode, rule: Rule)
    requires n.RuleApplicationNode? && n.ruleId in RulesById(theory) && rule == RulesById(theory)[n.ruleId]
    requires NodePasses(theory, nodes, n, PremiseCountCode) && NodePasses(theory, nodes, n, PremiseCode)
    ensures |n.premiseIds| == |rule.body| && PremisesOk(nodes, rule, n.premiseIds, n.substitution)
  {
    hide PremisesOk, RulesById;
  }

  lemma PremisesNamed(all: seq<ProofNode>, rule: Rule, ids: seq<string>, items: seq<Binding>)
    requires PremisesOk(NodeMapOf(all), rule, ids, items) && |SortedBody(rule.body)| == |ids|
    ensures forall i :: 0 <= i < |ids| ==> StatesPremise(all, ids[i], SortedBody(rule.body)[i], items)
  {
    hide Grounds, SortedBody, DictOf, NodeMapOf;
    var nodes := NodeMapOf(all);
    forall i | 0 <= i < |ids| ensures StatesPremise(all, ids[i], SortedBody(rule.body)[i], items) {
      NodeNamed(all, ids[i]);
      assert PremiseOk(nodes, ids[i], SortedBody(rule.body)[i], DictOf(items));
    }
  }

  lemma NodeNamed(all: seq<ProofNode>, id: string)
    ensures id in NodeMapOf(all) ==> NodeMapOf(all)[id] in all && NodeMapOf(all)[id].nodeId == id
  {
    LookupKeys(all, NODE_ID);
    assert id in NodeMapOf(all) ==> NODE_ID(NodeMapOf(all)[id]) == id;
  }

  // ---- What an application binds and concludes ----

  /** The variable occurs in the rule. */
  ghost predicate OccursIn(rule: Rule, v: string) {
    exists l :: (l in rule.body || l == rule.head) && VariableTerm(v) in l.arguments
  }

  lemma OccursIsUsed(rule: Rule, v: string)
    ensures OccursIn(rule, v) <==> v in UsedVars(rule)
  {
    if l :| (l in rule.body || l == rule.head) && VariableTerm(v) in l.arguments {
      var i :| 0 <= i < |l.arguments| && l.arguments[i] == VariableTerm(v);
      assert l.arguments[i].name == v;
      assert v in Vars(l);
    }
    if v in UsedVars(rule) {
      var l: RuleLiteral :| (l in rule.body || l == rule.head) && v in Vars(l);
      var i :| 0 <= i < |l.arguments| && l.arguments[i].VariableTerm? && l.arguments[i].name == v;
      assert l.arguments[i] == VariableTerm(v);
    }
  }

  /** The bindings of an application name the variables of its rule and no others, in order and each once, and bind
      them to declared entities. */
  lemma ApplicationBinds(sha: Digest, theory: Theory, proof: ProofDAG, expected: Option<Status>, n: ProofNode,
                         rule: Rule)
    requires ValidTheory(theory) && ProofAcceptable(sha, theory, proof, expected)
    requires n in proof.nodes && n.RuleApplicationNode? && rule in theory.rules && rule.id == n.ruleId
    ensures forall i, j :: 0 <= i < j < |n.substitution| ==>
              Before(n.substitution[i].variable, n.substitution[j].variable)
    ensures forall b :: b in n.substitution ==> exists e :: e in theory.entities && e.id == b.entity
    ensures forall v :: OccursIn(rule, v) <==> exists b :: b in n.substitution && b.variable == v
  {
    hide ValidTheory, Before, OccursIn, ProofAcceptable, UsedVars, DictOf, Leq, NodePasses, NodeMapOf;
    AcceptedNode(sha, theory, proof, expected, n, SubstitutionOrderCode);
    AcceptedNode(sha, theory, proof, expected, n, SubstitutionCode);
    RuleOfId(theory, rule);
    SubstitutionPasses(theory, NodeMapOf(proof.nodes), n, rule);
    DictOfExact(n.substitution);
    BindingsInOrder(n.substitution);
    forall v ensures OccursIn(rule, v) <==> exists b :: b in n.substitution && b.variable == v {
      OccursIsUsed(rule, v);
      if v in DictOf(n.substitution) {
        assert Binding(v, DictOf(n.substitution)[v]) in n.substitution;
      }
    }
  }

  lemma SubstitutionPasses(theory: Theory, nodes: NodeMap, n: ProofNode, rule: Rule)
    requires n.RuleApplicationNode? && n.ruleId in RulesById(theory) && rule == RulesById(theory)[n.ruleId]
    requires NodePasses(theory, nodes, n, SubstitutionOrderCode) && NodePasses(theory, nodes, n, SubstitutionCode)
    ensures SortBy(n.substitution, BindingKey) == n.substitution && SubstitutionOk(theory, rule, n.substitution)
  {
    hide SubstitutionOk, RulesById, SortBy;
  }

  lemma ConclusionPasses(theory: Theory, nodes: NodeMap, n: ProofNode, rule: Rule)
    requires n.RuleApplicationNode? && n.ruleId in RulesById(theory) && rule == RulesById(theory)[n.ruleId]
    requires NodePasses(theory, nodes, n, ConclusionCode) && NodePasses(theory, nodes, n, DepthCode)
    requires NodePasses(theory, nodes, n, SubstitutionCode)
    ensures Grounds(rule.head, DictOf(n.substitution), n.conclusion) && DepthOk(nodes, n.premiseIds, n.depth)
    ensures DistinctVariables(n.substitution)
  {
    hide RulesById, Grounds, DepthOk, DictOf, UsedVars;
  }

  lemma RuleOfId(theory: Theory, rule: Rule)
    requires ValidTheory(theory) && rule in theory.rules
    ensures rule.id in RulesById(theory) && RulesById(theory)[rule.id] == rule
  {
    LookupDistinct(theory.rules, RULE_ID);
    assert RULE_ID(rule) == rule.id;
  }

  lemma BindingsInOrder(items: seq<Binding>)
    requires SortBy(items, BindingKey) == items && DistinctVariables(items)
    ensures forall i, j :: 0 <= i < j < |items| ==> Before(items[i].variable, items[j].variable)
  {
    hide Leq, Before;
    SortBySorted(items, BindingKey);
    forall i, j | 0 <= i < j < |items| ensures Before(items[i].variable, items[j].variable) {
      assert Leq(BindingKey(items[i]), BindingKey(items[j]));
      PairOrder(Str(items[i].variable), Str(items[i].entity), Str(items[j].variable), Str(items[j].entity));
      StringOrder(items[i].variable, items[j].variable);
    }
  }

  /** The literal says what the pattern says with its variables replaced as bound. */
  ghost predicate Instantiates(p: RuleLiteral, items: seq<Binding>, l: CanonicalLiteral) {
    && l.pred == p.pred && l.negated == p.negated && |l.arguments| == |p.arguments|
    && forall i :: 0 <= i < |p.arguments| ==>
         match p.arguments[i]
         case EntityTerm(id) => l.arguments[i] == id
         case VariableTerm(v) => Binding(v, l.arguments[i]) in items
  }

  lemma GroundsInstantiates(p: RuleLiteral, items: seq<Binding>, l: CanonicalLiteral)
    requires DistinctVariables(items) && Grounds(p, DictOf(items), l)
    ensures Instantiates(p, items, l)
  {
    hide DictOf;
    DictOfExact(items);
    var s := DictOf(items);
    forall i | 0 <= i < |p.arguments| && p.arguments[i].VariableTerm?
      ensures Binding(p.arguments[i].name, l.arguments[i]) in items
    {
      assert p.arguments[i].name in Vars(p);
      assert l.arguments[i] == Ground(p, s).arguments[i] == s[p.arguments[i].name];
    }
  }

  /** The conclusion of an application is its rule's head under the bindings, one deeper than its deepest premise. */
  lemma ApplicationConcludes(sha: Digest, theory: Theory, proof: ProofDAG, expected: Option<Status>, n: ProofNode,
                             rule: Rule)
    requires ValidTheory(theory) && ProofAcceptable(sha, theory, proof, expected)
    requires n in proof.nodes && n.RuleApplicationNode? && rule in theory.rules && rule.id == n.ruleId
    ensures Instantiates(rule.head, n.substitution, n.conclusion)
    ensures forall p :: p in proof.nodes && p.nodeId in n.premiseIds ==> p.depth < n.depth
    ensures exists p :: p in proof.nodes && p.nodeId in n.premiseIds && p.depth + 1 == n.depth
  {
    hide ValidTheory, ProofAcceptable, Grounds, DictOf, NodeMapOf, NodePasses;
    AcceptedNode(sha, theory, proof, expected, n, ConclusionCode);
    AcceptedNode(sha, theory, proof, expected, n, SubstitutionCode);
    AcceptedNode(sha, theory, proof, expected, n, DepthCode);
    RuleOfId(theory, rule);
    var nodes := NodeMapOf(proof.nodes);
    ConclusionPasses(theory, nodes, n, rule);
    GroundsInstantiates(rule.head, n.substitution, n.conclusion);
    AcceptedIds(sha, theory, proof, expected);
    forall p | p in proof.nodes && p.nodeId in n.premiseIds ensures p.depth < n.depth {
      NodeOfId(proof.nodes, p);
    }
    var id :| id in n.premiseIds && id in nodes && nodes[id].depth + 1 == n.depth;
    NodeNamed(proof.nodes, id);
  }

  lemma NodeOfId(all: seq<ProofNode>, p: ProofNode)
    requires DistinctIds(all, NODE_ID) && p in all
    ensures p.nodeId in NodeMapOf(all) && NodeMapOf(all)[p.nodeId] == p
  {
    LookupDistinct(all, NODE_ID);
    assert NODE_ID(p) == p.nodeId;
  }

  /** A derived literal is the conclusion of an application of the proof, at its depth. */
  lemma DerivedNodeStates(sha: Digest, theory: Theory, proof: ProofDAG, expected: Option<Status>, n: ProofNode)
    requires ValidTheory(theory) && ProofAcceptable(sha, theory, proof, expected)
    requires n in proof.nodes && n.DerivedLiteralNode?
    ensures exists a :: a in proof.nodes && a.RuleApplicationNode? && a.nodeId == n.applicationId
                        && a.conclusion == n.literal && a.depth == n.depth
  {
    hide ValidTheory, ProofAcceptable, NodeMapOf;
    AcceptedNode(sha, theory, proof, expected, n, ApplicationCode);
    AcceptedNode(sha, theory, proof, expected, n, ConclusionCode);
    AcceptedNode(sha, theory, proof, expected, n, DepthCode);
    NodeNamed(proof.nodes, n.applicationId);
    assert NodeMapOf(proof.nodes)[n.applicationId] in proof.nodes;
  }

  // ---- The whole proof ----

  /** A node that a node of the proof rests on directly. */
  ghost predicate RestsOn(a: ProofNode, b: ProofNode) {
    (a.RuleApplicationNode? && b.nodeId in a.premiseIds) || (a.DerivedLiteralNode? && b.nodeId == a.applicationId)
  }

  /** A chain of nodes of the proof, each resting on the next. */
  ghost predicate Chain(proof: ProofDAG, p: seq<ProofNode>) {
    && p != [] && (forall i :: 0 <= i < |p| ==> p[i] in proof.nodes)
    && forall i :: 0 <= i < |p| - 1 ==> RestsOn(p[i], p[i + 1])
  }

  ghost predicate IsRoot(proof: ProofDAG, id: string) {
    proof.supportRootId == Some(id) || proof.oppositionRootId == Some(id)
  }

  /** Every node of an accepted proof is reached from a root. */
  lemma NodesAreReached(sha: Digest, theory: Theory, proof: ProofDAG, expected: Option<Status>, n: ProofNode)
    returns (chain: seq<ProofNode>)
    requires ValidTheory(theory) && ProofAcceptable(sha, theory, proof, expected) && n in proof.nodes
    ensures Chain(proof, chain) && IsRoot(proof, chain[0].nodeId) && chain[|chain| - 1] == n
  {
    hide ValidTheory, ProofAcceptable, NodeMapOf;
    AcceptedIds(sha, theory, proof, expected);
    NodeOfId(proof.nodes, n);
    AllReachable(sha, theory, proof, expected);
    var graph := GraphOf(NodeMapOf(proof.nodes));
    var r, p :| r in RootsOf(proof) && PathBetween(graph, p, r, n.nodeId);
    chain := PathNodes(proof, p);
    NodeOfId(proof.nodes, chain[|chain| - 1]);
  }

  lemma AllReachable(sha: Digest, theory: Theory, proof: ProofDAG, expected: Option<Status>)
    requires ValidTheory(theory) && ProofAcceptable(sha, theory, proof, expected)
    ensures var nodes := NodeMapOf(proof.nodes);
            forall id :: id in nodes ==> ReachableFrom(GraphOf(nodes), RootsOf(proof), id)
  {
    hide ValidTheory, ReachableFrom, NodeMapOf;
    assert ProofPasses(sha, theory, proof, expected, UnreachableNodeCode);
  }

  /** The nodes along a path of the proof's graph that ends at a node. */
  lemma PathNodes(proof: ProofDAG, p: seq<string>) returns (chain: seq<ProofNode>)
    requires IsPath(GraphOf(NodeMapOf(proof.nodes)), p) && p[|p| - 1] in NodeMapOf(proof.nodes)
    ensures |chain| == |p| && Chain(proof, chain)
    ensures forall i :: 0 <= i < |p| ==> chain[i].nodeId == p[i]
  {
    hide NodeMapOf;
    var nodes := NodeMapOf(proof.nodes);
    var graph := GraphOf(nodes);
    forall i | 0 <= i < |p| ensures p[i] in nodes {
      assert i < |p| - 1 ==> Edge(graph, p[i], p[i + 1]);
    }
    forall i | 0 <= i < |p| ensures nodes[p[i]] in proof.nodes && nodes[p[i]].nodeId == p[i] {
      NodeNamed(proof.nodes, p[i]);
    }
    chain := seq(|p|, i requires 0 <= i < |p| => nodes[p[i]]);
    forall i | 0 <= i < |chain| - 1 ensures RestsOn(chain[i], chain[i + 1]) {
      assert Edge(graph, p[i], p[i + 1]);
    }
  }

  /** The form of an accepted proof: its version, its query and status, its nodes in the order of their ids, and a
      root that states the query, or its opposite, exactly when the status claims that side. */
  lemma ProofForm(sha: Digest, theory: Theory, proof: ProofDAG, expected: Option<Status>)
    requires ValidTheory(theory) && ProofAcceptable(sha, theory, proof, expected)
    ensures proof.schemaVersion == "1.0" && (expected.Some? ==> proof.status == expected.value)
    ensures proof.query == CanonicalLiteral(theory.query.pred, theory.query.arguments, theory.query.negated)
    ensures forall i, j :: 0 <= i < j < |proof.nodes| ==> Before(proof.nodes[i].nodeId, proof.nodes[j].nodeId)
    ensures proof.status == Unknown ==> proof.nodes == []
    ensures StatedRoot(proof, proof.supportRootId, proof.status in {Entailed, Inconsistent},
                       theory.query.negated, theory)
    ensures StatedRoot(proof, proof.oppositionRootId, proof.status in {Contradicted, Inconsistent},
                       !theory.query.negated, theory)
  {
    hide ValidTheory, Before, NodePasses, NodeMapOf, ProofPasses;
    assert ProofPasses(sha, theory, proof, expected, SchemaVersionCode);
    FormCodes(sha, theory, proof, expected);
    AcceptedIds(sha, theory, proof, expected);
    IdsInOrder(proof.nodes);
    RootStated(proof, proof.supportRootId);
    RootStated(proof, proof.oppositionRootId);
  }

  lemma FormCodes(sha: Digest, theory: Theory, proof: ProofDAG, expected: Option<Status>)
    requires ValidTheory(theory) && ProofAcceptable(sha, theory, proof, expected)
    ensures proof.schemaVersion == "1.0" && (expected.Some? ==> proof.status == expected.value)
    ensures proof.query == Canonical(theory.query) && (proof.status == Unknown ==> proof.nodes == [])
    ensures SortBy(IdsOf(proof.nodes), STRING_KEY) == IdsOf(proof.nodes)
    ensures RootOk(NodeMapOf(proof.nodes), proof.supportRootId, NeedsSupport(proof.status), Canonical(theory.query))
    ensures RootOk(NodeMapOf(proof.nodes), proof.oppositionRootId, NeedsOpposition(proof.status),
                   Canonical(theory.query).Opposite())
  {
    hide ValidTheory, NodePasses, NodeMapOf, RootOk, SortBy, GraphOf;
    assert ProofPasses(sha, theory, proof, expected, SchemaVersionCode);
    assert ProofPasses(sha, theory, proof, expected, StatusCode);
    assert ProofPasses(sha, theory, proof, expected, QueryCode);
    assert ProofPasses(sha, theory, proof, expected, UnknownProofCode);
    assert ProofPasses(sha, theory, proof, expected, NodeOrderCode);
    assert ProofPasses(sha, theory, proof, expected, SupportRootCode);
    assert ProofPasses(sha, theory, proof, expected, OppositionRootCode);
  }

  /** The root is there exactly when claimed, and states the query's atom with this sign. */
  ghost predicate StatedRoot(proof: ProofDAG, root: Option<string>, claimed: bool, negated: bool, theory: Theory) {
    && (root.Some? <==> claimed)
    && (root.Some? ==> States(proof, root.value, CanonicalLiteral(theory.query.pred, theory.query.arguments, negated)))
  }

  ghost predicate States(proof: ProofDAG, id: string, l: CanonicalLiteral) {
    exists n :: n in proof.nodes && n.nodeId == id && IsLiteralNode(n) && n.literal == l
  }

  lemma RootStated(proof: ProofDAG, root: Option<string>)
    ensures root.Some? && root.value in NodeMapOf(proof.nodes) ==>
              NodeMapOf(proof.nodes)[root.value] in proof.nodes
              && NodeMapOf(proof.nodes)[root.value].nodeId == root.value
  {
    if root.Some? {
      NodeNamed(proof.nodes, root.value);
    }
  }

  lemma IdsInOrder(nodes: seq<ProofNode>)
    requires SortBy(IdsOf(nodes), STRING_KEY) == IdsOf(nodes) && DistinctIds(nodes, NODE_ID)
    ensures forall i, j :: 0 <= i < j < |nodes| ==> Before(nodes[i].nodeId, nodes[j].nodeId)
  {
    hide Leq, Before;
    SortBySorted(IdsOf(nodes), STRING_KEY);
    forall i, j | 0 <= i < j < |nodes| ensures Before(nodes[i].nodeId, nodes[j].nodeId) {
      assert Leq(STRING_KEY(IdsOf(nodes)[i]), STRING_KEY(IdsOf(nodes)[j]));
      assert NODE_ID(nodes[i]) != NODE_ID(nodes[j]);
      StringOrder(nodes[i].nodeId, nodes[j].nodeId);
    }
  }
}
