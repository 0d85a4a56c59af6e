/** Replaying a proof node by node (backend/src/verilogic_ns_api/reasoning/verifier.py, lines 105-216). */
module NodeChecks {
  import opened Keys
  import opened Logic
  import opened Semantics
  import opened Unification
  import opened Proofs
  import opened Graphs
  import opened Checks
  import opened NaiveSaturation

  /** A source-fact node: accepted exactly when it passes every condition, rejected for one it fails. */
  method ValidateSourceFact(theory: Theory, sources: map<string, SourceStatement>, n: ProofNode)
    returns (r: Result<(), Code>)
    requires n.SourceFactNode? && sources == Lookup(theory.sources, SOURCE_ID)
    ensures r.Ok? <==> forall code :: SourceFactPasses(theory, n, code)
    ensures r.Err? ==> !SourceFactPasses(theory, n, r.error)
  {
    var found := false;
    for i := 0 to |theory.facts|
      invariant found <==> exists f :: f in theory.facts[..i] && f.sourceId == n.sourceId && Canonical(f) == n.literal
    {
      var fact := theory.facts[i];
      assert theory.facts[..i + 1] == theory.facts[..i] + [fact];
      if fact.sourceId == n.sourceId && Canonical(fact) == n.literal {
        found := true;
        assert fact in theory.facts[..i + 1];
      }
    }
    assert theory.facts[..|theory.facts|] == theory.facts;
    if !found {
      assert !SourceFactPasses(theory, n, SourceFactCode);
      return Err(SourceFactCode);
    }
    if n.sourceId !in sources || sources[n.sourceId].text != n.sourceText {
      assert !SourceFactPasses(theory, n, SourceTextCode);
      return Err(SourceTextCode);
    }
    if n.depth != 0 {
      assert !SourceFactPasses(theory, n, DepthCode);
      return Err(DepthCode);
    }
    return Ok(());
  }

  /** `_used_variables`. */
  method UsedVariables(rule: Rule) returns (r: set<string>)
    ensures r == UsedVars(rule)
  {
    r := {};
    for i := 0 to |rule.body|
      invariant r == BodyVars(rule.body[..i])
    {
      assert rule.body[..i + 1] == rule.body[..i] + [rule.body[i]];
      BodyVarsAppend(rule.body[..i], rule.body[i]);
      var names := LiteralVariables(rule.body[i]);
      r := r + names;
    }
    assert rule.body[..|rule.body|] == rule.body;
    var names := LiteralVariables(rule.head);
    r := r + names;
  }

  /** The substitution checks of an application node. */
  method ValidateSubstitution(theory: Theory, entityIds: set<string>, rule: Rule, items: seq<Binding>)
    returns (r: Result<Subst, Code>)
    requires entityIds == EntityIds(theory)
    ensures r.Ok? <==> SortBy(items, BindingKey) == items && SubstitutionOk(theory, rule, items)
    ensures r.Ok? ==> r.value == DictOf(items)
    ensures r.Err? ==> r.error == SubstitutionOrderCode || r.error == SubstitutionCode
    ensures r.Err? && r.error == SubstitutionOrderCode ==> SortBy(items, BindingKey) != items
    ensures r.Err? && r.error == SubstitutionCode ==> !SubstitutionOk(theory, rule, items)
  {
    hide Leq;
    if SortBy(items, BindingKey) != items {
      return Err(SubstitutionOrderCode);
    }
    var substitution := DictOf(items);
    DictSize(items);
    if |substitution| != |items| {
      return Err(SubstitutionCode);
    }
    DictOfExact(items);
    if !(substitution.Values <= entityIds) {
      var e :| e in substitution.Values && e !in entityIds;
      var v :| v in substitution && substitution[v] == e;
      assert Binding(v, e) in items;
      return Err(SubstitutionCode);
    }
    forall b | b in items ensures b.entity in EntityIds(theory) {
      assert substitution[b.variable] in substitution.Values;
    }
    var required := UsedVariables(rule);
    if substitution.Keys != required {
      return Err(SubstitutionCode);
    }
    return Ok(substitution);
  }

  lemma {:induction false} DictKeys(items: seq<Binding>)
    ensures forall v :: v in DictOf(items) <==> exists i :: 0 <= i < |items| && items[i].variable == v
  {
    if items != [] {
      var front, last := items[..|items| - 1], items[|items| - 1];
      DictKeys(front);
      forall v | v in DictOf(items) ensures exists i :: 0 <= i < |items| && items[i].variable == v {
        if v in DictOf(front) {
          var i :| 0 <= i < |front| && front[i].variable == v;
          assert items[i].variable == v;
        } else {
          assert items[|items| - 1].variable == v;
        }
      }
      forall i | 0 <= i < |items| ensures items[i].variable in DictOf(items) {
        if i < |front| {
          assert front[i].variable in DictOf(front);
        }
      }
    }
  }

  /** A dictionary is smaller than its item list exactly when a variable repeats. */
  lemma {:induction false} DictSize(items: seq<Binding>)
    ensures |DictOf(items)| <= |items|
    ensures |DictOf(items)| == |items| <==> DistinctVariables(items)
  {
    if items != [] {
      var front, last := items[..|items| - 1], items[|items| - 1];
      DictSize(front);
      DictKeys(front);
      var d := DictOf(front);
      assert |DictOf(items)| == |d| + if last.variable in d then 0 else 1;
      if last.variable in d {
        var i :| 0 <= i < |front| && front[i].variable == last.variable;
        assert items[i].variable == items[|items| - 1].variable;
      } else if DistinctVariables(front) {
        forall i, j | 0 <= i < j < |items| ensures items[i].variable != items[j].variable {
          assert items[i] == front[i];
          if j < |front| {
            assert items[j] == front[j];
          }
        }
      } else {
        var i, j :| 0 <= i < j < |front| && front[i].variable == front[j].variable;
        assert items[i].variable == items[j].variable;
      }
    }
  }

  function MaxOf(depths: seq<nat>): nat
    requires depths != []
  {
    if |depths| == 1 then depths[0]
    else
      var d, rest := depths[0], MaxOf(depths[1..]);
      if d > rest then d else rest
  }

  lemma {:induction false} MaxOfBounds(depths: seq<nat>)
    requires depths != []
    ensures forall i :: 0 <= i < |depths| ==> depths[i] <= MaxOf(depths)
    ensures exists i :: 0 <= i < |depths| && depths[i] == MaxOf(depths)
  {
    if |depths| == 1 {
      assert depths[0] == MaxOf(depths);
    } else {
      var rest := depths[1..];
      MaxOfBounds(rest);
      forall i | 0 <= i < |depths| ensures depths[i] <= MaxOf(depths) {
        if i > 0 {
          assert depths[i] == rest[i - 1];
        }
      }
      if depths[0] > MaxOf(rest) {
        assert depths[0] == MaxOf(depths);
      } else {
        var i :| 0 <= i < |rest| && rest[i] == MaxOf(rest);
        assert depths[i + 1] == MaxOf(depths);
      }
    }
  }

  /** The premise loop of an application node. */
  method ValidatePremises(nodes: NodeMap, body: seq<RuleLiteral>, ids: seq<string>, s: Subst)
    returns (r: Result<seq<nat>, Code>)
    requires |body| == |ids| && BodyVars(body) <= s.Keys
    ensures r.Ok? <==> forall i :: 0 <= i < |body| ==> PremiseOk(nodes, ids[i], body[i], s)
    ensures r.Ok? ==> |r.value| == |ids| && forall i :: 0 <= i < |ids| ==>
        ids[i] in nodes && r.value[i] == nodes[ids[i]].depth
    ensures r.Err? ==> r.error == PremiseCode
  {
    var premiseDepths: seq<nat> := [];
    for i := 0 to |body|
      invariant |premiseDepths| == i
      invariant forall j :: 0 <= j < i ==>
          PremiseOk(nodes, ids[j], body[j], s) && premiseDepths[j] == nodes[ids[j]].depth
    {
      assert body[i] in body;
      if ids[i] !in nodes || !IsLiteralNode(nodes[ids[i]]) {
        assert !PremiseOk(nodes, ids[i], body[i], s);
        return Err(PremiseCode);
      }
      var expected := GroundIndependently(body[i], s);
      if nodes[ids[i]].literal != expected.value {
        assert !PremiseOk(nodes, ids[i], body[i], s);
        return Err(PremiseCode);
      }
      premiseDepths := premiseDepths + [nodes[ids[i]].depth];
    }
    return Ok(premiseDepths);
  }

  lemma DepthMatches(nodes: NodeMap, ids: seq<string>, depths: seq<nat>, depth: nat)
    requires ids != [] && |depths| == |ids|
    requires forall i :: 0 <= i < |ids| ==> ids[i] in nodes && depths[i] == nodes[ids[i]].depth
    ensures DepthOk(nodes, ids, depth) <==> depth == 1 + MaxOf(depths)
  {
    MaxOfBounds(depths);
    var m :| 0 <= m < |depths| && depths[m] == MaxOf(depths);
    assert ids[m] in ids;
    if DepthOk(nodes, ids, depth) {
      var id :| id in ids && id in nodes && nodes[id].depth + 1 == depth;
      var i :| 0 <= i < |ids| && ids[i] == id;
      assert nodes[ids[m]].depth < depth;
    }
    if depth == 1 + MaxOf(depths) {
      forall id | id in ids && id in nodes ensures nodes[id].depth < depth {
        var i :| 0 <= i < |ids| && ids[i] == id;
      }
      assert nodes[ids[m]].depth + 1 == depth;
    }
  }

  /** The checks of an application node once its rule is known. */
  method ValidateInstance(theory: Theory, entityIds: set<string>, nodes: NodeMap, rule: Rule, n: ProofNode)
    returns (r: Result<(), Code>)
    requires n.RuleApplicationNode? && entityIds == EntityIds(theory) && rule.body != []
    ensures r.Ok? <==> forall code :: InstancePasses(theory, nodes, rule, n, code)
    ensures r.Err? ==> !InstancePasses(theory, nodes, rule, n, r.error)
    ensures r.Err? ==> r.error != RuleCode && r.error != SourceTextCode
  {
    hide Leq, SortBy, DictOf, PremiseOk, DepthOk, Grounds, SubstitutionOk, PremisesOk, InstancePasses;
    var substitution := ValidateSubstitution(theory, entityIds, rule, n.substitution);
    if substitution.Err? {
      InstanceFails(theory, nodes, rule, n, substitution.error);
      return Err(substitution.error);
    }
    var orderedBody := SortedBody(rule.body);
    SortedBodySame(rule.body);
    if |n.premiseIds| != |orderedBody| {
      InstanceFails(theory, nodes, rule, n, PremiseCountCode);
      return Err(PremiseCountCode);
    }
    SubstitutionBinds(theory, rule, n.substitution);
    var premiseDepths := ValidatePremises(nodes, orderedBody, n.premiseIds, substitution.value);
    PremisesFound(nodes, rule, n.premiseIds, n.substitution, premiseDepths.Ok?);
    if premiseDepths.Err? {
      InstanceFails(theory, nodes, rule, n, PremiseCode);
      return Err(PremiseCode);
    }
    var expectedConclusion := GroundIndependently(rule.head, substitution.value);
    GroundsUnique(rule.head, substitution.value, expectedConclusion.value, n.conclusion);
    if n.conclusion != expectedConclusion.value {
      InstanceFails(theory, nodes, rule, n, ConclusionCode);
      return Err(ConclusionCode);
    }
    DepthMatches(nodes, n.premiseIds, premiseDepths.value, n.depth);
    var expectedDepth := 1 + MaxOf(premiseDepths.value);
    if n.depth != expectedDepth {
      InstanceFails(theory, nodes, rule, n, DepthCode);
      return Err(DepthCode);
    }
    InstanceHolds(theory, nodes, rule, n);
    return Ok(());
  }

  lemma InstanceFails(theory: Theory, nodes: NodeMap, rule: Rule, n: ProofNode, code: Code)
    requires n.RuleApplicationNode?
    requires match code
             case SubstitutionOrderCode => SortBy(n.substitution, BindingKey) != n.substitution
             case SubstitutionCode => !SubstitutionOk(theory, rule, n.substitution)
             case PremiseCountCode => |n.premiseIds| != |rule.body|
             case PremiseCode => !PremisesOk(nodes, rule, n.premiseIds, n.substitution)
             case ConclusionCode => !Grounds(rule.head, DictOf(n.substitution), n.conclusion)
             case DepthCode => !DepthOk(nodes, n.premiseIds, n.depth)
             case _ => false
    ensures !InstancePasses(theory, nodes, rule, n, code)
  {
    hide SortBy, SubstitutionOk, PremisesOk, Grounds, DepthOk, DictOf;
  }

  lemma InstanceHolds(theory: Theory, nodes: NodeMap, rule: Rule, n: ProofNode)
    requires n.RuleApplicationNode? && SortBy(n.substitution, BindingKey) == n.substitution
    requires SubstitutionOk(theory, rule, n.substitution) && |n.premiseIds| == |rule.body|
    requires PremisesOk(nodes, rule, n.premiseIds, n.substitution)
    requires Grounds(rule.head, DictOf(n.substitution), n.conclusion) && DepthOk(nodes, n.premiseIds, n.depth)
    ensures forall code :: InstancePasses(theory, nodes, rule, n, code)
  {
    hide SortBy, SubstitutionOk, PremisesOk, Grounds, DepthOk, DictOf;
  }

  /** A rule-application node. */
  method ValidateApplication(theory: Theory, sources: map<string, SourceStatement>, rules: map<string, Rule>,
                             entityIds: set<string>, nodes: NodeMap, n: ProofNode)
    returns (r: Result<(), Code>)
    requires WellFormed(theory) && n.RuleApplicationNode?
    requires sources == Lookup(theory.sources, SOURCE_ID) && rules == RulesById(theory)
             && entityIds == EntityIds(theory)
    ensures r.Ok? <==> forall code :: ApplicationPasses(theory, nodes, n, code)
    ensures r.Err? ==> !ApplicationPasses(theory, nodes, n, r.error)
  {
    hide WellFormed, InstancePasses, RulesById;
    if n.ruleId !in rules || rules[n.ruleId].sourceId != n.sourceId {
      assert !ApplicationPasses(theory, nodes, n, RuleCode);
      return Err(RuleCode);
    }
    if n.sourceId !in sources || sources[n.sourceId].text != n.sourceText {
      assert !ApplicationPasses(theory, nodes, n, SourceTextCode);
      return Err(SourceTextCode);
    }
    RuleBodyNonEmpty(theory, n.ruleId);
    r := ValidateInstance(theory, entityIds, nodes, rules[n.ruleId], n);
    if r.Ok? {
      forall code ensures ApplicationPasses(theory, nodes, n, code) {
        assert InstancePasses(theory, nodes, rules[n.ruleId], n, code);
      }
    } else {
      assert !ApplicationPasses(theory, nodes, n, r.error);
    }
  }

  lemma SubstitutionBinds(theory: Theory, rule: Rule, items: seq<Binding>)
    requires SubstitutionOk(theory, rule, items)
    ensures DictOf(items).Keys == BodyVars(rule.body) + Vars(rule.head)
  {
  }

  lemma PremisesFound(nodes: NodeMap, rule: Rule, ids: seq<string>, items: seq<Binding>, found: bool)
    requires |ids| == |SortedBody(rule.body)|
    requires found <==> forall i :: 0 <= i < |ids| ==> PremiseOk(nodes, ids[i], SortedBody(rule.body)[i], DictOf(items))
    ensures found <==> PremisesOk(nodes, rule, ids, items)
  {
    hide PremiseOk;
  }

  lemma GroundsUnique(p: RuleLiteral, s: Subst, l: CanonicalLiteral, m: CanonicalLiteral)
    requires Grounds(p, s, l)
    ensures Grounds(p, s, m) <==> m == l
  {
  }

  lemma RuleBodyNonEmpty(theory: Theory, id: string)
    requires WellFormed(theory) && id in RulesById(theory)
    ensures RulesById(theory)[id] in theory.rules && RulesById(theory)[id].body != []
            && RangeRestricted(RulesById(theory)[id])
  {
    LookupKeys(theory.rules, RULE_ID);
    assert RuleValid(RulesById(theory)[id], Declared(theory));
  }

  /** A derived-literal node. */
  method ValidateDerived(nodes: NodeMap, n: ProofNode) returns (r: Result<(), Code>)
    requires n.DerivedLiteralNode?
    ensures r.Ok? <==> forall code :: DerivedPasses(nodes, n, code)
    ensures r.Err? ==> !DerivedPasses(nodes, n, r.error)
  {
    if n.applicationId !in nodes || !nodes[n.applicationId].RuleApplicationNode? {
      assert !DerivedPasses(nodes, n, ApplicationCode);
      return Err(ApplicationCode);
    }
    var application := nodes[n.applicationId];
    if n.literal != application.conclusion {
      assert !DerivedPasses(nodes, n, ConclusionCode);
      return Err(ConclusionCode);
    }
    if n.depth != application.depth {
      assert !DerivedPasses(nodes, n, DepthCode);
      return Err(DepthCode);
    }
    return Ok(());
  }

  /** A code about single nodes, as opposed to the roots, the graph or the proof as a whole. */
  predicate NodeCode(code: Code) {
    match code
    case SourceFactCode | SourceTextCode | DepthCode | RuleCode | SubstitutionOrderCode | SubstitutionCode => true
    case PremiseCountCode | PremiseCode | ConclusionCode | ApplicationCode => true
    case _ => false
  }

  lemma OtherCodesPass(theory: Theory, nodes: NodeMap, n: ProofNode, code: Code)
    requires !NodeCode(code)
    ensures NodePasses(theory, nodes, n, code)
  {
  }

  method ValidateNode(theory: Theory, sources: map<string, SourceStatement>, rules: map<string, Rule>,
                      entityIds: set<string>, nodes: NodeMap, n: ProofNode)
    returns (r: Result<(), Code>)
    requires WellFormed(theory)
    requires sources == Lookup(theory.sources, SOURCE_ID) && rules == RulesById(theory)
             && entityIds == EntityIds(theory)
    ensures r.Ok? <==> NodeOk(theory, nodes, n)
    ensures r.Err? ==> !NodePasses(theory, nodes, n, r.error)
  {
    hide SourceFactPasses, ApplicationPasses, DerivedPasses;
    match n
    case SourceFactNode(_, _, _, _, _) =>
      r := ValidateSourceFact(theory, sources, n);
      assert forall code :: NodePasses(theory, nodes, n, code) <==> SourceFactPasses(theory, n, code);
    case RuleApplicationNode(_, _, _, _, _, _, _, _) =>
      r := ValidateApplication(theory, sources, rules, entityIds, nodes, n);
      assert forall code :: NodePasses(theory, nodes, n, code) <==> ApplicationPasses(theory, nodes, n, code);
    case DerivedLiteralNode(_, _, _, _) =>
      r := ValidateDerived(nodes, n);
      assert forall code :: NodePasses(theory, nodes, n, code) <==> DerivedPasses(nodes, n, code);
  }

  /** `_validate_nodes`: the graph of the proof when every node passes and the graph is acyclic. */
  method ValidateNodes(theory: Theory, proofNodes: seq<ProofNode>, nodes: NodeMap) returns (r: Result<Graph, Code>)
    requires WellFormed(theory) && DistinctIds(proofNodes, NODE_ID) && nodes == NodeMapOf(proofNodes)
    ensures r.Ok? <==> NodesOk(theory, nodes) && Acyclic(GraphOf(nodes)) && NoDangling(GraphOf(nodes))
    ensures r.Ok? ==> r.value == GraphOf(nodes)
    ensures r.Err? ==> match r.error
                         case CycleCode => !Acyclic(GraphOf(nodes))
                         case DanglingCode => !NoDangling(GraphOf(nodes))
                         case code => exists id :: id in nodes && !NodePasses(theory, nodes, nodes[id], code)
  {
    hide NodePasses, NodeOk, Acyclic, NoDangling, WellFormed, Children, RulesById, OnCycle, Edge, Edges, NodesOk,
      GraphOf;
    var sources := Lookup(theory.sources, SOURCE_ID);
    var rules := RulesById(theory);
    var entityIds := set e | e in theory.entities :: e.id;
    assert entityIds == EntityIds(theory);
    LookupDistinct(proofNodes, NODE_ID);
    LookupKeys(proofNodes, NODE_ID);
    var graph: Graph := map[];
    NoEdges(proofNodes, nodes);
    for i := 0 to |proofNodes|
      invariant forall j :: 0 <= j < i ==> NodeOk(theory, nodes, proofNodes[j])
      invariant Edges(proofNodes, i, nodes, graph)
    {
      var n := proofNodes[i];
      assert n in proofNodes;
      assert NODE_ID(n) in nodes && nodes[NODE_ID(n)] == n;
      var check := ValidateNode(theory, sources, rules, entityIds, nodes, n);
      if check.Err? {
        NotNodeCode(theory, nodes, n, check.error);
        NotAllOk(theory, nodes, n.nodeId);
        return Err(check.error);
      }
      EdgesNext(proofNodes, i, nodes, graph);
      graph := graph[n.nodeId := Children(n)];
    }
    EdgesAll(theory, proofNodes, nodes, graph);
    var acyclic := AssertAcyclic(graph);
    if acyclic.Err? {
      if acyclic.error.Cycle? {
        CycleRejects(graph, acyclic.error.node);
        return Err(CycleCode);
      }
      DanglingRejects(graph, acyclic.error.node);
      return Err(DanglingCode);
    }
    return Ok(graph);
  }

  /** The graph of the first `i` nodes. */
  ghost predicate Edges(proofNodes: seq<ProofNode>, i: nat, nodes: NodeMap, graph: Graph)
    requires i <= |proofNodes|
  {
    && (forall j :: 0 <= j < i ==>
          proofNodes[j].nodeId in graph && graph[proofNodes[j].nodeId] == Children(proofNodes[j]))
    && forall id :: id in graph ==> id in nodes
  }

  lemma NoEdges(proofNodes: seq<ProofNode>, nodes: NodeMap)
    ensures Edges(proofNodes, 0, nodes, map[])
  {
  }

  lemma NotAllOk(theory: Theory, nodes: NodeMap, id: string)
    requires id in nodes && !NodeOk(theory, nodes, nodes[id])
    ensures !NodesOk(theory, nodes)
  {
    hide NodeOk;
  }

  lemma EdgesNext(proofNodes: seq<ProofNode>, i: nat, nodes: NodeMap, graph: Graph)
    requires i < |proofNodes| && DistinctIds(proofNodes, NODE_ID) && Edges(proofNodes, i, nodes, graph)
    requires proofNodes[i].nodeId in nodes
    ensures Edges(proofNodes, i + 1, nodes, graph[proofNodes[i].nodeId := Children(proofNodes[i])])
  {
    hide Children;
    forall j | 0 <= j < i ensures proofNodes[j].nodeId != proofNodes[i].nodeId {
      assert NODE_ID(proofNodes[j]) != NODE_ID(proofNodes[i]);
    }
  }

  lemma EdgesAll(theory: Theory, proofNodes: seq<ProofNode>, nodes: NodeMap, graph: Graph)
    requires nodes == NodeMapOf(proofNodes) && Edges(proofNodes, |proofNodes|, nodes, graph)
    requires forall j :: 0 <= j < |proofNodes| ==> NodeOk(theory, nodes, proofNodes[j])
    ensures NodesOk(theory, nodes) && graph == GraphOf(nodes)
  {
    hide Children, NodeOk;
    LookupKeys(proofNodes, NODE_ID);
    forall id | id in nodes
      ensures id in graph && graph[id] == Children(nodes[id]) && NodeOk(theory, nodes, nodes[id])
    {
      var j :| 0 <= j < |proofNodes| && proofNodes[j] == nodes[id];
      assert NODE_ID(nodes[id]) == id;
    }
  }

  lemma NotNodeCode(theory: Theory, nodes: NodeMap, n: ProofNode, code: Code)
    requires !NodePasses(theory, nodes, n, code)
    ensures code != CycleCode && code != DanglingCode && NodeCode(code) && !NodeOk(theory, nodes, n)
  {
    if !NodeCode(code) {
      OtherCodesPass(theory, nodes, n, code);
    }
  }

  lemma CycleRejects(graph: Graph, n: string)
    requires OnCycle(graph, n)
    ensures !Acyclic(graph)
  {
  }

  lemma DanglingRejects(graph: Graph, n: string)
    requires n !in graph && exists a :: Edge(graph, a, n)
    ensures !NoDangling(graph)
  {
  }

  /** `_validate_roots`. */
  method ValidateRoots(proof: ProofDAG, nodes: NodeMap, query: CanonicalLiteral) returns (r: Result<seq<string>, Code>)
    requires nodes == NodeMapOf(proof.nodes)
    ensures r.Ok? <==> && RootOk(nodes, proof.supportRootId, NeedsSupport(proof.status), query)
                       && RootOk(nodes, proof.oppositionRootId, NeedsOpposition(proof.status), query.Opposite())
                       && (proof.status.Unknown? ==> proof.nodes == [])
    ensures r.Ok? ==> r.value == RootsOf(proof)
    ensures r.Err? ==> match r.error
                         case SupportRootCode => !RootOk(nodes, proof.supportRootId, NeedsSupport(proof.status), query)
                         case OppositionRootCode =>
                           !RootOk(nodes, proof.oppositionRootId, NeedsOpposition(proof.status), query.Opposite())
                         case UnknownProofCode => proof.status.Unknown? && proof.nodes != []
                         case _ => false
  {
    if NeedsSupport(proof.status) != proof.supportRootId.Some? {
      return Err(SupportRootCode);
    }
    if NeedsOpposition(proof.status) != proof.oppositionRootId.Some? {
      return Err(OppositionRootCode);
    }
    if proof.status.Unknown? && proof.nodes != [] {
      return Err(UnknownProofCode);
    }
    var roots: seq<string> := [];
    if proof.supportRootId.Some? {
      var id := proof.supportRootId.value;
      if id !in nodes || !IsLiteralNode(nodes[id]) || nodes[id].literal != query {
        return Err(SupportRootCode);
      }
      roots := roots + [id];
    }
    if proof.oppositionRootId.Some? {
      var id := proof.oppositionRootId.value;
      if id !in nodes || !IsLiteralNode(nodes[id]) || nodes[id].literal != query.Opposite() {
        return Err(OppositionRootCode);
      }
      roots := roots + [id];
    }
    return Ok(roots);
  }
}
