/** The engine's proofs pass every check of the verifier. */
module Completeness {
  import opened Keys
  import opened Logic
  import opened Semantics
  import opened Unification
  import opened Proofs
  import opened Graphs
  import opened Checks
  import opened Choices
  import opened Soundness
  import opened Engine
  import opened NaiveSaturation
  import opened Verifier

  // ---- Node maps that stand on their own ----

  /** Every node carries its own digest as id and passes the checks within the map. */
  ghost predicate NodesSound(sha: Digest, theory: Theory, nodes: NodeMap) {
    forall id :: id in nodes ==>
      nodes[id].nodeId == id && RecomputeNodeId(sha, nodes[id]) == id && NodeOk(theory, nodes, nodes[id])
  }

  ghost predicate SubMap(small: NodeMap, big: NodeMap) {
    forall id :: id in small ==> id in big && big[id] == small[id]
  }

  ghost predicate Spans(nodes: NodeMap, root: string) {
    forall id :: id in nodes ==> ReachableFrom(GraphOf(nodes), [root], id)
  }

  ghost predicate RootFor(nodes: NodeMap, root: string, l: CanonicalLiteral, depth: nat) {
    root in nodes && IsLiteralNode(nodes[root]) && nodes[root].literal == l && nodes[root].depth == depth
  }

  /** A derivation that is a checkable proof of its literal. */
  ghost predicate DerivationOk(sha: Digest, theory: Theory, d: Derivation) {
    NodesSound(sha, theory, d.nodes) && RootFor(d.nodes, d.rootId, d.literal, d.depth) && Spans(d.nodes, d.rootId)
  }

  /** With distinct digests for distinct payloads, an id names one node. */
  lemma SameIdSameNode(sha: Digest, theory: Theory, a: NodeMap, b: NodeMap, id: string)
    requires Injective(sha) && NodesSound(sha, theory, a) && NodesSound(sha, theory, b) && id in a && id in b
    ensures a[id] == b[id]
  {
    hide NodeOk;
    SameDigestSameNode(sha, a[id], b[id]);
  }

  lemma SameDigestSameNode(sha: Digest, m: ProofNode, n: ProofNode)
    requires Injective(sha) && RecomputeNodeId(sha, m) == RecomputeNodeId(sha, n) && m.nodeId == n.nodeId
    ensures m == n
  {
    assert sha(NodePayload(m)) == sha(NodePayload(n));
  }

  lemma PremiseChecks(theory: Theory, nodes: NodeMap, n: ProofNode)
    requires n.RuleApplicationNode? && NodeOk(theory, nodes, n)
    ensures n.ruleId in RulesById(theory) && |n.premiseIds| == |RulesById(theory)[n.ruleId].body|
    ensures PremisesOk(nodes, RulesById(theory)[n.ruleId], n.premiseIds, n.substitution)
  {
    hide SortBy, DictOf, DepthOk, PremisesOk, SubstitutionOk, Grounds, RulesById;
    assert NodePasses(theory, nodes, n, RuleCode);
    assert NodePasses(theory, nodes, n, PremiseCountCode);
    assert NodePasses(theory, nodes, n, PremiseCode);
  }

  lemma PremiseIn(theory: Theory, nodes: NodeMap, n: ProofNode, b: string)
    requires n.RuleApplicationNode? && NodeOk(theory, nodes, n) && b in n.premiseIds
    ensures b in nodes
  {
    hide SortBy, DictOf, NodeOk, RulesById;
    PremiseChecks(theory, nodes, n);
    var rule := RulesById(theory)[n.ruleId];
    SortedBodySame(rule.body);
    var i :| 0 <= i < |n.premiseIds| && n.premiseIds[i] == b;
    assert PremiseOk(nodes, n.premiseIds[i], SortedBody(rule.body)[i], DictOf(n.substitution));
  }

  /** A node that passes within a map passes within any larger one. */
  lemma NodeOkMonotone(theory: Theory, small: NodeMap, big: NodeMap, n: ProofNode)
    requires NodeOk(theory, small, n) && SubMap(small, big)
    ensures NodeOk(theory, big, n)
  {
    hide NodeOk;
    forall code ensures NodePasses(theory, big, n, code) {
      NodePassesMonotone(theory, small, big, n, code);
    }
    NodeOkIntro(theory, big, n);
  }

  lemma NodeOkIntro(theory: Theory, nodes: NodeMap, n: ProofNode)
    requires forall code :: NodePasses(theory, nodes, n, code)
    ensures NodeOk(theory, nodes, n)
  {
  }

  lemma NodeOkElim(theory: Theory, nodes: NodeMap, n: ProofNode, code: Code)
    requires NodeOk(theory, nodes, n)
    ensures NodePasses(theory, nodes, n, code)
  {
  }

  lemma NodePassesMonotone(theory: Theory, small: NodeMap, big: NodeMap, n: ProofNode, code: Code)
    requires NodeOk(theory, small, n) && SubMap(small, big)
    ensures NodePasses(theory, big, n, code)
  {
    hide NodeOk, RulesById, SortBy, DictOf, SubstitutionOk;
    NodeOkElim(theory, small, n, code);
    match n
    case SourceFactNode(_, _, _, _, _) =>
    case DerivedLiteralNode(_, _, _, _) =>
      NodeOkElim(theory, small, n, ApplicationCode);
    case RuleApplicationNode(_, _, _, _, _, ids, _, _) =>
      forall id | id in ids ensures id in small {
        PremiseIn(theory, small, n, id);
      }
      if n.ruleId in RulesById(theory) {
        InstancePassesMonotone(theory, small, big, RulesById(theory)[n.ruleId], n, code);
      }
  }

  lemma InstancePassesMonotone(theory: Theory, small: NodeMap, big: NodeMap, rule: Rule, n: ProofNode, code: Code)
    requires n.RuleApplicationNode? && SubMap(small, big) && forall id :: id in n.premiseIds ==> id in small
    requires InstancePasses(theory, small, rule, n, code)
    ensures InstancePasses(theory, big, rule, n, code)
  {
    hide SortBy, DictOf, SubstitutionOk, Grounds;
    if code == PremiseCode {
      var body, s := SortedBody(rule.body), DictOf(n.substitution);
      forall i | 0 <= i < |body| && i < |n.premiseIds| ensures PremiseOk(big, n.premiseIds[i], body[i], s) {
        assert PremiseOk(small, n.premiseIds[i], body[i], s);
      }
    }
  }

  /** The union of two sound maps is sound and extends both. */
  lemma UnionSound(sha: Digest, theory: Theory, a: NodeMap, b: NodeMap)
    requires Injective(sha) && NodesSound(sha, theory, a) && NodesSound(sha, theory, b)
    ensures NodesSound(sha, theory, a + b) && SubMap(a, a + b) && SubMap(b, a + b)
  {
    hide NodeOk, Injective, RecomputeNodeId;
    forall id | id in a && id in b ensures a[id] == b[id] {
      SameIdSameNode(sha, theory, a, b, id);
    }
    forall id | id in a + b ensures NodeOk(theory, a + b, (a + b)[id]) {
      if id in b {
        NodeOkMonotone(theory, b, a + b, b[id]);
      } else {
        NodeOkMonotone(theory, a, a + b, a[id]);
      }
    }
  }

  /** Adding a node that passes keeps a map sound. */
  lemma AddSound(sha: Digest, theory: Theory, nodes: NodeMap, n: ProofNode)
    requires Injective(sha) && NodesSound(sha, theory, nodes)
    requires RecomputeNodeId(sha, n) == n.nodeId && NodeOk(theory, nodes, n)
    ensures NodesSound(sha, theory, nodes[n.nodeId := n]) && SubMap(nodes, nodes[n.nodeId := n])
  {
    hide NodeOk, Injective, RecomputeNodeId;
    var after := nodes[n.nodeId := n];
    if n.nodeId in nodes {
      SameDigestSameNode(sha, nodes[n.nodeId], n);
    }
    forall id | id in after ensures NodeOk(theory, after, after[id]) {
      NodeOkMonotone(theory, nodes, after, after[id]);
    }
  }

  lemma SubMapTransitive(a: NodeMap, b: NodeMap, c: NodeMap)
    requires SubMap(a, b) && SubMap(b, c)
    ensures SubMap(a, c)
  {
  }

  // ---- Reachability in larger maps ----

  lemma ReachableInLarger(small: NodeMap, big: NodeMap, roots: seq<string>, more: seq<string>, id: string)
    requires SubMap(small, big) && ReachableFrom(GraphOf(small), roots, id)
    requires forall r :: r in roots ==> ReachableFrom(GraphOf(big), more, r)
    ensures ReachableFrom(GraphOf(big), more, id)
  {
    var r, p :| r in roots && PathBetween(GraphOf(small), p, r, id);
    ReachAlong(small, big, more, p, |p| - 1);
  }

  lemma {:induction false} ReachAlong(small: NodeMap, big: NodeMap, more: seq<string>, p: seq<string>, i: nat)
    requires SubMap(small, big) && IsPath(GraphOf(small), p) && i < |p| && ReachableFrom(GraphOf(big), more, p[0])
    ensures ReachableFrom(GraphOf(big), more, p[i])
  {
    hide ReachableFrom;
    if i > 0 {
      ReachAlong(small, big, more, p, i - 1);
      assert Edge(GraphOf(small), p[i - 1], p[i]);
      assert Edge(GraphOf(big), p[i - 1], p[i]);
      StepReachable(GraphOf(big), more, p[i - 1], p[i]);
    }
  }

  // ---- Merging the premises ----

  /** `merged` holds the nodes of every derivation and no others. */
  ghost predicate Collects(ds: seq<Derivation>, merged: NodeMap) {
    && (forall i :: 0 <= i < |ds| ==> SubMap(ds[i].nodes, merged))
    && (forall id :: id in merged ==> exists i :: 0 <= i < |ds| && id in ds[i].nodes)
  }

  lemma CollectsStep(front: seq<Derivation>, last: Derivation, merged: NodeMap)
    requires Collects(front, merged) && SubMap(merged, merged + last.nodes) && SubMap(last.nodes, merged + last.nodes)
    ensures Collects(front + [last], merged + last.nodes)
  {
    var ds, all := front + [last], merged + last.nodes;
    forall i | 0 <= i < |ds| ensures SubMap(ds[i].nodes, all) {
      if i < |front| {
        assert ds[i] == front[i];
        SubMapTransitive(front[i].nodes, merged, all);
      }
    }
    forall id | id in all ensures exists i :: 0 <= i < |ds| && id in ds[i].nodes {
      if id in last.nodes {
        assert id in ds[|front|].nodes;
      } else {
        var i :| 0 <= i < |front| && id in front[i].nodes;
        assert id in ds[i].nodes;
      }
    }
  }

  lemma {:induction false} MergedSound(sha: Digest, theory: Theory, ds: seq<Derivation>)
    requires Injective(sha) && forall i :: 0 <= i < |ds| ==> DerivationOk(sha, theory, ds[i])
    ensures NodesSound(sha, theory, MergedNodes(ds)) && Collects(ds, MergedNodes(ds))
  {
    hide NodesSound, Spans, Injective, Collects, RootFor, SubMap;
    if ds == [] {
      NothingSound(sha, theory);
    } else {
      var front, last := ds[..|ds| - 1], ds[|ds| - 1];
      MergedSound(sha, theory, front);
      assert DerivationOk(sha, theory, last);
      UnionSound(sha, theory, MergedNodes(front), last.nodes);
      CollectsStep(front, last, MergedNodes(front));
      assert ds == front + [last];
    }
  }

  lemma NothingSound(sha: Digest, theory: Theory)
    ensures NodesSound(sha, theory, map[]) && Collects([], map[])
  {
  }

  // ---- Source derivations ----

  lemma SourceDerivationOk(sha: Digest, theory: Theory, f: GroundLiteral)
    requires ValidTheory(theory) && f in theory.facts
    ensures DerivationOk(sha, theory, FactDerivation(sha, theory, f))
  {
    hide ValidTheory;
    var d := FactDerivation(sha, theory, f);
    var n := d.nodes[d.rootId];
    assert n.SourceFactNode? && n.literal == Canonical(f) && n.sourceId == f.sourceId && n.depth == 0;
    FactSourceKnown(theory, f);
    forall code ensures NodePasses(theory, d.nodes, n, code) {
      assert f in theory.facts;
    }
    RootReachable(GraphOf(d.nodes), [d.rootId], d.rootId);
    SelfDigest(sha, SourceFactNode("", Canonical(f), f.sourceId, TextOf(theory, f.sourceId), 0));
  }

  lemma SelfDigest(sha: Digest, n: ProofNode)
    ensures RecomputeNodeId(sha, WithId(sha, n)) == WithId(sha, n).nodeId
  {
    assert NodePayload(WithId(sha, n)) == NodePayload(n);
  }

  // ---- Rule derivations ----

  lemma SubstitutionChecked(theory: Theory, i: Instance, known: set<CanonicalLiteral>)
    requires WellFormed(theory) && i.rule in theory.rules && Fires(i, known)
    requires forall l :: l in known ==> Declarable(theory, l)
    ensures SubstitutionOk(theory, i.rule, SortedItems(i.sub))
    ensures SortBy(SortedItems(i.sub), BindingKey) == SortedItems(i.sub)
    ensures DictOf(SortedItems(i.sub)) == i.sub
  {
    hide Leq, WellFormed, SortBy;
    SortedItemsInOrder(i.sub);
    SortedItemsRoundTrip(i.sub);
    SortedItemsExact(i.sub);
    forall b | b in SortedItems(i.sub) ensures b.entity in EntityIds(theory) {
      BoundEntity(theory, i, known, b.variable);
    }
  }

  lemma BoundEntity(theory: Theory, i: Instance, known: set<CanonicalLiteral>, v: string)
    requires Fires(i, known) && v in i.sub && forall l :: l in known ==> Declarable(theory, l)
    ensures i.sub[v] in EntityIds(theory)
  {
    var b :| b in i.rule.body && v in Vars(b);
    var j :| 0 <= j < |b.arguments| && b.arguments[j].VariableTerm? && b.arguments[j].name == v;
    assert Ground(b, i.sub).arguments[j] == i.sub[v];
    assert i.sub[v] in Ground(b, i.sub).arguments;
  }

  lemma PremisesChecked(closure: Closure, nodes: NodeMap, i: Instance)
    requires Fires(i, closure.Keys)
    requires forall l :: l in PremisesOf(i.rule.body, i.sub) ==>
        l in closure && RootFor(nodes, closure[l].rootId, l, closure[l].depth)
    requires DictOf(SortedItems(i.sub)) == i.sub
    ensures (forall p :: p in PremisesOf(i.rule.body, i.sub) ==> p in closure)
    ensures PremisesOk(nodes, i.rule, RootIds(DerivationsOf(closure, PremisesOf(i.rule.body, i.sub))),
        SortedItems(i.sub))
  {
    hide SortBy, DictOf, SortedItems;
    var ps := PremisesOf(i.rule.body, i.sub);
    var ids := RootIds(DerivationsOf(closure, ps));
    SortedBodySame(i.rule.body);
    var body := SortedBody(i.rule.body);
    forall j | 0 <= j < |body| && j < |ids| ensures PremiseOk(nodes, ids[j], body[j], i.sub) {
      assert ps[j] in ps;
      assert body[j] == SortedBodyAt(i.rule.body, j, i.sub);
    }
  }

  lemma DepthChecked(closure: Closure, nodes: NodeMap, ps: seq<CanonicalLiteral>)
    requires ps != [] && forall l :: l in ps ==> l in closure && RootFor(nodes, closure[l].rootId, l, closure[l].depth)
    ensures DepthOk(nodes, RootIds(DerivationsOf(closure, ps)), 1 + MaxDepth(DerivationsOf(closure, ps)))
  {
    var ds := DerivationsOf(closure, ps);
    var ids := RootIds(ds);
    MaxDepthBounds(ds);
    forall id | id in ids && id in nodes ensures nodes[id].depth < 1 + MaxDepth(ds) {
      var j :| 0 <= j < |ids| && ids[j] == id;
      assert ps[j] in ps && ds[j] == closure[ps[j]];
    }
    var m :| 0 <= m < |ds| && ds[m].depth == MaxDepth(ds);
    assert ps[m] in ps;
    assert ids[m] in ids && nodes[ids[m]].depth + 1 == 1 + MaxDepth(ds);
  }

  /** The application node the engine builds passes every check. */
  lemma ApplicationOk(sha: Digest, theory: Theory, closure: Closure, nodes: NodeMap, i: Instance,
                      l: CanonicalLiteral, application: ProofNode)
    requires WellFormed(theory) && i.rule in theory.rules && Fires(i, closure.Keys) && Concludes(i, l)
    requires forall m :: m in closure ==> Declarable(theory, m)
    requires forall p :: p in PremisesOf(i.rule.body, i.sub) ==>
        p in closure && RootFor(nodes, closure[p].rootId, p, closure[p].depth)
    requires |PremisesOf(i.rule.body, i.sub)| == |i.rule.body| > 0
    requires application == ApplicationOf(sha, l, i.rule, i.sub, DerivationsOf(closure, PremisesOf(i.rule.body, i.sub)),
                                          TextOf(theory, i.rule.sourceId))
    ensures NodeOk(theory, nodes, application)
  {
    hide WellFormed, SortBy, DictOf, SortedItems, PremisesOf, SubstitutionOk, PremisesOk, DepthOk, MaxDepth,
      RecomputeNodeId, Lookup, TextOf;
    SubstitutionChecked(theory, i, closure.Keys);
    PremisesChecked(closure, nodes, i);
    DepthChecked(closure, nodes, PremisesOf(i.rule.body, i.sub));
    RuleFound(theory, i.rule);
    forall code ensures NodePasses(theory, nodes, application, code) {
    }
  }

  lemma RuleFound(theory: Theory, rule: Rule)
    requires WellFormed(theory) && rule in theory.rules
    ensures rule.id in RulesById(theory) && RulesById(theory)[rule.id] == rule
    ensures SourceText(theory, rule.sourceId) == Some(TextOf(theory, rule.sourceId))
  {
    LookupDistinct(theory.rules, RULE_ID);
    assert RULE_ID(rule) in RulesById(theory);
    RuleUsable(theory, rule);
  }

  /** From checkable premises the engine builds a checkable derivation. */
  lemma RuleDerivationOk(sha: Digest, theory: Theory, closure: Closure, i: Instance, l: CanonicalLiteral)
    requires Injective(sha) && WellFormed(theory) && i.rule in theory.rules && Fires(i, closure.Keys) && Concludes(i, l)
    requires forall m :: m in closure ==> Declarable(theory, m)
    requires forall p :: p in PremisesOf(i.rule.body, i.sub) ==>
               p in closure && closure[p].literal == p && DerivationOk(sha, theory, closure[p])
    ensures DerivationOk(sha, theory, InstanceDerivation(sha, theory, closure, i))
    ensures InstanceDerivation(sha, theory, closure, i).literal == l
  {
    hide WellFormed, Injective, NodesSound, Spans, PremisesOf, Declarable, DerivationOk;
    PremisesKnown(i, closure.Keys);
    var ps := PremisesOf(i.rule.body, i.sub);
    var ds := DerivationsOf(closure, ps);
    forall j | 0 <= j < |ds| ensures DerivationOk(sha, theory, ds[j]) && ds[j] == closure[ps[j]] {
      assert ps[j] in ps;
    }
    MergedSound(sha, theory, ds);
    var merged := MergedNodes(ds);
    PremiseRoots(sha, theory, closure, ps, merged);
    var application := ApplicationOf(sha, l, i.rule, i.sub, ds, TextOf(theory, i.rule.sourceId));
    ApplicationOk(sha, theory, closure, merged, i, l, application);
    WrapDerivation(sha, theory, ds, merged, application, l);
    DerivationOkIntro(sha, theory, InstanceDerivation(sha, theory, closure, i));
  }

  lemma DerivationOkIntro(sha: Digest, theory: Theory, d: Derivation)
    requires NodesSound(sha, theory, d.nodes) && RootFor(d.nodes, d.rootId, d.literal, d.depth)
             && Spans(d.nodes, d.rootId)
    ensures DerivationOk(sha, theory, d)
  {
  }

  lemma PremiseRoots(sha: Digest, theory: Theory, closure: Closure, ps: seq<CanonicalLiteral>, merged: NodeMap)
    requires forall p :: p in ps ==> p in closure && closure[p].literal == p && DerivationOk(sha, theory, closure[p])
    requires Collects(DerivationsOf(closure, ps), merged)
    ensures forall p :: p in ps ==> RootFor(merged, closure[p].rootId, p, closure[p].depth)
  {
    hide NodesSound, Spans;
    var ds := DerivationsOf(closure, ps);
    forall p | p in ps ensures RootFor(merged, closure[p].rootId, p, closure[p].depth) {
      var j :| 0 <= j < |ps| && ps[j] == p;
      assert ds[j] == closure[p] && SubMap(ds[j].nodes, merged);
    }
  }

  /** Adding the application and the derived node to the merged premises. */
  lemma WrapDerivation(sha: Digest, theory: Theory, ds: seq<Derivation>, merged: NodeMap, application: ProofNode,
                       l: CanonicalLiteral)
    requires Injective(sha) && NodesSound(sha, theory, merged) && application.RuleApplicationNode?
    requires RecomputeNodeId(sha, application) == application.nodeId && NodeOk(theory, merged, application)
    requires application.conclusion == l && application.premiseIds == RootIds(ds)
    requires Collects(ds, merged) && forall i :: 0 <= i < |ds| ==> DerivationOk(sha, theory, ds[i])
    ensures var derived := ConclusionOf(sha, l, application);
            var nodes := merged[application.nodeId := application][derived.nodeId := derived];
            NodesSound(sha, theory, nodes) && RootFor(nodes, derived.nodeId, l, application.depth)
              && Spans(nodes, derived.nodeId)
  {
    hide NodeOk, NodesSound, RecomputeNodeId, Injective, Spans, Collects, DerivationOk;
    var derived := ConclusionOf(sha, l, application);
    SelfDigest(sha, DerivedLiteralNode("", l, application.nodeId, application.depth));
    AddSound(sha, theory, merged, application);
    var withApplication := merged[application.nodeId := application];
    DerivedOk(theory, withApplication, application, derived);
    AddSound(sha, theory, withApplication, derived);
    var nodes := withApplication[derived.nodeId := derived];
    SubMapTransitive(merged, withApplication, nodes);
    assert nodes[application.nodeId] == application by {
      assert SubMap(withApplication, nodes);
    }
    WrapSpans(sha, theory, ds, merged, nodes, application, derived);
  }

  lemma DerivedOk(theory: Theory, nodes: NodeMap, application: ProofNode, derived: ProofNode)
    requires application.RuleApplicationNode? && derived.DerivedLiteralNode?
    requires application.nodeId in nodes && nodes[application.nodeId] == application
    requires derived.applicationId == application.nodeId && derived.literal == application.conclusion
    requires derived.depth == application.depth
    ensures NodeOk(theory, nodes, derived)
  {
    forall code ensures NodePasses(theory, nodes, derived, code) {
    }
  }

  /** From the root one step reaches the application, another each premise, and so every node. */
  lemma WrapSpans(sha: Digest, theory: Theory, ds: seq<Derivation>, merged: NodeMap, nodes: NodeMap,
                  application: ProofNode, derived: ProofNode)
    requires application.RuleApplicationNode? && derived.DerivedLiteralNode?
             && derived.applicationId == application.nodeId
    requires derived.nodeId in nodes && nodes[derived.nodeId] == derived
    requires application.nodeId in nodes && nodes[application.nodeId] == application
    requires application.premiseIds == RootIds(ds) && SubMap(merged, nodes)
    requires Collects(ds, merged) && forall i :: 0 <= i < |ds| ==> DerivationOk(sha, theory, ds[i])
    requires nodes.Keys == merged.Keys + {application.nodeId, derived.nodeId}
    ensures Spans(nodes, derived.nodeId)
  {
    hide ReachableFrom, DerivationOk, SubMap;
    var g, roots := GraphOf(nodes), [derived.nodeId];
    RootReachable(g, roots, derived.nodeId);
    assert Edge(g, derived.nodeId, application.nodeId);
    StepReachable(g, roots, derived.nodeId, application.nodeId);
    forall id | id in merged ensures ReachableFrom(g, roots, id) {
      var i :| 0 <= i < |ds| && id in ds[i].nodes;
      assert RootIds(ds)[i] == ds[i].rootId;
      assert Edge(g, application.nodeId, ds[i].rootId);
      StepReachable(g, roots, application.nodeId, ds[i].rootId);
      SubMapTransitive(ds[i].nodes, merged, nodes);
      ThroughPremise(sha, theory, ds[i], nodes, roots, id);
    }
  }

  lemma ThroughPremise(sha: Digest, theory: Theory, d: Derivation, nodes: NodeMap, roots: seq<string>, id: string)
    requires DerivationOk(sha, theory, d) && SubMap(d.nodes, nodes) && id in d.nodes
    requires ReachableFrom(GraphOf(nodes), roots, d.rootId)
    ensures ReachableFrom(GraphOf(nodes), roots, id)
  {
    hide ReachableFrom, NodesSound, RootFor, SubMap;
    ReachableInLarger(d.nodes, nodes, [d.rootId], roots, id);
  }

  /** Every derivation of a best closure is a checkable proof. */
  lemma {:induction false} ClosureDerivationOk(sha: Digest, theory: Theory, closure: Closure, l: CanonicalLiteral)
    requires Injective(sha) && WellFormed(theory) && BestProofs(sha, theory, closure) && l in closure
    requires forall m :: m in closure ==> Declarable(theory, m)
    ensures DerivationOk(sha, theory, closure[l]) && closure[l].literal == l
    decreases closure[l].depth
  {
    hide ValidTheory, SchemaValid, Injective, DerivationOk, Declarable, InstanceDerivation, Leq, PremisesOf,
      FactDerivation;
    if l in FactSet(theory) {
      assert BestFact(sha, theory, l, closure[l]);
      var f :| f in theory.facts && Canonical(f) == l && closure[l] == FactDerivation(sha, theory, f);
      SourceDerivationOk(sha, theory, f);
    } else {
      assert BestRule(sha, theory, closure, closure.Keys, l, closure[l]);
      var i :| Offers(sha, theory, closure, closure.Keys, i, l)
        && closure[l] == InstanceDerivation(sha, theory, closure, i);
      InstanceDepth(sha, theory, closure, i);
      PremisesKnown(i, closure.Keys);
      forall p | p in PremisesOf(i.rule.body, i.sub)
        ensures DerivationOk(sha, theory, closure[p]) && closure[p].literal == p
      {
        ClosureDerivationOk(sha, theory, closure, p);
      }
      RuleDerivationOk(sha, theory, closure, i, l);
    }
  }

  // ---- The nodes of a proof, in order ----

  lemma OrderedNodesAt(nodes: NodeMap)
    requires forall id :: id in nodes ==> nodes[id].nodeId == id
    ensures var ids, ns := SortedStrings(nodes.Keys), OrderedNodes(nodes);
            |ns| == |ids| && forall j :: 0 <= j < |ids| ==>
              ids[j] in nodes && ns[j] == nodes[ids[j]] && ns[j].nodeId == ids[j]
  {
    hide Leq;
    var ids := SortedStrings(nodes.Keys);
    forall j | 0 <= j < |ids| ensures ids[j] in nodes {
      assert ids[j] in ids;
    }
  }

  lemma OrderedNodesFacts(sha: Digest, theory: Theory, nodes: NodeMap)
    requires NodesSound(sha, theory, nodes)
    ensures IdsOf(OrderedNodes(nodes)) == SortedStrings(nodes.Keys)
    ensures DistinctIds(OrderedNodes(nodes), NODE_ID)
    ensures forall n :: n in OrderedNodes(nodes) ==> RecomputeNodeId(sha, n) == n.nodeId
    ensures NodeMapOf(OrderedNodes(nodes)) == nodes
  {
    hide NodeOk, RecomputeNodeId, Leq, OrderedNodes;
    var ids, ns := SortedStrings(nodes.Keys), OrderedNodes(nodes);
    OrderedNodesAt(nodes);
    StrictlySortedDistinct(ids, STRING_KEY);
    assert IdsOf(ns) == ids;
    forall n | n in ns ensures RecomputeNodeId(sha, n) == n.nodeId {
      var j :| 0 <= j < |ns| && ns[j] == n;
    }
    ListedOnce(nodes, ids, ns);
  }

  /** Listing every node once under its id gives the map back. */
  lemma ListedOnce(nodes: NodeMap, ids: seq<string>, ns: seq<ProofNode>)
    requires |ns| == |ids| && NoDuplicates(ids) && forall id :: id in ids <==> id in nodes
    requires forall j :: 0 <= j < |ids| ==> ids[j] in nodes && ns[j] == nodes[ids[j]] && ns[j].nodeId == ids[j]
    ensures DistinctIds(ns, NODE_ID) && NodeMapOf(ns) == nodes
  {
    LookupKeys(ns, NODE_ID);
    LookupDistinct(ns, NODE_ID);
    var m := NodeMapOf(ns);
    forall id | id in nodes ensures id in m && m[id] == nodes[id] {
      var j :| 0 <= j < |ids| && ids[j] == id;
      assert ns[j] in ns && NODE_ID(ns[j]) == id;
    }
    forall id | id in m ensures id in nodes {
      var j :| 0 <= j < |ns| && ns[j] == m[id];
      assert NODE_ID(ns[j]) == ids[j];
    }
  }

  lemma SortedStringsInOrder(ids: set<string>)
    ensures SortBy(SortedStrings(ids), STRING_KEY) == SortedStrings(ids)
  {
    hide Leq;
    var s := SortedStrings(ids);
    SortBySorted(s, STRING_KEY);
    SortByMultiset(s, STRING_KEY);
    StrictlySortedDistinct(s, STRING_KEY);
    SortedUnique(s, SortBy(s, STRING_KEY), STRING_KEY);
  }

  // ---- The result as a whole ----

  lemma ModelDeclarable(theory: Theory)
    requires ValidTheory(theory)
    ensures forall l :: l in ModelOf(theory) ==> Declarable(theory, l)
  {
    hide ValidTheory, Declarable;
    var k := StagesStop(theory, 0);
    FixedStageIsModel(theory, k);
    StageDeclarable(theory, k);
  }

  /** A side of the result: the derivation of a literal, when the closure has one. */
  ghost predicate SideOk(sha: Digest, theory: Theory, side: Option<Derivation>, l: CanonicalLiteral) {
    side.Some? ==> DerivationOk(sha, theory, side.value) && side.value.literal == l
  }

  lemma SidesSound(sha: Digest, theory: Theory, support: Option<Derivation>, opposition: Option<Derivation>,
                   query: CanonicalLiteral, opposite: CanonicalLiteral)
    requires Injective(sha) && SideOk(sha, theory, support, query) && SideOk(sha, theory, opposition, opposite)
    ensures NodesSound(sha, theory, NodesOf(support) + NodesOf(opposition))
    ensures SubMap(NodesOf(support), NodesOf(support) + NodesOf(opposition))
    ensures SubMap(NodesOf(opposition), NodesOf(support) + NodesOf(opposition))
  {
    hide NodesSound, Injective, Spans, RootFor, SubMap;
    NothingSound(sha, theory);
    UnionSound(sha, theory, NodesOf(support), NodesOf(opposition));
  }

  /** The roots of the merged proof are literal nodes for the query and its opposite. */
  lemma SideRoot(sha: Digest, theory: Theory, side: Option<Derivation>, nodes: NodeMap, needed: bool,
                 l: CanonicalLiteral)
    requires SideOk(sha, theory, side, l) && SubMap(NodesOf(side), nodes) && (side.Some? <==> needed)
    ensures RootOk(nodes, RootOf(side), needed, l)
  {
    hide NodesSound, Spans;
  }

  /** Every node of a side is reachable from the roots of the proof. */
  lemma SideReachable(sha: Digest, theory: Theory, side: Option<Derivation>, nodes: NodeMap, roots: seq<string>,
                      l: CanonicalLiteral, id: string)
    requires SideOk(sha, theory, side, l) && SubMap(NodesOf(side), nodes) && id in NodesOf(side)
    requires side.value.rootId in roots
    ensures ReachableFrom(GraphOf(nodes), roots, id)
  {
    hide ReachableFrom, SubMap, DerivationOk;
    RootReachable(GraphOf(nodes), roots, side.value.rootId);
    ThroughPremise(sha, theory, side.value, nodes, roots, id);
  }

  lemma ReachableArePresent(theory: Theory, nodes: NodeMap, roots: seq<string>, id: string)
    requires NodesOk(theory, nodes) && (forall r :: r in roots ==> r in nodes)
             && ReachableFrom(GraphOf(nodes), roots, id)
    ensures id in nodes
  {
    hide NodesOk, ReachableFrom;
    CheckedNodesAreAcyclic(theory, nodes);
    assert GraphOf(nodes).Keys == nodes.Keys;
    ReachableInside(GraphOf(nodes), roots, nodes.Keys, id);
  }

  lemma SoundNodesOk(sha: Digest, theory: Theory, nodes: NodeMap)
    requires NodesSound(sha, theory, nodes)
    ensures NodesOk(theory, nodes)
  {
    hide NodeOk;
  }

  /** The graph conditions of a merged proof. */
  lemma MergedGraph(sha: Digest, theory: Theory, proof: ProofDAG, support: Option<Derivation>,
                    opposition: Option<Derivation>, query: CanonicalLiteral, opposite: CanonicalLiteral,
                    nodes: NodeMap)
    requires SideOk(sha, theory, support, query) && SideOk(sha, theory, opposition, opposite)
    requires nodes == NodesOf(support) + NodesOf(opposition) && NodesSound(sha, theory, nodes)
    requires SubMap(NodesOf(support), nodes) && SubMap(NodesOf(opposition), nodes)
    requires proof.supportRootId == RootOf(support) && proof.oppositionRootId == RootOf(opposition)
    ensures forall n :: n in nodes <==> ReachableFrom(GraphOf(nodes), RootsOf(proof), n)
  {
    hide NodesSound, ReachableFrom, Spans, GraphOf;
    SoundNodesOk(sha, theory, nodes);
    var roots := RootsOf(proof);
    forall r | r in roots ensures r in nodes {
      if support.Some? && r == support.value.rootId {
        assert r in support.value.nodes;
      } else {
        assert r in opposition.value.nodes;
      }
    }
    forall n | n in nodes ensures ReachableFrom(GraphOf(nodes), roots, n) {
      if n in NodesOf(support) {
        SideReachable(sha, theory, support, nodes, roots, query, n);
      } else {
        SideReachable(sha, theory, opposition, nodes, roots, opposite, n);
      }
    }
    forall n | ReachableFrom(GraphOf(nodes), roots, n) ensures n in nodes {
      ReachableArePresent(theory, nodes, roots, n);
    }
  }

  lemma ClosureSide(sha: Digest, theory: Theory, closure: Closure, l: CanonicalLiteral)
    requires Injective(sha) && WellFormed(theory) && closure.Keys == ModelOf(theory) && BestProofs(sha, theory, closure)
    ensures SideOk(sha, theory, Find(closure, l), l)
  {
    hide Injective, BestProofs, DerivationOk, ValidTheory, SchemaValid, Declarable;
    if l in closure {
      ModelDeclarable(theory);
      ClosureDerivationOk(sha, theory, closure, l);
    }
  }

  /** The DAG conditions of a merged proof. */
  lemma MergedDag(sha: Digest, theory: Theory, proof: ProofDAG, expected: Option<Status>,
                  support: Option<Derivation>, opposition: Option<Derivation>)
    requires Injective(sha) && ValidTheory(theory)
    requires var query := Canonical(theory.query);
             SideOk(sha, theory, support, query) && SideOk(sha, theory, opposition, query.Opposite())
    requires proof.supportRootId == RootOf(support) && proof.oppositionRootId == RootOf(opposition)
    requires proof.nodes == OrderedNodes(NodesOf(support) + NodesOf(opposition))
    requires proof.status == StatusFor(support.Some?, opposition.Some?)
    ensures forall code | DagCode(code) :: ProofPasses(sha, theory, proof, expected, code)
  {
    hide Injective, ValidTheory, SideOk, NodesSound, SubMap, OrderedNodes, ProofPasses, NodesOk, RootOk,
      ReachableFrom, DagCode, RootsOf, GraphOf, NodeMapOf, SortBy, IdsOf, DistinctIds, Acyclic, NoDangling,
      RecomputeNodeId;
    var query := Canonical(theory.query);
    var opposite := query.Opposite();
    SidesSound(sha, theory, support, opposition, query, opposite);
    var nodes := NodesOf(support) + NodesOf(opposition);
    OrderedNodesFacts(sha, theory, nodes);
    SortedStringsInOrder(nodes.Keys);
    SideRoot(sha, theory, support, nodes, NeedsSupport(proof.status), query);
    SideRoot(sha, theory, opposition, nodes, NeedsOpposition(proof.status), opposite);
    MergedGraph(sha, theory, proof, support, opposition, query, opposite, nodes);
    SoundNodesOk(sha, theory, nodes);
    CheckedNodesAreAcyclic(theory, nodes);
    NoNodesInOrder();
    DagAccepts(sha, theory, proof, expected, nodes);
  }

  lemma ProofHashMatches(sha: Digest, theory: Theory, query: CanonicalLiteral, status: Status,
                         support: Option<Derivation>, opposition: Option<Derivation>)
    ensures var proof := ProofOf(sha, theory, query, status, support, opposition);
            RecomputeProofHash(sha, proof) == proof.proofHash
  {
    hide OrderedNodes, TheoryHash;
  }

  /** Engine-verifier completeness: with distinct digests for distinct payloads, the result read off a
      best closure passes every check of the verifier. */
  lemma EngineResultAcceptable(sha: Digest, theory: Theory, closure: Closure)
    requires Injective(sha) && WellFormed(theory) && closure.Keys == ModelOf(theory) && BestProofs(sha, theory, closure)
    ensures ResultAcceptable(sha, theory, ResultFrom(sha, theory, closure))
  {
    hide Injective, BestProofs, ValidTheory, SchemaValid, SideOk, TheoryHash, RecomputeProofHash, OrderedNodes,
      ProofPasses, Conflicts, ResultAcceptable, DagCode, HeaderCode, ProofAcceptable;
    var query := Canonical(theory.query);
    var support, opposition := Find(closure, query), Find(closure, query.Opposite());
    ClosureSide(sha, theory, closure, query);
    ClosureSide(sha, theory, closure, query.Opposite());
    var result := ResultFrom(sha, theory, closure);
    var proof := result.proof;
    MergedDag(sha, theory, proof, Some(result.status), support, opposition);
    ProofHashMatches(sha, theory, query, result.status, support, opposition);
    HeaderAccepts(sha, theory, proof, Some(result.status));
    StatusVerdict(sha, theory, proof, Some(result.status), result.status);
    AllCodesPass(sha, theory, proof, Some(result.status));
    ResultAccepts(sha, theory, result);
  }

  lemma AllCodesPass(sha: Digest, theory: Theory, proof: ProofDAG, expected: Option<Status>)
    requires ValidTheory(theory)
    requires forall code | HeaderCode(code) || DagCode(code) || code == IncorrectStatusCode ::
               ProofPasses(sha, theory, proof, expected, code)
    ensures ProofAcceptable(sha, theory, proof, expected)
  {
    hide ValidTheory, ProofPasses, HeaderCode, DagCode;
    forall code ensures ProofPasses(sha, theory, proof, expected, code) {
      if !HeaderCode(code) && !DagCode(code) && code != IncorrectStatusCode {
        ResultCodesPass(sha, theory, proof, expected, code);
      }
    }
  }

  lemma NoNodesInOrder()
    ensures OrderedNodes(map[]) == []
  {
  }

  lemma HeaderAccepts(sha: Digest, theory: Theory, proof: ProofDAG, expected: Option<Status>)
    requires ValidTheory(theory)
    requires proof.schemaVersion == "1.0" && proof.theoryHash == TheoryHash(sha, theory)
    requires proof.query == Canonical(theory.query) && (expected.Some? ==> proof.status == expected.value)
    requires RecomputeProofHash(sha, proof) == proof.proofHash
    ensures forall code | HeaderCode(code) :: ProofPasses(sha, theory, proof, expected, code)
  {
    hide ValidTheory, TheoryHash, RecomputeProofHash;
  }

  // ---- Limits ----

  /** With the limits under which the engine succeeded, the naive closure can only run out of
      firings: rounds, literals and proof nodes are the same on both sides. */
  lemma OnlyFiringsCanRunOut(sha: Digest, theory: Theory, limits: Limits, closure: Closure, k: nat, nodeCount: nat,
                             e: LimitError)
    requires ValidTheory(theory) && closure.Keys == ModelOf(theory)
    requires ProductiveRounds(theory, k) && WithinLimits(sha, theory, limits, closure, k)
    requires nodeCount <= limits.maxProofNodes && VerifyExceeds(theory, limits, nodeCount, e)
    ensures e.name == MaxRuleFirings && NaiveFirings(theory, k) > limits.maxRuleFirings
  {
    hide ValidTheory, Stage, AllNodesBounded, NaiveFirings, Instances, StageGrowsAt;
    assert NaiveExceeds(theory, limits, e);
    match e.name
    case MaxDerivedLiterals =>
      var j: nat :| |Stage(theory, j)| == e.observed;
      StageInModel(theory, j);
      SubsetSize(Stage(theory, j), closure.Keys);
    case MaxRounds =>
      if k <= e.limit {
        StageFixed(theory, k, e.limit);
        StageFixed(theory, k, e.limit + 1);
      }
    case MaxRuleFirings =>
      var j: nat :| ReachedStage(theory, j) && e.observed <= NaiveFirings(theory, j);
      if j > k {
        assert StageGrowsAt(theory, k);
        StageGrowsUnfold(theory, k);
      } else {
        NaiveFiringsMonotone(theory, j, k);
      }
    case MaxProofNodes =>
  }

  lemma {:induction false} NaiveFiringsMonotone(theory: Theory, j: nat, k: nat)
    requires j <= k
    ensures NaiveFirings(theory, j) <= NaiveFirings(theory, k)
    decreases k
  {
    hide Stage, Instances;
    if j < k {
      NaiveFiringsMonotone(theory, j, k - 1);
    }
  }

  lemma ReasoningAcceptable(sha: Digest, theory: Theory, limits: Limits, output: ReasoningOutput)
    requires Injective(sha) && WellFormed(theory) && IsReasoning(sha, theory, limits, output)
    ensures ResultAcceptable(sha, theory, output.result)
    ensures forall e :: VerifyExceeds(theory, limits, |output.result.proof.nodes|, e) ==>
              e.name == MaxRuleFirings && NaiveFirings(theory, output.telemetry.rounds) > limits.maxRuleFirings
  {
    hide Injective, BestProofs, ValidTheory, SchemaValid, ResultAcceptable, VerifyExceeds, NaiveFirings,
      ProductiveRounds, WithinLimits, TelemetryOk, ResultFrom;
    var k := output.telemetry.rounds;
    var closure :| BestClosure(sha, theory, closure, k) && WithinLimits(sha, theory, limits, closure, k)
      && output.result == ResultFrom(sha, theory, closure) && |output.result.proof.nodes| <= limits.maxProofNodes;
    EngineResultAcceptable(sha, theory, closure);
    forall e | VerifyExceeds(theory, limits, |output.result.proof.nodes|, e)
      ensures e.name == MaxRuleFirings && NaiveFirings(theory, k) > limits.maxRuleFirings
    {
      OnlyFiringsCanRunOut(sha, theory, limits, closure, k, |output.result.proof.nodes|, e);
    }
  }

  /** Reasoning followed by verification under the same limits: the verifier never rejects the
      engine's result; it accepts it, or its recount of rule firings exceeds the limit. */
  method ReasonAndVerify(sha: Digest, limits: Limits, theory: Theory)
    returns (reasoning: Result<ReasoningOutput, LimitError>,
             verification: Option<Result<VerificationResult, VerifyError>>)
    requires Injective(sha) && WellFormed(theory)
    ensures verification.Some? <==> reasoning.Ok?
    ensures verification.Some? && verification.value.Ok? ==>
              && verification.value.value.status == reasoning.value.result.status
              && NaiveFirings(theory, reasoning.value.telemetry.rounds) <= limits.maxRuleFirings
    ensures verification.Some? && verification.value.Err? ==>
              && verification.value.error.Resource?
              && verification.value.error.error.name == MaxRuleFirings
              && NaiveFirings(theory, reasoning.value.telemetry.rounds) > limits.maxRuleFirings
  {
    hide Injective, ValidTheory, SchemaValid, IsReasoning, ResultPasses, ResultAcceptable, VerifyExceeds,
      NaiveFirings, Exceeds, ProofTooLarge, NaiveFits;
    var engine := new ForwardChainingEngine(limits, sha);
    reasoning := engine.Reason(theory);
    if reasoning.Err? {
      return reasoning, None;
    }
    ReasoningAcceptable(sha, theory, limits, reasoning.value);
    var verifier := new ProofVerifier(limits, sha);
    var checked := verifier.VerifyResult(theory, reasoning.value.result);
    if checked.Ok? {
      ghost var k :| NaiveFits(theory, limits, k);
      SameRounds(sha, theory, limits, reasoning.value, k);
    } else if checked.error.Rejected? {
      AcceptablePasses(sha, theory, reasoning.value.result, checked.error.code);
    }
    return reasoning, Some(checked);
  }

  lemma AcceptablePasses(sha: Digest, theory: Theory, result: ReasoningResult, code: Code)
    requires ValidTheory(theory) && ResultAcceptable(sha, theory, result)
    ensures ResultPasses(sha, theory, result, code)
  {
    hide ValidTheory, ResultPasses;
  }

  lemma SameRounds(sha: Digest, theory: Theory, limits: Limits, output: ReasoningOutput, k: nat)
    requires ValidTheory(theory) && IsReasoning(sha, theory, limits, output) && NaiveFits(theory, limits, k)
    ensures NaiveFirings(theory, output.telemetry.rounds) <= limits.maxRuleFirings
  {
    hide ValidTheory, BestProofs, WithinLimits, TelemetryOk, ResultFrom, NaiveFirings, StageGrowsAt, Stage;
    var n := output.telemetry.rounds;
    assert ProductiveRounds(theory, n);
    if k < n {
      assert StageGrowsAt(theory, k);
      StageGrowsUnfold(theory, k);
      var c := StagesStop(theory, k);
      StageInModel(theory, k + 1);
      StageMonotone(theory, k, k + 1);
    } else {
      NaiveFiringsMonotone(theory, n, k);
    }
  }
}
