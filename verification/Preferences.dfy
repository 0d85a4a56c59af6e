/** Which derivation a literal keeps, in the plain terms of the derivations: the lowest, then the one with the
    fewest nodes, then the first rule, then the first bindings; of several facts, the first source
    (the choice keys of backend/src/verilogic_ns_api/reasoning/proofs.py). */
module Preferences {
  import opened Keys
  import opened Logic
  import opened Semantics
  import opened Unification
  import opened Proofs
  import opened Choices
  import opened Rounds
  import opened Orders

  /** `i` is a rule instance over the closure with conclusion `l`. */
  ghost predicate Derives(theory: Theory, closure: Closure, i: Instance, l: CanonicalLiteral) {
    i.rule in theory.rules && Fires(i, closure.Keys) && Concludes(i, l)
  }

  /** One more than the deepest premise. */
  ghost function DepthFrom(sha: Digest, theory: Theory, closure: Closure, i: Instance): nat
    requires Fires(i, closure.Keys)
  {
    InstanceDerivation(sha, theory, closure, i).depth
  }

  ghost function NodesFrom(sha: Digest, theory: Theory, closure: Closure, i: Instance): nat
    requires Fires(i, closure.Keys)
  {
    |InstanceDerivation(sha, theory, closure, i).nodes|
  }

  /** `i` is preferred to the different instance `j` of the same conclusion. */
  ghost predicate Preferred(sha: Digest, theory: Theory, closure: Closure, i: Instance, j: Instance)
    requires Fires(i, closure.Keys) && Fires(j, closure.Keys)
  {
    var di, dj := DepthFrom(sha, theory, closure, i), DepthFrom(sha, theory, closure, j);
    var ni, nj := NodesFrom(sha, theory, closure, i), NodesFrom(sha, theory, closure, j);
    if di != dj then di < dj
    else if ni != nj then ni < nj
    else if i.rule.id != j.rule.id then Before(i.rule.id, j.rule.id)
    else SubstBefore(i.sub, j.sub)
  }

  lemma InstanceKeyParts(sha: Digest, theory: Theory, closure: Closure, i: Instance) returns (rest: Key)
    requires Fires(i, closure.Keys)
    ensures InstanceDerivation(sha, theory, closure, i).choiceKey ==
              Pair(Num(DepthFrom(sha, theory, closure, i)), Pair(Num(NodesFrom(sha, theory, closure, i)),
                   Pair(Str(i.rule.id), Pair(BindingsKey(SortedItems(i.sub)), rest))))
  {
    PremisesKnown(i, closure.Keys);
    rest := InstanceDerivation(sha, theory, closure, i).choiceKey.tail.tail.tail.tail;
  }

  /** Different instances with one rule id have different substitutions of the same variables. */
  lemma SameRuleOtherBindings(theory: Theory, closure: Closure, i: Instance, j: Instance)
    requires ValidTheory(theory) && i.rule in theory.rules && j.rule in theory.rules && i.rule.id == j.rule.id
    requires Fires(i, closure.Keys) && Fires(j, closure.Keys) && i != j
    ensures i.sub.Keys == j.sub.Keys && i.sub != j.sub
  {
    SameIdSameRule(theory, i.rule, j.rule);
    assert i == Instance(i.rule, i.sub) && j == Instance(j.rule, j.sub);
  }

  /** The smaller key belongs to the preferred instance. */
  lemma SmallerIsPreferred(sha: Digest, theory: Theory, closure: Closure, i: Instance, j: Instance)
    requires ValidTheory(theory) && i.rule in theory.rules && j.rule in theory.rules && i != j
    requires Fires(i, closure.Keys) && Fires(j, closure.Keys)
    requires Leq(InstanceDerivation(sha, theory, closure, i).choiceKey,
                 InstanceDerivation(sha, theory, closure, j).choiceKey)
    ensures Preferred(sha, theory, closure, i, j)
  {
    hide ValidTheory, InstanceDerivation, Fires, Leq, Before, SubstBefore, SortedItems, BindingsKey, DepthFrom,
      NodesFrom;
    var x := InstanceKeyParts(sha, theory, closure, i);
    var y := InstanceKeyParts(sha, theory, closure, j);
    var bi, bj := BindingsKey(SortedItems(i.sub)), BindingsKey(SortedItems(j.sub));
    var di, dj := DepthFrom(sha, theory, closure, i), DepthFrom(sha, theory, closure, j);
    var ni, nj := NodesFrom(sha, theory, closure, i), NodesFrom(sha, theory, closure, j);
    PairOrder(Num(di), Pair(Num(ni), Pair(Str(i.rule.id), Pair(bi, x))),
              Num(dj), Pair(Num(nj), Pair(Str(j.rule.id), Pair(bj, y))));
    PairOrder(Num(ni), Pair(Str(i.rule.id), Pair(bi, x)), Num(nj), Pair(Str(j.rule.id), Pair(bj, y)));
    PairOrder(Str(i.rule.id), Pair(bi, x), Str(j.rule.id), Pair(bj, y));
    PairOrder(bi, x, bj, y);
    NumberOrder(di, dj);
    NumberOrder(ni, nj);
    StringOrder(i.rule.id, j.rule.id);
    if i.rule.id == j.rule.id {
      SameRuleOtherBindings(theory, closure, i, j);
      SubstOrder(i.sub, j.sub);
      if bi == bj {
        SubstKeyInjective(i.sub, j.sub);
      }
    }
  }

  /** A literal that is not a fact keeps the derivation of the one instance that is preferred to every other
      instance of the whole closure with this conclusion. */
  lemma ChosenIsPreferred(sha: Digest, theory: Theory, closure: Closure, k: nat, l: CanonicalLiteral)
    returns (i: Instance)
    requires ValidTheory(theory) && Layered(sha, theory, closure, k) && l in closure && l !in FactSet(theory)
    ensures Derives(theory, closure, i, l) && closure[l] == InstanceDerivation(sha, theory, closure, i)
    ensures forall j :: Derives(theory, closure, j, l) && j != i ==> Preferred(sha, theory, closure, i, j)
  {
    hide ValidTheory, InstanceDerivation, Fires, Concludes, Leq, Layered, FactSet, Preferred;
    LayeredIsBest(sha, theory, closure, k);
    assert BestRule(sha, theory, closure, closure.Keys, l, closure[l]);
    i :| Offers(sha, theory, closure, closure.Keys, i, l) && closure[l] == InstanceDerivation(sha, theory, closure, i);
    forall j | Derives(theory, closure, j, l) && j != i ensures Preferred(sha, theory, closure, i, j) {
      assert Offers(sha, theory, closure, closure.Keys, j, l);
      SmallerIsPreferred(sha, theory, closure, i, j);
    }
  }

  /** No derivation of the same depth has fewer nodes. */
  lemma FewestNodes(sha: Digest, theory: Theory, closure: Closure, k: nat, l: CanonicalLiteral, j: Instance)
    requires ValidTheory(theory) && Layered(sha, theory, closure, k) && l in closure && l !in FactSet(theory)
    requires Derives(theory, closure, j, l)
    ensures closure[l].depth <= InstanceDerivation(sha, theory, closure, j).depth
    ensures closure[l].depth == InstanceDerivation(sha, theory, closure, j).depth ==>
              |closure[l].nodes| <= |InstanceDerivation(sha, theory, closure, j).nodes|
  {
    hide ValidTheory, InstanceDerivation, Fires, Concludes, Layered, FactSet;
    var i := ChosenIsPreferred(sha, theory, closure, k, l);
  }

  /** A fact keeps the node of the first of its sources, and nothing else. */
  lemma FirstSourceKept(sha: Digest, theory: Theory, closure: Closure, k: nat, l: CanonicalLiteral)
    returns (f: GroundLiteral, id: string)
    requires Layered(sha, theory, closure, k) && l in FactSet(theory)
    ensures l in closure && f in theory.facts && Canonical(f) == l
    ensures closure[l].rootId == id && closure[l].depth == 0
    ensures closure[l].nodes == map[id := SourceFactNode(id, l, f.sourceId, TextOf(theory, f.sourceId), 0)]
    ensures forall g :: g in theory.facts && Canonical(g) == l ==>
              f.sourceId == g.sourceId || Before(f.sourceId, g.sourceId)
  {
    hide Leq, Before, TextOf, RecomputeNodeId;
    assert l in Stage(theory, 0);
    StageMonotone(theory, 0, k);
    assert EntersAt(theory, 0, l);
    assert BestFact(sha, theory, l, closure[l]);
    f :| f in theory.facts && Canonical(f) == l && closure[l] == FactDerivation(sha, theory, f);
    id := closure[l].rootId;
    forall g | g in theory.facts && Canonical(g) == l ensures f.sourceId == g.sourceId || Before(f.sourceId, g.sourceId)
    {
      var d, e := FactDerivation(sha, theory, f), FactDerivation(sha, theory, g);
      FactKeys(sha, theory, f, g);
      StringOrder(f.sourceId, g.sourceId);
    }
  }

  lemma FactKeys(sha: Digest, theory: Theory, f: GroundLiteral, g: GroundLiteral)
    requires Leq(FactDerivation(sha, theory, f).choiceKey, FactDerivation(sha, theory, g).choiceKey)
    ensures f.sourceId == g.sourceId || Leq(Str(f.sourceId), Str(g.sourceId))
  {
    hide Leq;
    var x, y := Str(FactDerivation(sha, theory, f).rootId), Str(FactDerivation(sha, theory, g).rootId);
    PairOrder(Num(0), Pair(Num(1), Pair(Str(f.sourceId), x)), Num(0), Pair(Num(1), Pair(Str(g.sourceId), y)));
    PairOrder(Num(1), Pair(Str(f.sourceId), x), Num(1), Pair(Str(g.sourceId), y));
    PairOrder(Str(f.sourceId), x, Str(g.sourceId), y);
  }

  /** A round takes its instances rule by rule in the order of the ids, and each rule's in the order of their
      bindings. */
  lemma RoundOrder(theory: Theory, known: set<CanonicalLiteral>, i: Instance, j: Instance)
    requires ValidTheory(theory) && i.rule in theory.rules && j.rule in theory.rules && i != j
    requires Matches(i.rule.body, i.sub, known) && Matches(j.rule.body, j.sub, known)
    ensures Precedes(i, j) <==>
              if i.rule.id != j.rule.id then Before(i.rule.id, j.rule.id) else SubstBefore(i.sub, j.sub)
  {
    hide ValidTheory, Leq, Before, SubstBefore, StateKey, PremisesOf, Matches;
    MatchBinds(i.rule.body, i.sub, known);
    MatchBinds(j.rule.body, j.sub, known);
    var x := JoinState(i.sub, PremisesOf(i.rule.body, i.sub));
    var y := JoinState(j.sub, PremisesOf(j.rule.body, j.sub));
    PairOrder(Str(i.rule.id), StateKey(x), Str(j.rule.id), StateKey(y));
    StringOrder(i.rule.id, j.rule.id);
    if i.rule.id == j.rule.id {
      SameIdSameRule(theory, i.rule, j.rule);
      assert i == Instance(i.rule, i.sub) && j == Instance(j.rule, j.sub);
      StateOrder(x, y);
    }
  }

  // ---- What a derivation holds ----

  /** The node ids of the premises of an instance, in the order of its sorted body. */
  ghost function PremiseRoots(closure: Closure, i: Instance): seq<string>
    requires Fires(i, closure.Keys)
  {
    PremisesKnown(i, closure.Keys);
    var ps := PremisesOf(i.rule.body, i.sub);
    seq(|ps|, j requires 0 <= j < |ps| => assert ps[j] in ps; closure[ps[j]].rootId)
  }

  /** All nodes of the premises. */
  ghost function PremiseNodes(closure: Closure, i: Instance): set<string>
    requires Fires(i, closure.Keys)
  {
    set p, id | p in PremisesOf(i.rule.body, i.sub) && p in closure && id in closure[p].nodes :: id
  }

  /** The derivation of an instance has the nodes of its premises and two more: the application, which names the
      rule, its source, the bindings in order and the premises, and the literal it concludes. */
  lemma DerivationHolds(sha: Digest, theory: Theory, closure: Closure, i: Instance) returns (application: string)
    requires Injective(sha) && Fires(i, closure.Keys)
    ensures var d := InstanceDerivation(sha, theory, closure, i);
            var l := Ground(i.rule.head, i.sub);
            && d.literal == l && d.nodes.Keys == PremiseNodes(closure, i) + {application, d.rootId}
            && d.nodes[d.rootId] == DerivedLiteralNode(d.rootId, l, application, d.depth)
            && d.nodes[application] ==
                 RuleApplicationNode(application, i.rule.id, i.rule.sourceId, TextOf(theory, i.rule.sourceId),
                                     SortedItems(i.sub), PremiseRoots(closure, i), l, d.depth)
  {
    hide RuleDerivation, PremisesOf, TextOf, Matches, Injective, SortedItems;
    MatchBinds(i.rule.body, i.sub, closure.Keys);
    PremisesKnown(i, closure.Keys);
    var ds := DerivationsOf(closure, PremisesOf(i.rule.body, i.sub));
    var text := TextOf(theory, i.rule.sourceId);
    application := RuleDerivationHolds(sha, Ground(i.rule.head, i.sub), i.rule, i.sub, ds, text);
    assert RootIds(ds) == PremiseRoots(closure, i);
    PremisesMerged(closure, i);
  }

  lemma RuleDerivationHolds(sha: Digest, l: CanonicalLiteral, rule: Rule, s: Subst, ds: seq<Derivation>, text: string)
    returns (application: string)
    requires Injective(sha) && ds != []
    ensures var d := RuleDerivation(sha, l, rule, s, ds, text);
            && d.literal == l && d.nodes.Keys == MergedNodes(ds).Keys + {application, d.rootId}
            && d.rootId in d.nodes && application in d.nodes
            && d.nodes[d.rootId] == DerivedLiteralNode(d.rootId, l, application, d.depth)
            && d.nodes[application] == RuleApplicationNode(application, rule.id, rule.sourceId, text, SortedItems(s),
                                                           RootIds(ds), l, d.depth)
  {
    hide SortedItems, MaxDepth, MergedNodes, RootIds, Injective, ChoiceKey;
    var node := ApplicationOf(sha, l, rule, s, ds, text);
    application := node.nodeId;
    DifferentIds(sha, node, ConclusionOf(sha, l, node));
  }

  lemma PremisesMerged(closure: Closure, i: Instance)
    requires Fires(i, closure.Keys)
    ensures forall p :: p in PremisesOf(i.rule.body, i.sub) ==> p in closure
    ensures MergedNodes(DerivationsOf(closure, PremisesOf(i.rule.body, i.sub))).Keys == PremiseNodes(closure, i)
  {
    hide PremisesOf, Matches, MergedNodes;
    MatchBinds(i.rule.body, i.sub, closure.Keys);
    PremisesKnown(i, closure.Keys);
    var ps := PremisesOf(i.rule.body, i.sub);
    var ds := DerivationsOf(closure, ps);
    MergedKeys(ds);
    forall id ensures id in MergedNodes(ds) <==> id in PremiseNodes(closure, i) {
      if id in MergedNodes(ds) {
        var j :| 0 <= j < |ds| && id in ds[j].nodes;
        assert ps[j] in ps;
      }
      if id in PremiseNodes(closure, i) {
        var p :| p in ps && p in closure && id in closure[p].nodes;
        var j :| 0 <= j < |ps| && ps[j] == p;
        assert ds[j] == closure[p];
      }
    }
  }

  lemma {:induction false} MergedKeys(ds: seq<Derivation>)
    ensures forall id :: id in MergedNodes(ds) <==> exists j :: 0 <= j < |ds| && id in ds[j].nodes
  {
    if ds != [] {
      var n := |ds| - 1;
      MergedKeys(ds[..n]);
      forall id ensures id in MergedNodes(ds) <==> exists j :: 0 <= j < |ds| && id in ds[j].nodes {
        if id in MergedNodes(ds[..n]) {
          var j :| 0 <= j < n && id in ds[..n][j].nodes;
          assert id in ds[j].nodes;
        }
        if j :| 0 <= j < n && id in ds[j].nodes {
          assert id in ds[..n][j].nodes;
        }
      }
    }
  }

  lemma DifferentIds(sha: Digest, a: ProofNode, b: ProofNode)
    requires Injective(sha) && a.nodeId == RecomputeNodeId(sha, a) && b.nodeId == RecomputeNodeId(sha, b)
    requires a.RuleApplicationNode? && b.DerivedLiteralNode?
    ensures a.nodeId != b.nodeId
  {
  }
}
