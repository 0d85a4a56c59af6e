/** Reordering a theory changes nothing the engine returns; and the engine succeeds exactly when the
    theory fits the limits. */
module OrderInvariance {
  import opened Keys
  import opened Logic
  import opened Semantics
  import opened Unification
  import opened Proofs
  import opened Checks
  import opened Choices
  import opened Rounds
  import opened Engine

  // ---- Theories that differ only in order ----

  /** The same rule with its variables and its body in another order. */
  ghost predicate SameRule(a: Rule, b: Rule) {
    && a.id == b.id && a.head == b.head && a.sourceId == b.sourceId
    && multiset(a.body) == multiset(b.body) && multiset(a.variables) == multiset(b.variables)
  }

  ghost predicate RulesCovered(a: seq<Rule>, b: seq<Rule>) {
    forall r :: r in a ==> exists q :: q in b && SameRule(r, q)
  }

  /** The same theory with its lists in another order. */
  ghost predicate Reordered(a: Theory, b: Theory) {
    && a.theoryId == b.theoryId && a.query == b.query
    && multiset(a.sources) == multiset(b.sources)
    && multiset(a.entities) == multiset(b.entities)
    && multiset(a.predicates) == multiset(b.predicates)
    && multiset(a.facts) == multiset(b.facts)
    && RulesCovered(a.rules, b.rules) && RulesCovered(b.rules, a.rules)
  }

  lemma ReorderedSymmetric(a: Theory, b: Theory)
    requires Reordered(a, b)
    ensures Reordered(b, a)
  {
  }

  lemma ReorderedReflexive(a: Theory)
    ensures Reordered(a, a)
  {
    forall r | r in a.rules ensures exists q :: q in a.rules && SameRule(r, q) {
      assert SameRule(r, r);
    }
  }

  lemma SameBodyElements(a: seq<RuleLiteral>, b: seq<RuleLiteral>)
    requires multiset(a) == multiset(b)
    ensures BodyVars(a) == BodyVars(b) && |a| == |b| && SortedBody(a) == SortedBody(b)
    ensures forall x :: x in a <==> x in b
  {
    SameElements(a, b);
    LiteralKeysInjective();
    SortByOrderFree(a, b, RuleLiteralKey);
  }

  lemma SameRuleMatches(r: Rule, q: Rule, s: Subst, known: set<CanonicalLiteral>)
    requires SameRule(r, q)
    ensures Matches(r.body, s, known) <==> Matches(q.body, s, known)
    ensures Fires(Instance(r, s), known) <==> Fires(Instance(q, s), known)
    ensures BodyVars(r.body) <= s.Keys ==> BodyVars(q.body) <= s.Keys && PremisesOf(r.body, s) == PremisesOf(q.body, s)
  {
    SameBodyElements(r.body, q.body);
    if BodyVars(r.body) <= s.Keys {
      var a, b := PremisesOf(r.body, s), PremisesOf(q.body, s);
      forall j | 0 <= j < |a| ensures a[j] == b[j] {
        assert SortedBodyAt(r.body, j, s) == SortedBodyAt(q.body, j, s);
      }
    }
  }

  // ---- Stages ----

  lemma FactsReordered(a: Theory, b: Theory)
    requires Reordered(a, b)
    ensures FactSet(a) == FactSet(b) && |a.facts| == |b.facts|
    ensures forall f :: f in a.facts <==> f in b.facts
  {
    SameElements(a.facts, b.facts);
  }

  lemma HeadsCovered(a: seq<Rule>, b: seq<Rule>, known: set<CanonicalLiteral>)
    requires RulesCovered(a, b)
    ensures Heads(Instances(a, known)) <= Heads(Instances(b, known))
  {
    hide Matches, SameRule, Instances;
    forall l | l in Heads(Instances(a, known)) ensures l in Heads(Instances(b, known)) {
      var i :| i in Instances(a, known) && Vars(i.rule.head) <= i.sub.Keys && Ground(i.rule.head, i.sub) == l;
      InstancesExact(a, known, i.rule, i.sub);
      var q :| q in b && SameRule(i.rule, q);
      SameRuleMatches(i.rule, q, i.sub, known);
      SameRuleHead(i.rule, q);
      InstancesExact(b, known, q, i.sub);
      assert Instance(q, i.sub) in Instances(b, known);
    }
  }

  lemma SameRuleHead(r: Rule, q: Rule)
    requires SameRule(r, q)
    ensures r.head == q.head && r.id == q.id && r.sourceId == q.sourceId
  {
  }

  /** Every round derives the same literals. */
  lemma {:induction false} StagesReordered(a: Theory, b: Theory, k: nat)
    requires Reordered(a, b)
    ensures Stage(a, k) == Stage(b, k)
  {
    hide Heads, Instances, Reordered;
    if k == 0 {
      FactsReordered(a, b);
    } else {
      StagesReordered(a, b, k - 1);
      RulesBothWays(a, b);
      HeadsCovered(a.rules, b.rules, Stage(a, k - 1));
      HeadsCovered(b.rules, a.rules, Stage(a, k - 1));
    }
  }

  lemma RulesBothWays(a: Theory, b: Theory)
    requires Reordered(a, b)
    ensures RulesCovered(a.rules, b.rules) && RulesCovered(b.rules, a.rules)
  {
  }

  // ---- Counting instances ----

  /** The same instance in the other theory, found by rule id. */
  function Translate(rules: map<string, Rule>, i: Instance): Instance
    requires i.rule.id in rules
  {
    Instance(rules[i.rule.id], i.sub)
  }

  lemma PartnerById(a: Theory, b: Theory, r: Rule)
    requires ValidTheory(b) && RulesCovered(a.rules, b.rules) && r in a.rules
    ensures r.id in RulesById(b) && RulesById(b)[r.id] in b.rules && SameRule(r, RulesById(b)[r.id])
  {
    var q :| q in b.rules && SameRule(r, q);
    LookupDistinct(b.rules, RULE_ID);
    assert RULE_ID(q) in RulesById(b);
  }

  lemma InstanceCountAtMost(a: Theory, b: Theory, known: set<CanonicalLiteral>)
    requires ValidTheory(a) && ValidTheory(b) && RulesCovered(a.rules, b.rules)
    ensures |Instances(a.rules, known)| <= |Instances(b.rules, known)|
  {
    hide ValidTheory, Matches, RulesById, Instances, SameRule, RulesCovered;
    var from, to := Instances(a.rules, known), Instances(b.rules, known);
    forall i | i in from
      ensures i.rule in a.rules && i.rule.id in RulesById(b) && Translate(RulesById(b), i) in to
      ensures Translate(RulesById(b), i).rule.id == i.rule.id
    {
      InstancesExact(a.rules, known, i.rule, i.sub);
      PartnerById(a, b, i.rule);
      var q := RulesById(b)[i.rule.id];
      SameRuleMatches(i.rule, q, i.sub, known);
      SameRuleHead(i.rule, q);
      InstancesExact(b.rules, known, q, i.sub);
    }
    forall i, j | i in from && j in from && Translate(RulesById(b), i) == Translate(RulesById(b), j) ensures i == j {
      SameIdSameRule(a, i.rule, j.rule);
    }
    var image := set i | i in from :: Translate(RulesById(b), i);
    InjectiveImage(from, image, RulesById(b));
    SubsetSize(image, to);
  }

  lemma {:induction false} InjectiveImage(from: set<Instance>, image: set<Instance>, rules: map<string, Rule>)
    requires forall i :: i in from ==> i.rule.id in rules
    requires forall i, j :: i in from && j in from && Translate(rules, i) == Translate(rules, j) ==> i == j
    requires image == set i | i in from :: Translate(rules, i)
    ensures |image| == |from|
    decreases |from|
  {
    if from == {} {
      assert image == {};
    } else {
      var i :| i in from;
      var rest := from - {i};
      var smaller := set j | j in rest :: Translate(rules, j);
      InjectiveImage(rest, smaller, rules);
      assert image == smaller + {Translate(rules, i)};
    }
  }

  lemma InstanceCountReordered(a: Theory, b: Theory, known: set<CanonicalLiteral>)
    requires ValidTheory(a) && ValidTheory(b) && Reordered(a, b)
    ensures |Instances(a.rules, known)| == |Instances(b.rules, known)|
  {
    hide ValidTheory, Instances;
    InstanceCountAtMost(a, b, known);
    InstanceCountAtMost(b, a, known);
  }

  // ---- Choices ----

  lemma TextReordered(a: Theory, b: Theory, id: string)
    requires ValidTheory(a) && ValidTheory(b) && Reordered(a, b)
    ensures TextOf(a, id) == TextOf(b, id) && SourceText(a, id) == SourceText(b, id)
  {
    SameElements(a.sources, b.sources);
    LookupOrderFree(a.sources, b.sources, SOURCE_ID);
  }

  /** Two closures agree on the literals of `known`. */
  ghost predicate Agree(a: Closure, b: Closure, known: set<CanonicalLiteral>) {
    known <= a.Keys && known <= b.Keys && forall l :: l in known ==> a[l] == b[l]
  }

  /** The same rule under the same substitution offers the same derivation in both theories. */
  lemma SameOffer(sha: Digest, a: Theory, b: Theory, ca: Closure, cb: Closure, known: set<CanonicalLiteral>,
                  i: Instance, q: Rule, l: CanonicalLiteral)
    requires ValidTheory(a) && ValidTheory(b) && Reordered(a, b) && Agree(ca, cb, known)
    requires Offers(sha, a, ca, known, i, l) && q in b.rules && SameRule(i.rule, q)
    ensures Offers(sha, b, cb, known, Instance(q, i.sub), l)
    ensures Fires(i, ca.Keys) && Fires(Instance(q, i.sub), cb.Keys)
    ensures InstanceDerivation(sha, a, ca, i) == InstanceDerivation(sha, b, cb, Instance(q, i.sub))
  {
    hide ValidTheory, Reordered, TextOf, RuleDerivation;
    SameRuleMatches(i.rule, q, i.sub, known);
    MatchesMonotone(i.rule.body, i.sub, known, ca.Keys);
    MatchesMonotone(q.body, i.sub, known, cb.Keys);
    TextReordered(a, b, i.rule.sourceId);
    PremisesKnown(i, known);
    var ps := PremisesOf(i.rule.body, i.sub);
    forall j | 0 <= j < |ps| ensures ca[ps[j]] == cb[ps[j]] {
      assert ps[j] in ps;
    }
    assert DerivationsOf(ca, ps) == DerivationsOf(cb, ps);
    SameRuleDerivation(sha, l, i.rule, q, i.sub, DerivationsOf(ca, ps), TextOf(a, i.rule.sourceId));
  }

  lemma SameRuleDerivation(sha: Digest, l: CanonicalLiteral, r: Rule, q: Rule, s: Subst, ds: seq<Derivation>,
                           text: string)
    requires SameRule(r, q) && ds != []
    ensures RuleDerivation(sha, l, r, s, ds, text) == RuleDerivation(sha, l, q, s, ds, text)
  {
  }

  /** Instances with the same choice key are the same instance, so the least choice is unique. */
  lemma ChoiceKeyDetermines(sha: Digest, theory: Theory, closure: Closure, i: Instance, j: Instance)
    requires ValidTheory(theory) && i.rule in theory.rules && j.rule in theory.rules
    requires Fires(i, closure.Keys) && Fires(j, closure.Keys)
    requires InstanceDerivation(sha, theory, closure, i).choiceKey ==
        InstanceDerivation(sha, theory, closure, j).choiceKey
    ensures i == j
  {
    hide ValidTheory, PremisesOf, Matches, MergedNodes, SortedItems, MaxDepth;
    SameIdSameRule(theory, i.rule, j.rule);
    SubstKeyInjective(i.sub, j.sub);
  }

  /** The best derivation of a literal is the same in both theories. */
  lemma BestRuleUnique(sha: Digest, a: Theory, b: Theory, ca: Closure, cb: Closure, known: set<CanonicalLiteral>,
                       l: CanonicalLiteral, da: Derivation, db: Derivation)
    requires ValidTheory(a) && ValidTheory(b) && Reordered(a, b) && Agree(ca, cb, known)
    requires BestRule(sha, a, ca, known, l, da) && BestRule(sha, b, cb, known, l, db)
    ensures da == db
  {
    hide ValidTheory, InstanceDerivation, Leq, Offers, Agree, SameRule, BestRule, Reordered;
    var i := BestRuleWitness(sha, a, ca, known, l, da);
    var j := BestRuleWitness(sha, b, cb, known, l, db);
    ReorderedSymmetric(a, b);
    AgreeSymmetric(ca, cb, known);
    var p := Partner(a, b, i.rule);
    SameOffer(sha, a, b, ca, cb, known, i, p, l);
    BestRuleLeast(sha, b, cb, known, l, db, Instance(p, i.sub));
    var q := Partner(b, a, j.rule);
    SameOffer(sha, b, a, cb, ca, known, j, q, l);
    BestRuleLeast(sha, a, ca, known, l, da, Instance(q, j.sub));
    Antisymmetric(da.choiceKey, db.choiceKey);
    ChoiceKeyDetermines(sha, a, ca, i, Instance(q, j.sub));
  }

  lemma Partner(a: Theory, b: Theory, r: Rule) returns (q: Rule)
    requires Reordered(a, b) && r in a.rules
    ensures q in b.rules && SameRule(r, q)
  {
    q :| q in b.rules && SameRule(r, q);
  }

  lemma BestRuleWitness(sha: Digest, theory: Theory, closure: Closure,
                        known: set<CanonicalLiteral>, l: CanonicalLiteral, d: Derivation) returns (i: Instance)
    requires BestRule(sha, theory, closure, known, l, d)
    ensures Offers(sha, theory, closure, known, i, l) && i.rule in theory.rules && Fires(i, closure.Keys)
    ensures d == InstanceDerivation(sha, theory, closure, i)
  {
    hide InstanceDerivation, Leq;
    i :| Offers(sha, theory, closure, known, i, l) && d == InstanceDerivation(sha, theory, closure, i);
  }

  lemma BestRuleLeast(sha: Digest, theory: Theory, closure: Closure, known: set<CanonicalLiteral>,
                      l: CanonicalLiteral, d: Derivation, i: Instance)
    requires BestRule(sha, theory, closure, known, l, d) && Offers(sha, theory, closure, known, i, l)
    ensures i.rule in theory.rules && Fires(i, closure.Keys)
    ensures Leq(d.choiceKey, InstanceDerivation(sha, theory, closure, i).choiceKey)
  {
    hide InstanceDerivation, Leq;
  }

  lemma AgreeSymmetric(a: Closure, b: Closure, known: set<CanonicalLiteral>)
    requires Agree(a, b, known)
    ensures Agree(b, a, known)
  {
  }

  lemma BestFactUnique(sha: Digest, a: Theory, b: Theory, l: CanonicalLiteral, da: Derivation, db: Derivation)
    requires ValidTheory(a) && ValidTheory(b) && Reordered(a, b)
    requires BestFact(sha, a, l, da) && BestFact(sha, b, l, db)
    ensures da == db
  {
    hide ValidTheory, SourceDerivation, Leq, Reordered, TextOf;
    var f :| f in a.facts && Canonical(f) == l && da == FactDerivation(sha, a, f);
    var g :| g in b.facts && Canonical(g) == l && db == FactDerivation(sha, b, g);
    FactsReordered(a, b);
    TextReordered(a, b, f.sourceId);
    TextReordered(a, b, g.sourceId);
    Antisymmetric(da.choiceKey, db.choiceKey);
    SourceKeyDetermines(sha, a, f, g);
  }

  lemma SourceKeyDetermines(sha: Digest, theory: Theory, f: GroundLiteral, g: GroundLiteral)
    requires Canonical(f) == Canonical(g)
    requires FactDerivation(sha, theory, f).choiceKey == FactDerivation(sha, theory, g).choiceKey
    ensures FactDerivation(sha, theory, f) == FactDerivation(sha, theory, g)
  {
    hide TextOf;
  }

  /** Two layered closures of reordered theories agree wherever both are defined. */
  lemma {:induction false} LayeredAgree(sha: Digest, a: Theory, b: Theory, ca: Closure, cb: Closure, j: nat, k: nat,
                                        e: nat, l: CanonicalLiteral)
    requires ValidTheory(a) && ValidTheory(b) && Reordered(a, b)
    requires Layered(sha, a, ca, j) && Layered(sha, b, cb, k) && e <= j && e <= k && EntersAt(a, e, l)
    ensures l in ca && l in cb && ca[l] == cb[l]
    decreases e, 0
  {
    hide ValidTheory, BestFact, BestRule, Reordered, Step, FactSet;
    StagesReordered(a, b, e);
    if e > 0 {
      StagesReordered(a, b, e - 1);
    }
    assert ChosenAt(sha, a, ca, e, l) && ChosenAt(sha, b, cb, e, l);
    if e == 0 {
      BestFactUnique(sha, a, b, l, ca[l], cb[l]);
    } else {
      AgreeUpTo(sha, a, b, ca, cb, j, k, e - 1);
      BestRuleUnique(sha, a, b, ca, cb, Stage(a, e - 1), l, ca[l], cb[l]);
    }
  }

  lemma {:induction false} AgreeUpTo(sha: Digest, a: Theory, b: Theory, ca: Closure, cb: Closure, j: nat, k: nat,
                                     e: nat)
    requires ValidTheory(a) && ValidTheory(b) && Reordered(a, b)
    requires Layered(sha, a, ca, j) && Layered(sha, b, cb, k) && e <= j && e <= k
    ensures Agree(ca, cb, Stage(a, e))
    decreases e, 1
  {
    hide ValidTheory, Reordered, Stage, ChosenAt;
    StagesReordered(a, b, e);
    StageMonotone(a, e, j);
    StageMonotone(b, e, k);
    forall l | l in Stage(a, e) ensures ca[l] == cb[l] {
      var r := EntryRound(sha, a, ca, j, e, l);
      LayeredAgree(sha, a, b, ca, cb, j, k, r, l);
    }
  }

  // ---- The canonical theory ----

  lemma CanonicalRuleSame(r: Rule, q: Rule)
    requires SameRule(r, q) && DistinctIds(r.variables, VARIABLE_NAME)
    ensures CanonicalRule(r) == CanonicalRule(q)
  {
    hide Leq;
    SameBodyElements(r.body, q.body);
    DistinctTellsApart(r.variables, VARIABLE_NAME, VARIABLE_KEY);
    SortByOrderFree(r.variables, q.variables, VARIABLE_KEY);
  }

  lemma DistinctTellsApart<T>(xs: seq<T>, id: T -> string, key: T -> Key)
    requires DistinctIds(xs, id) && forall x :: x in xs ==> key(x) == Str(id(x))
    ensures KeyTellsApart(xs, key)
  {
    forall i, j | 0 <= i < |xs| && 0 <= j < |xs| && key(xs[i]) == key(xs[j]) ensures xs[i] == xs[j] {
      assert xs[i] in xs && xs[j] in xs;
      assert id(xs[i]) == id(xs[j]);
      assert !(i < j) && !(j < i);
    }
  }

  lemma CanonicalRulesReordered(a: Theory, b: Theory)
    requires ValidTheory(a) && ValidTheory(b) && Reordered(a, b)
    ensures SortBy(CanonicalEach(a.rules), RULE_KEY) == SortBy(CanonicalEach(b.rules), RULE_KEY)
  {
    hide ValidTheory, CanonicalEach, RulesCovered, Leq;
    CanonicalListed(a);
    CanonicalListed(b);
    CanonicalCovered(a, b);
    CanonicalCovered(b, a);
    NoDuplicatesMultiset(CanonicalEach(a.rules), CanonicalEach(b.rules));
    SortByOrderFree(CanonicalEach(a.rules), CanonicalEach(b.rules), RULE_KEY);
  }

  lemma CanonicalListed(a: Theory)
    requires ValidTheory(a)
    ensures NoDuplicates(CanonicalEach(a.rules)) && KeyTellsApart(CanonicalEach(a.rules), RULE_KEY)
  {
    var xs := CanonicalEach(a.rules);
    forall i, j | 0 <= i < j < |xs| ensures RULE_ID(xs[i]) != RULE_ID(xs[j]) {
      assert RULE_ID(a.rules[i]) != RULE_ID(a.rules[j]);
    }
    assert DistinctIds(xs, RULE_ID);
    DistinctTellsApart(xs, RULE_ID, RULE_KEY);
    forall i, j | 0 <= i < j < |xs| ensures xs[i] != xs[j] {
      assert RULE_ID(xs[i]) != RULE_ID(xs[j]);
    }
  }

  lemma CanonicalCovered(a: Theory, b: Theory)
    requires ValidTheory(a) && RulesCovered(a.rules, b.rules)
    ensures forall r :: r in CanonicalEach(a.rules) ==> r in CanonicalEach(b.rules)
  {
    hide CanonicalRule, SameRule, ValidTheory;
    var xs, ys := CanonicalEach(a.rules), CanonicalEach(b.rules);
    forall r | r in xs ensures r in ys {
      var i :| 0 <= i < |xs| && xs[i] == r;
      assert a.rules[i] in a.rules;
      var q :| q in b.rules && SameRule(a.rules[i], q);
      RuleVariablesDistinct(a, a.rules[i]);
      CanonicalRuleSame(a.rules[i], q);
      var j :| 0 <= j < |b.rules| && b.rules[j] == q;
      assert ys[j] == r;
    }
  }

  lemma RuleVariablesDistinct(a: Theory, r: Rule)
    requires ValidTheory(a) && r in a.rules
    ensures DistinctIds(r.variables, VARIABLE_NAME)
  {
    assert RuleValid(r, Declared(a));
  }

  /** The theory hash does not depend on the order of the lists. */
  lemma TheoryHashReordered(sha: Digest, a: Theory, b: Theory)
    requires ValidTheory(a) && ValidTheory(b) && Reordered(a, b)
    ensures TheoryHash(sha, a) == TheoryHash(sha, b)
  {
    hide Leq, RulesCovered, CanonicalEach;
    CanonicalRulesReordered(a, b);
    DistinctTellsApart(a.sources, SOURCE_ID, SOURCE_KEY);
    SortByOrderFree(a.sources, b.sources, SOURCE_KEY);
    DistinctTellsApart(a.entities, ENTITY_ID, ENTITY_KEY);
    SortByOrderFree(a.entities, b.entities, ENTITY_KEY);
    DistinctTellsApart(a.predicates, PREDICATE_NAME, PREDICATE_KEY);
    SortByOrderFree(a.predicates, b.predicates, PREDICATE_KEY);
    LiteralKeysInjective();
    SortByOrderFree(a.facts, b.facts, FactKey);
  }

  // ---- Reordering changes nothing ----

  lemma SameRoundCount(a: Theory, b: Theory, j: nat, k: nat)
    requires Reordered(a, b) && ProductiveRounds(a, j) && ProductiveRounds(b, k)
    ensures j == k
  {
    hide Stage, Reordered;
    StagesReordered(a, b, j);
    StagesReordered(a, b, j + 1);
    StagesReordered(a, b, k);
    StagesReordered(a, b, k + 1);
    if j < k {
      StageGrowsUnfold(b, j);
    } else if k < j {
      StageGrowsUnfold(a, k);
    }
  }

  /** Reordered theories have the same closure with the same chosen derivations. */
  lemma ClosuresReordered(sha: Digest, a: Theory, b: Theory, ca: Closure, cb: Closure, k: nat)
    requires ValidTheory(a) && ValidTheory(b) && Reordered(a, b)
    requires Layered(sha, a, ca, k) && Layered(sha, b, cb, k)
    ensures ca == cb
  {
    hide ValidTheory, Reordered, Stage, ChosenAt;
    AgreeUpTo(sha, a, b, ca, cb, k, k, k);
    StagesReordered(a, b, k);
  }

  lemma TelemetryReordered(sha: Digest, a: Theory, b: Theory, closure: Closure, t: Telemetry, u: Telemetry, k: nat)
    requires ValidTheory(a) && ValidTheory(b) && Reordered(a, b)
    requires TelemetryOk(a, closure, t, k) && TelemetryOk(b, closure, u, k)
    ensures t == u
  {
    hide ValidTheory, Reordered, Instances, Conflicts;
    FactsReordered(a, b);
    InstanceCountReordered(a, b, closure.Keys);
  }

  /** Permuting facts, rules, rule bodies, variable lists, sources, entities or predicates leaves the
      whole output of `reason` unchanged: status, proof, hashes and every counter. */
  lemma ReasoningReordered(sha: Digest, a: Theory, b: Theory, la: Limits, lb: Limits, oa: ReasoningOutput,
                           ob: ReasoningOutput)
    requires ValidTheory(a) && ValidTheory(b) && Reordered(a, b)
    requires IsReasoning(sha, a, la, oa) && IsReasoning(sha, b, lb, ob)
    ensures oa == ob
  {
    hide ValidTheory, Layered, BestProofs, WithinLimits, TelemetryOk, ProductiveRounds, Reordered, ProofOf, Conflicts;
    var j, k := oa.telemetry.rounds, ob.telemetry.rounds;
    var ca :| BestClosure(sha, a, ca, j) && oa.result == ResultFrom(sha, a, ca) && TelemetryOk(a, ca, oa.telemetry, j);
    var cb :| BestClosure(sha, b, cb, k) && ob.result == ResultFrom(sha, b, cb) && TelemetryOk(b, cb, ob.telemetry, k);
    SameRoundCount(a, b, j, k);
    ClosuresReordered(sha, a, b, ca, cb, k);
    TelemetryReordered(sha, a, b, ca, oa.telemetry, ob.telemetry, k);
    SameResult(sha, a, b, ca);
  }

  lemma SameResult(sha: Digest, a: Theory, b: Theory, closure: Closure)
    requires ValidTheory(a) && ValidTheory(b) && Reordered(a, b)
    ensures ResultFrom(sha, a, closure) == ResultFrom(sha, b, closure)
  {
    hide ValidTheory, TheoryHash, RulesCovered, OrderedNodes, Conflicts;
    TheoryHashReordered(sha, a, b);
  }

  /** The same for `saturate`: closure with its derivations, conflicts and counters. */
  lemma SaturationReordered(sha: Digest, a: Theory, b: Theory, la: Limits, lb: Limits, sa: SaturationState,
                            sb: SaturationState)
    requires ValidTheory(a) && ValidTheory(b) && Reordered(a, b)
    requires IsSaturation(sha, a, la, sa) && IsSaturation(sha, b, lb, sb)
    ensures sa == sb
  {
    hide ValidTheory, Layered, BestProofs, WithinLimits, TelemetryOk, ProductiveRounds, Reordered, Conflicts,
      LiteralKey, Leq;
    SameRoundCount(a, b, sa.telemetry.rounds, sb.telemetry.rounds);
    ClosuresReordered(sha, a, b, sa.closure, sb.closure, sa.telemetry.rounds);
    TelemetryReordered(sha, a, b, sa.closure, sa.telemetry, sb.telemetry, sa.telemetry.rounds);
    StrictlySortedUnique(sa.conflicts, sb.conflicts, LiteralKey);
  }

  // ---- The limits are exact ----

  /** A theory whose closure fits the limits exceeds none of them. */
  lemma FittingExceeds(sha: Digest, theory: Theory, limits: Limits, closure: Closure, k: nat, e: LimitError)
    requires ValidTheory(theory) && closure.Keys == ModelOf(theory) && ProductiveRounds(theory, k)
    requires Layered(sha, theory, closure, k) && WithinLimits(sha, theory, limits, closure, k)
    ensures !Exceeds(sha, theory, limits, e)
  {
    hide ValidTheory, Stage, Instances, InstanceDerivation, Layered, AllNodesBounded;
    if Exceeds(sha, theory, limits, e) {
      match e.name
      case MaxDerivedLiterals =>
        var j: nat :| |Stage(theory, j)| == e.observed;
        StageInModel(theory, j);
        SubsetSize(Stage(theory, j), closure.Keys);
      case MaxRuleFirings =>
        var j: nat :| e.observed <= |Instances(theory.rules, Stage(theory, j))|;
        StageInModel(theory, j);
        InstancesMonotone(theory.rules, Stage(theory, j), closure.Keys);
        SubsetSize(Instances(theory.rules, Stage(theory, j)), Instances(theory.rules, closure.Keys));
      case MaxRounds =>
        GrowthBeforeEnd(theory, k, e.limit);
      case MaxProofNodes =>
        var j, c, i: Instance :| Layered(sha, theory, c, j) && i.rule in theory.rules && Fires(i, c.Keys)
          && |InstanceDerivation(sha, theory, c, i).nodes| == e.observed;
        SameNodesLater(sha, theory, c, j, closure, k, i);
        FiringInstance(theory, closure, i);
        BoundedNodes(sha, theory, closure, i, limits.maxProofNodes);
    }
  }

  /** So `_saturate` succeeds exactly on the theories that fit. */
  lemma FittingExceedsNothing(sha: Digest, theory: Theory, limits: Limits, s: SaturationState, e: LimitError)
    requires ValidTheory(theory) && IsSaturation(sha, theory, limits, s)
    ensures !Exceeds(sha, theory, limits, e)
  {
    hide ValidTheory, Layered, ProductiveRounds, WithinLimits, Exceeds, BestProofs, TelemetryOk, Conflicts;
    FittingExceeds(sha, theory, limits, s.closure, s.telemetry.rounds, e);
  }

  lemma BoundedNodes(sha: Digest, theory: Theory, closure: Closure, i: Instance, limit: nat)
    requires AllNodesBounded(sha, theory, closure, closure.Keys, limit)
    requires i in Instances(theory.rules, closure.Keys) && Fires(i, closure.Keys)
    ensures |InstanceDerivation(sha, theory, closure, i).nodes| <= limit
  {
    hide Instances, InstanceDerivation, Fires;
    assert NodesBounded(sha, theory, closure, i, limit);
  }

  lemma GrowthBeforeEnd(theory: Theory, k: nat, n: nat)
    requires ProductiveRounds(theory, k) && StageGrowsAt(theory, n)
    ensures n < k
  {
    hide Stage;
    if k <= n {
      StageFixed(theory, k, n);
      StageFixed(theory, k, n + 1);
    }
  }

  /** An instance offers the same derivation in an earlier layered closure as in the final one. */
  lemma SameNodesLater(sha: Digest, theory: Theory, c: Closure, j: nat, final: Closure, k: nat, i: Instance)
    requires ValidTheory(theory) && Layered(sha, theory, c, j) && Layered(sha, theory, final, k)
    requires ProductiveRounds(theory, k) && i.rule in theory.rules && Fires(i, c.Keys)
    ensures Fires(i, final.Keys)
    ensures InstanceDerivation(sha, theory, final, i) == InstanceDerivation(sha, theory, c, i)
  {
    hide ValidTheory, Stage, ChosenAt, EntersAt, InstanceDerivation, StageGrowsAt;
    ReorderedReflexive(theory);
    var e := if j <= k then j else k;
    AgreeUpTo(sha, theory, theory, c, final, j, k, e);
    if j <= k {
      StageMonotone(theory, j, k);
    } else {
      StageFixed(theory, k, j);
    }
    InstanceDerivationStable(sha, theory, c, final, i);
  }
}
