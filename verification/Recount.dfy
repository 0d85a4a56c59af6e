/** The limits of the engine and of the verifier compared: every theory has limits under which the engine
    succeeds, and the verifier's recount exceeds the tight firing limit exactly when a round was productive. */
module Recount {
  import opened Keys
  import opened Logic
  import opened Semantics
  import opened Proofs
  import opened Checks
  import opened Choices
  import opened Rounds
  import opened Engine
  import opened Typing

  // ---- The recount ----

  lemma StepOfNothing(theory: Theory, known: set<CanonicalLiteral>)
    requires Instances(theory.rules, known) == {}
    ensures Step(theory, known) == known
  {
    hide Instances;
    assert Heads(Instances(theory.rules, known)) == {};
  }

  lemma GrowthHasInstance(theory: Theory, j: nat)
    requires StageGrowsAt(theory, j)
    ensures |Instances(theory.rules, Stage(theory, j))| > 0
  {
    hide Instances, Step;
    if Instances(theory.rules, Stage(theory, j)) == {} {
      StepOfNothing(theory, Stage(theory, j));
    }
  }

  lemma NaiveFiringsUnfold(theory: Theory, k: nat)
    ensures NaiveFirings(theory, k) >= |Instances(theory.rules, Stage(theory, k))|
    ensures k == 0 ==> NaiveFirings(theory, k) == |Instances(theory.rules, Stage(theory, k))|
    ensures k > 0 ==> NaiveFirings(theory, k) ==
                        |Instances(theory.rules, Stage(theory, k))| + NaiveFirings(theory, k - 1)
  {
    hide Instances, Stage;
  }

  /** The verifier counts more firings than the engine exactly when some round was productive. */
  lemma RecountExceedsIff(theory: Theory, k: nat)
    requires ProductiveRounds(theory, k)
    ensures NaiveFirings(theory, k) > |Instances(theory.rules, Stage(theory, k))| <==> k > 0
  {
    hide Instances, Stage, NaiveFirings;
    NaiveFiringsUnfold(theory, k);
    if k > 0 {
      assert StageGrowsAt(theory, k - 1);
      GrowthHasInstance(theory, k - 1);
      NaiveFiringsUnfold(theory, k - 1);
    }
  }

  // ---- Every theory has a best closure ----

  lemma FactKeyLeast(sha: Digest, theory: Theory, l: CanonicalLiteral) returns (d: Derivation)
    requires l in FactSet(theory)
    ensures BestFact(sha, theory, l, d)
  {
    hide FactDerivation, Leq;
    var facts := set f | f in theory.facts && Canonical(f) == l;
    var keys := set f | f in facts :: FactDerivation(sha, theory, f).choiceKey;
    var any :| any in theory.facts && Canonical(any) == l;
    assert FactDerivation(sha, theory, any).choiceKey in keys;
    var least := Minimum(keys);
    var f :| f in facts && FactDerivation(sha, theory, f).choiceKey == least;
    d := FactDerivation(sha, theory, f);
    forall g | g in theory.facts && Canonical(g) == l
      ensures Leq(d.choiceKey, FactDerivation(sha, theory, g).choiceKey)
    {
      assert FactDerivation(sha, theory, g).choiceKey in keys;
    }
  }

  ghost function BestFactOf(sha: Digest, theory: Theory, l: CanonicalLiteral): (d: Derivation)
    requires l in FactSet(theory)
    ensures BestFact(sha, theory, l, d)
  {
    assert exists d :: BestFact(sha, theory, l, d) by {
      var d := FactKeyLeast(sha, theory, l);
    }
    var d :| BestFact(sha, theory, l, d);
    d
  }

  /** The instances over the closure that conclude `l`. */
  ghost function Concluding(theory: Theory, known: set<CanonicalLiteral>, l: CanonicalLiteral): set<Instance> {
    set i | i in Instances(theory.rules, known) && Concludes(i, l)
  }

  lemma ConcludingOffers(sha: Digest, theory: Theory, closure: Closure, l: CanonicalLiteral, i: Instance)
    requires SafeRules(theory.rules)
    ensures i in Concluding(theory, closure.Keys, l) <==> Offers(sha, theory, closure, closure.Keys, i, l)
    ensures i in Concluding(theory, closure.Keys, l) ==> Fires(i, closure.Keys)
  {
    hide Matches, Instances;
    assert i == Instance(i.rule, i.sub);
    InstancesExact(theory.rules, closure.Keys, i.rule, i.sub);
  }

  lemma RuleKeyLeast(sha: Digest, theory: Theory, closure: Closure, l: CanonicalLiteral) returns (d: Derivation)
    requires SafeRules(theory.rules) && Concluding(theory, closure.Keys, l) != {}
    ensures BestRule(sha, theory, closure, closure.Keys, l, d)
  {
    hide InstanceDerivation, Leq, Concluding, Offers, Fires, SafeRules;
    var offers := Concluding(theory, closure.Keys, l);
    forall i ensures i in offers <==> Offers(sha, theory, closure, closure.Keys, i, l)
             ensures i in offers ==> Fires(i, closure.Keys)
    {
      ConcludingOffers(sha, theory, closure, l, i);
    }
    var keys := set i | i in offers :: InstanceDerivation(sha, theory, closure, i).choiceKey;
    var any :| any in offers;
    assert InstanceDerivation(sha, theory, closure, any).choiceKey in keys;
    var least := Minimum(keys);
    var i :| i in offers && InstanceDerivation(sha, theory, closure, i).choiceKey == least;
    d := InstanceDerivation(sha, theory, closure, i);
    forall j | Offers(sha, theory, closure, closure.Keys, j, l)
      ensures Leq(d.choiceKey, InstanceDerivation(sha, theory, closure, j).choiceKey)
    {
      assert InstanceDerivation(sha, theory, closure, j).choiceKey in keys;
    }
  }

  ghost function BestRuleOf(sha: Digest, theory: Theory, closure: Closure, l: CanonicalLiteral): (d: Derivation)
    requires SafeRules(theory.rules) && Concluding(theory, closure.Keys, l) != {}
    ensures BestRule(sha, theory, closure, closure.Keys, l, d)
  {
    assert exists d :: BestRule(sha, theory, closure, closure.Keys, l, d) by {
      var d := RuleKeyLeast(sha, theory, closure, l);
    }
    var d :| BestRule(sha, theory, closure, closure.Keys, l, d);
    d
  }

  lemma NewIsConcluded(theory: Theory, known: set<CanonicalLiteral>, l: CanonicalLiteral)
    requires l in Step(theory, known) && l !in known
    ensures Concluding(theory, known, l) != {}
  {
    hide Instances;
    var i :| i in Instances(theory.rules, known) && Vars(i.rule.head) <= i.sub.Keys && Ground(i.rule.head, i.sub) == l;
    assert i in Concluding(theory, known, l);
  }

  lemma LayeredStart(sha: Digest, theory: Theory) returns (closure: Closure)
    ensures Layered(sha, theory, closure, 0)
  {
    hide BestFact, FactSet;
    closure := map l | l in FactSet(theory) :: BestFactOf(sha, theory, l);
  }

  /** Round by round, every literal has a best derivation. */
  lemma {:induction false} LayeredExists(sha: Digest, theory: Theory, k: nat) returns (closure: Closure)
    requires SafeRules(theory.rules)
    ensures Layered(sha, theory, closure, k)
  {
    hide BestRule, SafeRules, Layered, Concluding, Step;
    if k == 0 {
      closure := LayeredStart(sha, theory);
    } else {
      var before := LayeredExists(sha, theory, k - 1);
      LayeredKeys(sha, theory, before, k - 1);
      var fresh_ := Stage(theory, k) - Stage(theory, k - 1);
      forall l | l in fresh_ ensures Concluding(theory, before.Keys, l) != {} {
        NewIsConcluded(theory, before.Keys, l);
      }
      var candidates := map l | l in fresh_ :: BestRuleOf(sha, theory, before, l);
      LayeredExtend(sha, theory, before, k - 1, candidates);
      closure := before + candidates;
    }
  }

  /** The first stage that repeats. */
  lemma {:induction false} FirstFixed(theory: Theory, j: nat, n: nat) returns (k: nat)
    requires Stage(theory, n + 1) == Stage(theory, n) && j <= n
    requires forall i :: 0 <= i < j ==> StageGrowsAt(theory, i)
    ensures ProductiveRounds(theory, k)
    decreases n - j
  {
    hide Stage;
    if Stage(theory, j + 1) == Stage(theory, j) {
      k := j;
    } else {
      assert StageGrowsAt(theory, j);
      k := FirstFixed(theory, j + 1, n);
    }
  }

  lemma BestClosureExists(sha: Digest, theory: Theory) returns (closure: Closure, k: nat)
    requires WellFormed(theory)
    ensures BestClosure(sha, theory, closure, k)
  {
    hide ValidTheory, SchemaValid, Stage, Layered, BestProofs, StageGrowsAt;
    RulesSafe(theory);
    var n := StagesStop(theory, 0);
    k := FirstFixed(theory, 0, n);
    closure := LayeredExists(sha, theory, k);
    LayeredKeys(sha, theory, closure, k);
    FixedStageIsModel(theory, k);
    LayeredIsBest(sha, theory, closure, k);
  }

  // ---- Limits that suffice ----

  ghost predicate AllBelow(sha: Digest, theory: Theory, closure: Closure, instances: set<Instance>, limit: nat) {
    forall i :: i in instances ==> NodesBounded(sha, theory, closure, i, limit)
  }

  lemma {:induction false} NodeLimitExists(sha: Digest, theory: Theory, closure: Closure, instances: set<Instance>,
                                           least: nat)
    returns (limit: nat)
    ensures limit >= least && AllBelow(sha, theory, closure, instances, limit)
    decreases |instances|
  {
    hide InstanceDerivation, Fires;
    limit := least;
    if instances != {} {
      var i :| i in instances;
      limit := NodeLimitExists(sha, theory, closure, instances - {i}, least);
      if Fires(i, closure.Keys) && |InstanceDerivation(sha, theory, closure, i).nodes| > limit {
        limit := |InstanceDerivation(sha, theory, closure, i).nodes|;
      }
      forall j | j in instances ensures NodesBounded(sha, theory, closure, j, limit) {
        assert j == i || j in instances - {i};
      }
    }
  }

  lemma {:induction false} StageCovered(theory: Theory, k: nat)
    ensures Stage(theory, k) <= FactSet(theory) + Heads(Instances(theory.rules, Stage(theory, k)))
  {
    hide Instances, FactSet;
    if k > 0 {
      StageCovered(theory, k - 1);
      StageMonotone(theory, k - 1, k);
      InstancesMonotone(theory.rules, Stage(theory, k - 1), Stage(theory, k));
    }
  }

  lemma {:induction false} HeadsSize(instances: set<Instance>)
    ensures |Heads(instances)| <= |instances|
    decreases |instances|
  {
    if instances == {} {
      assert Heads(instances) == {};
    } else {
      var i :| i in instances;
      HeadsSize(instances - {i});
      var mine := if Vars(i.rule.head) <= i.sub.Keys then {Ground(i.rule.head, i.sub)} else {};
      assert Heads(instances) == Heads(instances - {i}) + mine;
    }
  }

  lemma {:induction false} FactsSize(facts: seq<GroundLiteral>)
    ensures |set f | f in facts :: Canonical(f)| <= |facts|
  {
    if facts == [] {
      assert (set f | f in facts :: Canonical(f)) == {};
    } else {
      var n := |facts| - 1;
      FactsSize(facts[..n]);
      assert facts == facts[..n] + [facts[n]];
      assert (set f | f in facts :: Canonical(f)) == (set f | f in facts[..n] :: Canonical(f)) + {Canonical(facts[n])};
    }
  }

  lemma SplitSize(a: set<CanonicalLiteral>, b: set<CanonicalLiteral>, c: set<CanonicalLiteral>)
    requires a <= b + c
    ensures |a| <= |b| + |c|
  {
    SubsetSize(a, b + c);
    assert |b + c| == |b| + |c| - |b * c|;
  }

  lemma SameSize(closure: Closure)
    ensures |closure| == |closure.Keys|
  {
  }

  /** The counters of a run on a best closure. */
  lemma CountersExist(sha: Digest, theory: Theory, closure: Closure, k: nat) returns (t: Telemetry)
    requires Layered(sha, theory, closure, k)
    ensures TelemetryOk(theory, closure, t, k)
  {
    hide Layered, Stage, Instances, Conflicts, Heads;
    LayeredKeys(sha, theory, closure, k);
    StageCovered(theory, k);
    HeadsSize(Instances(theory.rules, closure.Keys));
    FactsSize(theory.facts);
    StageMonotone(theory, 0, k);
    FactsFirst(theory);
    SubsetSize(FactSet(theory), closure.Keys);
    SplitSize(closure.Keys, FactSet(theory), Heads(Instances(theory.rules, closure.Keys)));
    SameSize(closure);
    var n, derived := |Instances(theory.rules, closure.Keys)|, |closure| - |FactSet(theory)|;
    t := Telemetry(|theory.facts|, derived, |closure|, |Conflicts(closure.Keys)|, k, n, derived,
                   |theory.facts| + n - |closure|, k);
  }

  lemma FactsFirst(theory: Theory)
    ensures Stage(theory, 0) == FactSet(theory)
  {
  }

  /** Every theory has limits under which `reason` succeeds; the firing limit need only be the number of rule
      instances over the least model. */
  lemma LimitsSuffice(sha: Digest, theory: Theory) returns (limits: Limits, output: ReasoningOutput)
    requires WellFormed(theory)
    ensures IsReasoning(sha, theory, limits, output)
    ensures limits.maxRuleFirings == |Instances(theory.rules, ModelOf(theory))|
    ensures limits.maxRuleFirings == |Instances(theory.rules, Stage(theory, output.telemetry.rounds))|
    ensures ProductiveRounds(theory, output.telemetry.rounds)
  {
    hide ValidTheory, SchemaValid, Stage, Layered, BestProofs, StageGrowsAt, Instances, ResultFrom;
    var closure, k := BestClosureExists(sha, theory);
    LayeredKeys(sha, theory, closure, k);
    var result := ResultFrom(sha, theory, closure);
    var nodeLimit := NodeLimitExists(sha, theory, closure, Instances(theory.rules, closure.Keys), |result.proof.nodes|);
    var t := CountersExist(sha, theory, closure, k);
    limits := Limits(|closure|, |Instances(theory.rules, closure.Keys)|, k, nodeLimit);
    output := ReasoningOutput(result, t);
    assert WithinLimits(sha, theory, limits, closure, k) by {
      assert AllNodesBounded(sha, theory, closure, closure.Keys, nodeLimit);
    }
  }

  /** For every theory with a productive round there are limits under which the engine succeeds and the
      verifier's recount exceeds the firing limit. */
  lemma TightLimitsRunOut(sha: Digest, theory: Theory) returns (limits: Limits, output: ReasoningOutput)
    requires WellFormed(theory) && StageGrowsAt(theory, 0)
    ensures IsReasoning(sha, theory, limits, output)
    ensures NaiveFirings(theory, output.telemetry.rounds) > limits.maxRuleFirings
  {
    hide ValidTheory, SchemaValid, Stage, IsReasoning, Instances, NaiveFirings, ProductiveRounds, StageGrowsAt;
    limits, output := LimitsSuffice(sha, theory);
    var k := output.telemetry.rounds;
    RecountExceedsIff(theory, k);
    if k == 0 {
      ZeroRounds(theory);
    }
  }

  lemma ZeroRounds(theory: Theory)
    requires ProductiveRounds(theory, 0)
    ensures !StageGrowsAt(theory, 0)
  {
    hide Stage;
  }

  // ---- One fact and one rule ----

  const NEAR: CanonicalLiteral := CanonicalLiteral("near", ["rex"], false)
  const PERSON: CanonicalLiteral := CanonicalLiteral("person", ["rex"], false)

  function OnlyInstance(): Instance {
    Instance(Example().rules[0], map["X" := "rex"])
  }

  /** The one rule matches in one way as long as only one dog is near. */
  lemma ExampleInstances(known: set<CanonicalLiteral>)
    requires known == {NEAR} || known == {NEAR, PERSON}
    ensures Instances(Example().rules, known) == {OnlyInstance()}
  {
    hide Instances;
    var r := Example().rules[0];
    assert Example().rules == [r];
    forall i ensures i in Instances(Example().rules, known) <==> i == OnlyInstance() {
      assert i == Instance(i.rule, i.sub);
      InstancesExact(Example().rules, known, i.rule, i.sub);
      if i.rule == r {
        ExampleMatches(i.sub, known);
      }
    }
  }

  lemma ExampleMatches(s: Subst, known: set<CanonicalLiteral>)
    requires known == {NEAR} || known == {NEAR, PERSON}
    ensures Matches(Example().rules[0].body, s, known) <==> s == map["X" := "rex"]
  {
    var r := Example().rules[0];
    assert r.body == [r.body[0]] && r.body[0].arguments[0] == VariableTerm("X");
    assert Vars(r.body[0]) == {"X"} && BodyVars(r.body) == {"X"};
    assert "near" != "person" by {
      assert |"near"| != |"person"|;
    }
    if s.Keys == {"X"} {
      assert Ground(r.body[0], s).arguments == [s["X"]];
      assert s == map["X" := s["X"]];
      assert NEAR.arguments[0] == "rex";
    }
  }

  lemma ExampleHead()
    ensures Heads({OnlyInstance()}) == {PERSON}
  {
    var i := OnlyInstance();
    assert i.rule.head.arguments[0] == VariableTerm("X");
    assert Vars(i.rule.head) == {"X"} && Ground(i.rule.head, i.sub) == PERSON;
  }

  lemma ExampleStages()
    ensures Stage(Example(), 0) == {NEAR} && Stage(Example(), 1) == {NEAR, PERSON}
    ensures Stage(Example(), 2) == Stage(Example(), 1) != Stage(Example(), 0)
  {
    hide Instances, Heads;
    var t := Example();
    assert t.facts == [t.facts[0]] && Canonical(t.facts[0]) == NEAR;
    assert FactSet(t) == {NEAR};
    ExampleInstances({NEAR});
    ExampleInstances({NEAR, PERSON});
    ExampleHead();
    assert Stage(t, 1) == Step(t, Stage(t, 0)) && Stage(t, 2) == Step(t, Stage(t, 1));
    assert |"near"| != |"person"|;
    assert NEAR != PERSON;
  }

  /** With one fact, one rule and a firing limit of one the engine succeeds, and the verifier counts two. */
  lemma ExampleRunsOut(sha: Digest) returns (limits: Limits, output: ReasoningOutput)
    ensures WellFormed(Example()) && IsReasoning(sha, Example(), limits, output)
    ensures limits.maxRuleFirings == 1 && output.telemetry.rounds == 1
    ensures NaiveFirings(Example(), output.telemetry.rounds) == 2
  {
    hide ValidTheory, Stage, IsReasoning, Instances, NaiveFirings, AllWellTyped;
    ValidTheoryIllTypedClosure();
    ExampleSchema();
    limits, output := LimitsSuffice(sha, Example());
    ExampleStages();
    OneRound(output.telemetry.rounds);
    ExampleInstances({NEAR});
    ExampleInstances({NEAR, PERSON});
    NaiveFiringsUnfold(Example(), 1);
    NaiveFiringsUnfold(Example(), 0);
  }

  lemma ExampleSchema()
    ensures SchemaValid(Example())
  {
  }

  lemma OneRound(k: nat)
    requires ProductiveRounds(Example(), k)
    requires Stage(Example(), 2) == Stage(Example(), 1) != Stage(Example(), 0)
    ensures k == 1
  {
    hide Stage;
    if k > 1 {
      StageGrowsUnfold(Example(), 1);
    }
  }
}
