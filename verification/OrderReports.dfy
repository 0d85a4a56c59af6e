/** The whole outcome of the engine does not depend on the order of the theory's lists: a run that fails
    names the same limit with the same value whatever the order. */
module OrderReports {
  import opened Keys
  import opened Logic
  import opened Semantics
  import opened Unification
  import opened Proofs
  import opened Checks
  import opened Choices
  import opened Rounds
  import opened Engine
  import opened OrderInvariance
  import opened OrderOutcome

  // ---- The instances of a round, across orderings ----

  /** The partner of an instance of a round is an instance of the same round at the same place. */
  lemma PartnerInRound(a: Theory, b: Theory, c: Closure, delta: set<CanonicalLiteral>, i: Instance)
    requires ValidTheory(b) && RulesCovered(a.rules, b.rules) && DeltaInstance(a, c, delta, i)
    ensures i.rule.id in RulesById(b)
    ensures var p := Translate(RulesById(b), i);
            && DeltaInstance(b, c, delta, p) && SameRule(i.rule, p.rule)
            && BodyVars(i.rule.body) <= i.sub.Keys && BodyVars(p.rule.body) <= p.sub.Keys
            && InstanceKey(i) == InstanceKey(p)
  {
    hide ValidTheory, Matches, Touches, PremisesOf, StateKey, RulesById;
    PartnerById(a, b, i.rule);
    var q := RulesById(b)[i.rule.id];
    MatchBinds(i.rule.body, i.sub, c.Keys);
    SameRuleMatches(i.rule, q, i.sub, c.Keys);
    SameRuleHead(i.rule, q);
  }

  lemma BeforeTheLater(i: Instance, j: Instance, p: Instance)
    requires BodyVars(i.rule.body) <= i.sub.Keys && BodyVars(p.rule.body) <= p.sub.Keys
    requires Precedes(j, i) && Leq(InstanceKey(i), InstanceKey(p))
    ensures Precedes(j, p)
  {
    hide Leq, StateKey, PremisesOf;
    Transitive(InstanceKey(j), InstanceKey(i), InstanceKey(p));
    if InstanceKey(j) == InstanceKey(p) {
      Antisymmetric(InstanceKey(i), InstanceKey(p));
    }
  }

  /** What one ordering takes before an instance has its partners among what the other takes before a later
      one, so there are at most as many. */
  lemma TakenAcross(a: Theory, b: Theory, c: Closure, delta: set<CanonicalLiteral>, i: Instance, seen: set<Instance>,
                    p: Instance, taken: set<Instance>)
    requires ValidTheory(a) && ValidTheory(b) && RulesCovered(a.rules, b.rules)
    requires DeltaInstance(a, c, delta, i) && TakenBefore(a, c, delta, seen, i)
    requires DeltaInstance(b, c, delta, p) && TakenBefore(b, c, delta, taken, p)
    requires BodyVars(i.rule.body) <= i.sub.Keys && BodyVars(p.rule.body) <= p.sub.Keys
    requires Leq(InstanceKey(i), InstanceKey(p))
    ensures |seen| <= |taken|
    ensures InstanceKey(i) != InstanceKey(p) ==>
              i.rule.id in RulesById(b) && Translate(RulesById(b), i) in taken && |seen| + 1 <= |taken|
  {
    hide ValidTheory, RulesCovered, DeltaInstance, RulesById, InstanceKey, Leq, SameRule;
    var from := if InstanceKey(i) != InstanceKey(p) then seen + {i} else seen;
    assert i !in seen by {
      NotBeforeItself(i);
    }
    forall j | j in from
      ensures j.rule in a.rules && j.rule.id in RulesById(b) && Translate(RulesById(b), j) in taken
      ensures Translate(RulesById(b), j).rule.id == j.rule.id
    {
      RuleOfInstance(a, c, delta, j);
      PartnerInRound(a, b, c, delta, j);
      var t := Translate(RulesById(b), j);
      SameRuleHead(j.rule, t.rule);
      if j != i {
        BeforeTheLater(i, j, p);
      }
      PartnerPrecedes(j, t, p);
    }
    forall j, k | j in from && k in from && Translate(RulesById(b), j) == Translate(RulesById(b), k) ensures j == k {
      SameIdSameRule(a, j.rule, k.rule);
    }
    var image := set j | j in from :: Translate(RulesById(b), j);
    InjectiveImage(from, image, RulesById(b));
    SubsetSize(image, taken);
  }

  lemma NotBeforeItself(i: Instance)
    ensures !Precedes(i, i)
  {
  }

  lemma RuleOfInstance(a: Theory, c: Closure, delta: set<CanonicalLiteral>, i: Instance)
    requires DeltaInstance(a, c, delta, i)
    ensures i.rule in a.rules
  {
  }

  lemma PartnerPrecedes(j: Instance, t: Instance, p: Instance)
    requires BodyVars(j.rule.body) <= j.sub.Keys && BodyVars(t.rule.body) <= t.sub.Keys
    requires BodyVars(p.rule.body) <= p.sub.Keys
    requires InstanceKey(j) == InstanceKey(t)
    ensures (Precedes(j, p) ==> Precedes(t, p))
            && (Leq(InstanceKey(j), InstanceKey(p)) && InstanceKey(j) != InstanceKey(p) ==> Precedes(t, p))
  {
    hide InstanceKey, Leq;
  }

  /** Partners offer the same derivation, over closures that agree on what the instance needs. */
  lemma PartnerOffers(sha: Digest, a: Theory, b: Theory, ca: Closure, cb: Closure, known: set<CanonicalLiteral>,
                      i: Instance, q: Rule)
    requires ValidTheory(a) && ValidTheory(b) && Reordered(a, b) && Agree(ca, cb, known)
    requires i.rule in a.rules && Fires(i, known) && q in b.rules && SameRule(i.rule, q)
    ensures Fires(i, ca.Keys) && Fires(Instance(q, i.sub), cb.Keys)
    ensures InstanceDerivation(sha, a, ca, i) == InstanceDerivation(sha, b, cb, Instance(q, i.sub))
  {
    hide ValidTheory, InstanceDerivation, Reordered, SameRule, Matches;
    MatchBinds(i.rule.body, i.sub, known);
    var l := Ground(i.rule.head, i.sub);
    MatchesMonotone(i.rule.body, i.sub, known, ca.Keys);
    assert Offers(sha, a, ca, known, i, l);
    SameOffer(sha, a, b, ca, cb, known, i, q, l);
  }

  // ---- Two stops in one round ----

  /** An instance whose partner the other ordering has passed is not too large. */
  lemma PartnerPassed(sha: Digest, a: Theory, b: Theory, limits: Limits, c: Closure, startb: Counters, i: Instance,
                      p: Instance, taken: set<Instance>, f: LimitError)
    requires ValidTheory(a) && ValidTheory(b) && Reordered(a, b) && i.rule in a.rules && Fires(i, c.Keys)
    requires i.rule.id in RulesById(b) && Translate(RulesById(b), i) in taken
    requires RoundError(sha, b, limits, c, taken, startb, p, f)
    ensures |InstanceDerivation(sha, a, c, i).nodes| <= limits.maxProofNodes
  {
    hide ValidTheory, RulesById, SameRule, InstanceDerivation, Fires, RulesCovered;
    RulesBothWays(a, b);
    PartnerById(a, b, i.rule);
    PartnerOffers(sha, a, b, c, c, c.Keys, i, RulesById(b)[i.rule.id]);
    assert NodesBounded(sha, b, c, Translate(RulesById(b), i), limits.maxProofNodes);
  }

  /** What the later stop has passed, the earlier one cannot have stopped at. */
  lemma NoEarlierStop(sha: Digest, a: Theory, b: Theory, limits: Limits, c: Closure, delta: set<CanonicalLiteral>,
                      starta: Counters, startb: Counters, i: Instance, seen: set<Instance>, e: LimitError,
                      p: Instance, taken: set<Instance>, f: LimitError)
    requires ValidTheory(a) && ValidTheory(b) && Reordered(a, b) && starta.ruleInstances == startb.ruleInstances
    requires DeltaInstance(a, c, delta, i) && TakenBefore(a, c, delta, seen, i)
             && RoundError(sha, a, limits, c, seen, starta, i, e)
    requires DeltaInstance(b, c, delta, p) && TakenBefore(b, c, delta, taken, p)
             && RoundError(sha, b, limits, c, taken, startb, p, f)
    requires BodyVars(i.rule.body) <= i.sub.Keys && BodyVars(p.rule.body) <= p.sub.Keys
    ensures Leq(InstanceKey(i), InstanceKey(p)) ==> InstanceKey(i) == InstanceKey(p)
  {
    hide ValidTheory, DeltaInstance, RulesById, InstanceKey, Leq, SameRule, InstanceDerivation, Fires, TakenBefore,
      RulesCovered;
    if Leq(InstanceKey(i), InstanceKey(p)) && InstanceKey(i) != InstanceKey(p) {
      RulesBothWays(a, b);
      TakenAcross(a, b, c, delta, i, seen, p, taken);
      PartnerPassed(sha, a, b, limits, c, startb, i, p, taken, f);
    }
  }

  lemma SameInstance(a: Theory, b: Theory, i: Instance, p: Instance)
    requires ValidTheory(a) && ValidTheory(b) && RulesCovered(a.rules, b.rules)
    requires i.rule in a.rules && p.rule in b.rules
    requires BodyVars(i.rule.body) <= i.sub.Keys && BodyVars(p.rule.body) <= p.sub.Keys
    requires InstanceKey(i) == InstanceKey(p)
    ensures SameRule(i.rule, p.rule) && p == Instance(p.rule, i.sub)
  {
    hide ValidTheory, PremisesOf, StateKey, SameRule;
    StateKeyInjective(JoinState(i.sub, PremisesOf(i.rule.body, i.sub)),
                      JoinState(p.sub, PremisesOf(p.rule.body, p.sub)));
    var q :| q in b.rules && SameRule(i.rule, q);
    SameRuleHead(i.rule, q);
    SameIdSameRule(b, p.rule, q);
  }

  lemma SameErrorThere(sha: Digest, a: Theory, b: Theory, limits: Limits, c: Closure, starta: Counters,
                       startb: Counters, i: Instance, seen: set<Instance>, e: LimitError, p: Instance,
                       taken: set<Instance>, f: LimitError)
    requires RoundError(sha, a, limits, c, seen, starta, i, e) && RoundError(sha, b, limits, c, taken, startb, p, f)
    requires starta.ruleInstances == startb.ruleInstances && |seen| == |taken|
    requires Fires(i, c.Keys) && Fires(p, c.Keys)
             && InstanceDerivation(sha, a, c, i) == InstanceDerivation(sha, b, c, p)
    ensures e == f
  {
    hide InstanceDerivation, Fires;
  }

  /** In one round, reordered theories stop at partners, for the same reason. */
  lemma SameRoundStop(sha: Digest, a: Theory, b: Theory, limits: Limits, c: Closure, delta: set<CanonicalLiteral>,
                      starta: Counters, startb: Counters, e: LimitError, f: LimitError)
    requires ValidTheory(a) && ValidTheory(b) && Reordered(a, b) && starta.ruleInstances == startb.ruleInstances
    requires RoundStops(sha, a, limits, c, delta, starta, e) && RoundStops(sha, b, limits, c, delta, startb, f)
    ensures e == f
  {
    hide ValidTheory, DeltaInstance, InstanceKey, Leq, SameRule, InstanceDerivation, Fires, TakenBefore, Reordered,
      RulesCovered, RoundError;
    var i, seen :| DeltaInstance(a, c, delta, i) && TakenBefore(a, c, delta, seen, i)
                   && RoundError(sha, a, limits, c, seen, starta, i, e);
    var p, taken :| DeltaInstance(b, c, delta, p) && TakenBefore(b, c, delta, taken, p)
                    && RoundError(sha, b, limits, c, taken, startb, p, f);
    ReorderedSymmetric(a, b);
    RulesBothWays(a, b);
    ErrorAt(sha, a, limits, c, delta, seen, starta, i, e);
    ErrorAt(sha, b, limits, c, delta, taken, startb, p, f);
    Total(InstanceKey(i), InstanceKey(p));
    NoEarlierStop(sha, a, b, limits, c, delta, starta, startb, i, seen, e, p, taken, f);
    NoEarlierStop(sha, b, a, limits, c, delta, startb, starta, p, taken, f, i, seen, e);
    LeqReflexive(InstanceKey(i));
    TakenAcross(a, b, c, delta, i, seen, p, taken);
    TakenAcross(b, a, c, delta, p, taken, i, seen);
    SameInstance(a, b, i, p);
    PartnerOffers(sha, a, b, c, c, c.Keys, i, p.rule);
    SameErrorThere(sha, a, b, limits, c, starta, startb, i, seen, e, p, taken, f);
  }

  lemma ErrorAt(sha: Digest, theory: Theory, limits: Limits, c: Closure, delta: set<CanonicalLiteral>,
                seen: set<Instance>, start: Counters, i: Instance, e: LimitError)
    requires DeltaInstance(theory, c, delta, i) && RoundError(sha, theory, limits, c, seen, start, i, e)
    ensures i.rule in theory.rules && Fires(i, c.Keys) && BodyVars(i.rule.body) <= i.sub.Keys
  {
    hide InstanceDerivation;
    MatchBinds(i.rule.body, i.sub, c.Keys);
  }

  // ---- A round that fits does not stop ----

  lemma FittingRoundGoesOn(sha: Digest, theory: Theory, limits: Limits, c: Closure, delta: set<CanonicalLiteral>,
                           now: Counters, k: nat, e: LimitError)
    requires WellFormed(theory) && LoopState(sha, theory, limits, c, delta, now, k)
    requires RoundFits(sha, theory, limits, c)
    ensures !RoundStops(sha, theory, limits, c, delta, now, e)
  {
    hide Instances, InstanceDerivation, Matches, Stage, DeltaInstance, Precedes, WellFormed, Layered;
    if RoundStops(sha, theory, limits, c, delta, now, e) {
      var i, seen :| DeltaInstance(theory, c, delta, i) && TakenBefore(theory, c, delta, seen, i)
                     && RoundError(sha, theory, limits, c, seen, now, i, e);
      RulesSafe(theory);
      EarlierBelow(theory, k);
      LayeredKeys(sha, theory, c, k);
      DeltaInstancesAreNew(theory, c, delta, Earlier(theory, k), i);
      SeenWithin(theory, c, delta, Earlier(theory, k), seen, i);
      FiringInstance(theory, c, i);
      BoundedNodes(sha, theory, c, i, limits.maxProofNodes);
    }
  }

  /** A round that one ordering has passed fits in the other. */
  lemma PassedRoundFits(sha: Digest, a: Theory, b: Theory, limits: Limits, c: Closure, j: nat, d: Closure,
                        delta: set<CanonicalLiteral>, now: Counters, k: nat)
    requires WellFormed(a) && WellFormed(b) && Reordered(a, b) && j < k
    requires Layered(sha, a, c, j) && LoopState(sha, b, limits, d, delta, now, k)
    ensures RoundFits(sha, a, limits, c)
    ensures j + 1 <= limits.maxRounds && |Stage(a, j + 1)| <= limits.maxDerivedLiterals
  {
    hide Instances, Reordered, Stage, Layered, ValidTheory, SchemaValid, AllNodesBounded, Agree, StageGrowsAt;
    LayeredKeys(sha, a, c, j);
    LayeredKeys(sha, b, d, k);
    StagesReordered(a, b, j);
    StagesReordered(a, b, j + 1);
    StageMonotone(b, j, k - 1);
    StageMonotone(b, j + 1, k);
    SubsetSize(Stage(b, j + 1), Stage(b, k));
    assert |d| == |d.Keys|;
    InstanceCountReordered(a, b, c.Keys);
    InstancesMonotone(b.rules, c.Keys, Stage(b, k - 1));
    SubsetSize(Instances(b.rules, c.Keys), Instances(b.rules, Stage(b, k - 1)));
    AgreeUpTo(sha, a, b, c, d, j, k, j);
    NodesBoundedAcross(sha, a, b, c, d, Stage(b, k - 1), limits.maxProofNodes);
  }

  lemma NodesBoundedAcross(sha: Digest, a: Theory, b: Theory, c: Closure, d: Closure, known: set<CanonicalLiteral>,
                           limit: nat)
    requires ValidTheory(a) && ValidTheory(b) && Reordered(a, b) && Agree(c, d, c.Keys) && c.Keys <= known
    requires AllNodesBounded(sha, b, d, known, limit)
    ensures AllNodesBounded(sha, a, c, c.Keys, limit)
  {
    hide ValidTheory, InstanceDerivation, Reordered, Instances, Fires, Matches, SameRule;
    forall i | i in Instances(a.rules, c.Keys) ensures NodesBounded(sha, a, c, i, limit) {
      assert i == Instance(i.rule, i.sub);
      InstancesExact(a.rules, c.Keys, i.rule, i.sub);
      if Fires(i, c.Keys) {
        var q := Partner(a, b, i.rule);
        PartnerOffers(sha, a, b, c, d, c.Keys, i, q);
        SameRuleMatches(i.rule, q, i.sub, c.Keys);
        InstancesExact(b.rules, c.Keys, q, i.sub);
        InstancesMonotone(b.rules, c.Keys, known);
        assert NodesBounded(sha, b, d, Instance(q, i.sub), limit);
      }
    }
  }

  lemma NothingReportedEarlier(sha: Digest, a: Theory, b: Theory, limits: Limits, j: nat, k: nat, e: LimitError,
                               f: LimitError)
    requires WellFormed(a) && WellFormed(b) && Reordered(a, b)
    requires StopsAfter(sha, a, limits, j, e) && StopsAfter(sha, b, limits, k, f)
    ensures j >= k
  {
    hide WellFormed, Reordered, LoopState, RoundStops, RoundFits, Stage, StageGrowsAt, Layered;
    if j < k {
      var c, delta, now :| LoopState(sha, a, limits, c, delta, now, j)
        && (RoundStops(sha, a, limits, c, delta, now, e)
            || (RoundFits(sha, a, limits, c) && GrowthStops(a, limits, j, e)));
      var d, rest, then_ :| LoopState(sha, b, limits, d, rest, then_, k)
        && (RoundStops(sha, b, limits, d, rest, then_, f)
            || (RoundFits(sha, b, limits, d) && GrowthStops(b, limits, k, f)));
      LoopFacts(sha, a, limits, c, delta, now, j);
      PassedRoundFits(sha, a, b, limits, c, j, d, rest, then_, k);
      FittingRoundGoesOn(sha, a, limits, c, delta, now, j, e);
    }
  }

  lemma FitsReordered(sha: Digest, a: Theory, b: Theory, limits: Limits, c: Closure)
    requires ValidTheory(a) && ValidTheory(b) && Reordered(a, b)
    ensures RoundFits(sha, a, limits, c) <==> RoundFits(sha, b, limits, c)
  {
    hide ValidTheory, Reordered, Instances, AllNodesBounded;
    ReorderedSymmetric(a, b);
    InstanceCountReordered(a, b, c.Keys);
    if AllNodesBounded(sha, a, c, c.Keys, limits.maxProofNodes) {
      NodesBoundedReordered(sha, a, b, c, limits.maxProofNodes);
    }
    if AllNodesBounded(sha, b, c, c.Keys, limits.maxProofNodes) {
      NodesBoundedReordered(sha, b, a, c, limits.maxProofNodes);
    }
  }

  lemma SameGrowthStop(a: Theory, b: Theory, limits: Limits, k: nat, e: LimitError, f: LimitError)
    requires Reordered(a, b) && GrowthStops(a, limits, k, e) && GrowthStops(b, limits, k, f)
    ensures e == f
  {
    hide Reordered, Stage, StageGrowsAt;
    StagesReordered(a, b, k + 1);
  }

  /** After the same number of rounds the loop is in the same state for both orderings. */
  lemma SameLoopState(sha: Digest, a: Theory, b: Theory, limits: Limits, c: Closure, delta: set<CanonicalLiteral>,
                      now: Counters, d: Closure, rest: set<CanonicalLiteral>, then_: Counters, k: nat)
    requires ValidTheory(a) && ValidTheory(b) && Reordered(a, b)
    requires LoopState(sha, a, limits, c, delta, now, k) && LoopState(sha, b, limits, d, rest, then_, k)
    ensures c == d && delta == rest && now.ruleInstances == then_.ruleInstances
  {
    hide ValidTheory, Reordered, Instances, Stage, Layered, AllNodesBounded, StageGrowsAt, FactSet;
    ClosuresReordered(sha, a, b, c, d, k);
    if k > 0 {
      StagesReordered(a, b, k - 1);
    }
    InstanceCountReordered(a, b, Engine.Earlier(a, k));
  }

  lemma SameStop(sha: Digest, a: Theory, b: Theory, limits: Limits, k: nat, e: LimitError, f: LimitError)
    requires WellFormed(a) && WellFormed(b) && Reordered(a, b)
    requires StopsAfter(sha, a, limits, k, e) && StopsAfter(sha, b, limits, k, f)
    ensures e == f
  {
    hide ValidTheory, SchemaValid, Reordered, LoopState, RoundStops, RoundFits, GrowthStops;
    var c, delta, now :| LoopState(sha, a, limits, c, delta, now, k)
      && (RoundStops(sha, a, limits, c, delta, now, e)
          || (RoundFits(sha, a, limits, c) && GrowthStops(a, limits, k, e)));
    var d, rest, then_ :| LoopState(sha, b, limits, d, rest, then_, k)
      && (RoundStops(sha, b, limits, d, rest, then_, f)
          || (RoundFits(sha, b, limits, d) && GrowthStops(b, limits, k, f)));
    SameLoopState(sha, a, b, limits, c, delta, now, d, rest, then_, k);
    FitsReordered(sha, a, b, limits, c);
    if RoundFits(sha, a, limits, c) {
      FittingRoundGoesOn(sha, a, limits, c, delta, now, k, e);
      FittingRoundGoesOn(sha, b, limits, d, rest, then_, k, f);
      SameGrowthStop(a, b, limits, k, e, f);
    } else {
      SameRoundStop(sha, a, b, limits, c, delta, now, then_, e, f);
    }
  }

  /** Reordered theories report the same limit with the same value. */
  lemma SameReport(sha: Digest, a: Theory, b: Theory, limits: Limits, e: LimitError, f: LimitError)
    requires WellFormed(a) && WellFormed(b) && Reordered(a, b)
    requires Reports(sha, a, limits, e) && Reports(sha, b, limits, f)
    ensures e == f
  {
    hide WellFormed, Reordered, StopsAfter, FactSet;
    FactsReordered(a, b);
    ReorderedSymmetric(a, b);
    if |FactSet(a)| <= limits.maxDerivedLiterals {
      var j :| StopsAfter(sha, a, limits, j, e);
      var k :| StopsAfter(sha, b, limits, k, f);
      NothingReportedEarlier(sha, a, b, limits, j, k, e, f);
      NothingReportedEarlier(sha, b, a, limits, k, j, f, e);
      SameStop(sha, a, b, limits, j, e, f);
    }
  }

  // ---- The whole outcome ----

  /** What `_saturate` answers under its contract. */
  ghost predicate SaturationOutcome(sha: Digest, theory: Theory, limits: Limits,
                                    r: Result<SaturationState, LimitError>)
    requires ValidTheory(theory)
  {
    if r.Ok? then IsSaturation(sha, theory, limits, r.value) else Reports(sha, theory, limits, r.error)
  }

  /** What `reason` answers under its contract. */
  ghost predicate ReasoningOutcome(sha: Digest, theory: Theory, limits: Limits, r: Result<ReasoningOutput, LimitError>)
    requires ValidTheory(theory)
  {
    if r.Ok? then IsReasoning(sha, theory, limits, r.value)
    else Reports(sha, theory, limits, r.error) || ProofStops(sha, theory, limits, r.error)
  }

  /** A reported limit is one that the theory exceeds. */
  lemma ReportsExceeds(sha: Digest, theory: Theory, limits: Limits, e: LimitError)
    requires WellFormed(theory) && Reports(sha, theory, limits, e)
    ensures Exceeds(sha, theory, limits, e)
  {
    hide WellFormed, LoopState, RoundStops, RoundFits, FactSet, Step;
    if |FactSet(theory)| > limits.maxDerivedLiterals {
      assert |Stage(theory, 0)| == e.observed;
    } else {
      var k :| StopsAfter(sha, theory, limits, k, e);
      var c, delta, now :| LoopState(sha, theory, limits, c, delta, now, k)
        && (RoundStops(sha, theory, limits, c, delta, now, e)
            || (RoundFits(sha, theory, limits, c) && GrowthStops(theory, limits, k, e)));
      LoopFacts(sha, theory, limits, c, delta, now, k);
      if RoundStops(sha, theory, limits, c, delta, now, e) {
        RoundExceeded(sha, theory, limits, c, delta, now, k, e);
      }
    }
  }

  lemma ProofStopsTooLarge(sha: Digest, theory: Theory, limits: Limits, e: LimitError)
    requires ValidTheory(theory) && ProofStops(sha, theory, limits, e)
    ensures ProofTooLarge(sha, theory, limits, e)
  {
    hide ValidTheory, ResultFrom, ProductiveRounds, Layered, BestProofs, WithinLimits, TelemetryOk;
    var s :| IsSaturation(sha, theory, limits, s)
      && |ResultFrom(sha, theory, s.closure).proof.nodes| > limits.maxProofNodes
      && e == LimitError(MaxProofNodes, limits.maxProofNodes, |ResultFrom(sha, theory, s.closure).proof.nodes|);
    assert BestClosure(sha, theory, s.closure, s.telemetry.rounds);
  }

  /** Saturating reordered theories ends the same way: with one state, or with one limit error. */
  lemma SameSaturationOutcome(sha: Digest, a: Theory, b: Theory, limits: Limits,
                              ra: Result<SaturationState, LimitError>, rb: Result<SaturationState, LimitError>)
    requires WellFormed(a) && WellFormed(b) && Reordered(a, b)
    requires SaturationOutcome(sha, a, limits, ra) && SaturationOutcome(sha, b, limits, rb)
    ensures ra == rb
  {
    hide ValidTheory, SchemaValid, Reordered, IsSaturation, Exceeds, Reports;
    if ra.Err? {
      ReportsExceeds(sha, a, limits, ra.error);
    }
    if rb.Err? {
      ReportsExceeds(sha, b, limits, rb.error);
    }
    SaturateOutcomeReordered(sha, a, b, limits, ra, rb);
    if ra.Err? {
      SameReport(sha, a, b, limits, ra.error, rb.error);
    }
  }

  lemma SameProofStop(sha: Digest, a: Theory, b: Theory, limits: Limits, e: LimitError, f: LimitError)
    requires ValidTheory(a) && ValidTheory(b) && Reordered(a, b)
    requires ProofStops(sha, a, limits, e) && ProofStops(sha, b, limits, f)
    ensures e == f
  {
    hide ValidTheory, Reordered, ResultFrom, IsSaturation;
    var s :| IsSaturation(sha, a, limits, s) && |ResultFrom(sha, a, s.closure).proof.nodes| > limits.maxProofNodes
             && e == LimitError(MaxProofNodes, limits.maxProofNodes, |ResultFrom(sha, a, s.closure).proof.nodes|);
    var t :| IsSaturation(sha, b, limits, t) && |ResultFrom(sha, b, t.closure).proof.nodes| > limits.maxProofNodes
             && f == LimitError(MaxProofNodes, limits.maxProofNodes, |ResultFrom(sha, b, t.closure).proof.nodes|);
    SaturationReordered(sha, a, b, limits, limits, s, t);
    SameResult(sha, a, b, s.closure);
  }

  /** Only one ordering cannot fail for the size of its proof. */
  lemma ProofStopsBoth(sha: Digest, a: Theory, b: Theory, limits: Limits, e: LimitError, f: LimitError)
    requires WellFormed(a) && WellFormed(b) && Reordered(a, b) && ProofStops(sha, a, limits, e)
    ensures !Reports(sha, b, limits, f)
  {
    hide ValidTheory, SchemaValid, Reordered, ResultFrom, IsSaturation, Reports, Exceeds;
    var s :| IsSaturation(sha, a, limits, s) && |ResultFrom(sha, a, s.closure).proof.nodes| > limits.maxProofNodes
             && e == LimitError(MaxProofNodes, limits.maxProofNodes, |ResultFrom(sha, a, s.closure).proof.nodes|);
    SaturationCarriesOver(sha, a, b, limits, s);
    FittingExceedsNothing(sha, b, limits, s, f);
    if Reports(sha, b, limits, f) {
      ReportsExceeds(sha, b, limits, f);
    }
  }

  lemma ReasoningError(sha: Digest, theory: Theory, limits: Limits, r: Result<ReasoningOutput, LimitError>)
    requires WellFormed(theory) && ReasoningOutcome(sha, theory, limits, r) && r.Err?
    ensures Exceeds(sha, theory, limits, r.error) || ProofTooLarge(sha, theory, limits, r.error)
  {
    hide ValidTheory, SchemaValid, Exceeds, ProofTooLarge, Reports, ProofStops;
    if Reports(sha, theory, limits, r.error) {
      ReportsExceeds(sha, theory, limits, r.error);
    } else {
      ProofStopsTooLarge(sha, theory, limits, r.error);
    }
  }

  /** Reasoning over reordered theories ends the same way: with one result, or with one limit error. */
  lemma SameReasoningOutcome(sha: Digest, a: Theory, b: Theory, limits: Limits,
                             ra: Result<ReasoningOutput, LimitError>, rb: Result<ReasoningOutput, LimitError>)
    requires WellFormed(a) && WellFormed(b) && Reordered(a, b)
    requires ReasoningOutcome(sha, a, limits, ra) && ReasoningOutcome(sha, b, limits, rb)
    ensures ra == rb
  {
    hide ValidTheory, SchemaValid, Reordered, IsReasoning, Exceeds, Reports, ProofStops, ProofTooLarge;
    ReorderedSymmetric(a, b);
    if ra.Err? {
      ReasoningError(sha, a, limits, ra);
    }
    if rb.Err? {
      ReasoningError(sha, b, limits, rb);
    }
    ReasonOutcomeReordered(sha, a, b, limits, ra, rb);
    if ra.Err? {
      if ProofStops(sha, a, limits, ra.error) {
        ProofStopsBoth(sha, a, b, limits, ra.error, rb.error);
        SameProofStop(sha, a, b, limits, ra.error, rb.error);
      } else {
        if ProofStops(sha, b, limits, rb.error) {
          ProofStopsBoth(sha, b, a, limits, rb.error, ra.error);
        }
        SameReport(sha, a, b, limits, ra.error, rb.error);
      }
    }
  }
}
