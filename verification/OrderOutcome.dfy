/** Whether the engine succeeds does not depend on the order of the theory's lists: what one ordering fits,
    every ordering fits, and what one ordering exceeds, every ordering exceeds. */
module OrderOutcome {
  import opened Keys
  import opened Logic
  import opened Semantics
  import opened Proofs
  import opened Choices
  import opened Rounds
  import opened Engine
  import opened OrderInvariance

  // ---- The same closure serves both orderings ----

  lemma EntryReordered(a: Theory, b: Theory, j: nat, l: CanonicalLiteral)
    requires Reordered(a, b) && EntersAt(b, j, l)
    ensures EntersAt(a, j, l)
  {
    hide Stage, Reordered;
    StagesReordered(a, b, j);
    if j > 0 {
      StagesReordered(a, b, j - 1);
    }
  }

  lemma BestFactReordered(sha: Digest, a: Theory, b: Theory, l: CanonicalLiteral, d: Derivation)
    requires ValidTheory(a) && ValidTheory(b) && Reordered(a, b) && BestFact(sha, a, l, d)
    ensures BestFact(sha, b, l, d)
  {
    hide ValidTheory, SourceDerivation, Leq, Reordered, TextOf;
    FactsReordered(a, b);
    forall f | f in a.facts ensures FactDerivation(sha, a, f) == FactDerivation(sha, b, f) {
      TextReordered(a, b, f.sourceId);
    }
    var f :| f in a.facts && Canonical(f) == l && d == FactDerivation(sha, a, f);
    assert f in b.facts;
  }

  lemma BestRuleReordered(sha: Digest, a: Theory, b: Theory, c: Closure, known: set<CanonicalLiteral>,
                          l: CanonicalLiteral, d: Derivation)
    requires ValidTheory(a) && ValidTheory(b) && Reordered(a, b) && known <= c.Keys
    requires BestRule(sha, a, c, known, l, d)
    ensures BestRule(sha, b, c, known, l, d)
  {
    hide ValidTheory, InstanceDerivation, Leq, Offers, SameRule, Reordered, BestRule;
    var i := BestRuleWitness(sha, a, c, known, l, d);
    var q := Partner(a, b, i.rule);
    assert Agree(c, c, known);
    SameOffer(sha, a, b, c, c, known, i, q, l);
    ReorderedSymmetric(a, b);
    forall j | Offers(sha, b, c, known, j, l)
      ensures Fires(j, c.Keys) && Leq(d.choiceKey, InstanceDerivation(sha, b, c, j).choiceKey)
    {
      OfferedRule(sha, b, c, known, j, l);
      var p := Partner(b, a, j.rule);
      SameOffer(sha, b, a, c, c, known, j, p, l);
      BestRuleLeast(sha, a, c, known, l, d, Instance(p, j.sub));
    }
    BestRuleFrom(sha, b, c, known, l, d, Instance(q, i.sub));
  }

  lemma OfferedRule(sha: Digest, theory: Theory, c: Closure, known: set<CanonicalLiteral>, i: Instance,
                    l: CanonicalLiteral)
    requires Offers(sha, theory, c, known, i, l)
    ensures i.rule in theory.rules && i == Instance(i.rule, i.sub)
  {
  }

  lemma BestRuleFrom(sha: Digest, theory: Theory, c: Closure, known: set<CanonicalLiteral>, l: CanonicalLiteral,
                     d: Derivation, i: Instance)
    requires Offers(sha, theory, c, known, i, l) && Fires(i, c.Keys) && d == InstanceDerivation(sha, theory, c, i)
    requires forall j :: Offers(sha, theory, c, known, j, l) ==>
               Fires(j, c.Keys) && Leq(d.choiceKey, InstanceDerivation(sha, theory, c, j).choiceKey)
    ensures BestRule(sha, theory, c, known, l, d)
  {
    hide InstanceDerivation, Leq;
  }

  /** A layered closure of one ordering is a layered closure of the other. */
  lemma LayeredReordered(sha: Digest, a: Theory, b: Theory, c: Closure, k: nat)
    requires ValidTheory(a) && ValidTheory(b) && Reordered(a, b) && Layered(sha, a, c, k)
    ensures Layered(sha, b, c, k)
  {
    hide ValidTheory, Reordered, Stage, EntersAt, BestFact, BestRule;
    StagesReordered(a, b, k);
    forall j, l | 0 <= j <= k && EntersAt(b, j, l) ensures ChosenAt(sha, b, c, j, l) {
      EntryReordered(a, b, j, l);
      assert ChosenAt(sha, a, c, j, l);
      if j == 0 {
        BestFactReordered(sha, a, b, l, c[l]);
      } else {
        StagesReordered(a, b, j - 1);
        StageMonotone(a, j - 1, k);
        BestRuleReordered(sha, a, b, c, Stage(a, j - 1), l, c[l]);
      }
    }
  }

  /** An instance of one ordering offers the same derivation as its partner in the other. */
  lemma PartnerInstance(sha: Digest, a: Theory, b: Theory, c: Closure, i: Instance) returns (p: Instance)
    requires ValidTheory(a) && ValidTheory(b) && Reordered(a, b) && i.rule in a.rules && Fires(i, c.Keys)
    ensures p.rule in b.rules && Fires(p, c.Keys)
    ensures InstanceDerivation(sha, a, c, i) == InstanceDerivation(sha, b, c, p)
  {
    hide ValidTheory, InstanceDerivation, Reordered, SameRule, Matches;
    var q := Partner(a, b, i.rule);
    p := Instance(q, i.sub);
    assert Agree(c, c, c.Keys);
    MatchBinds(i.rule.body, i.sub, c.Keys);
    var l := Ground(i.rule.head, i.sub);
    assert Offers(sha, a, c, c.Keys, i, l);
    SameOffer(sha, a, b, c, c, c.Keys, i, q, l);
  }

  lemma NodesBoundedReordered(sha: Digest, a: Theory, b: Theory, c: Closure, limit: nat)
    requires ValidTheory(a) && ValidTheory(b) && Reordered(a, b) && AllNodesBounded(sha, a, c, c.Keys, limit)
    ensures AllNodesBounded(sha, b, c, c.Keys, limit)
  {
    hide ValidTheory, InstanceDerivation, Reordered, Instances, Fires, Matches;
    ReorderedSymmetric(a, b);
    forall i | i in Instances(b.rules, c.Keys) ensures NodesBounded(sha, b, c, i, limit) {
      assert i == Instance(i.rule, i.sub);
      InstancesExact(b.rules, c.Keys, i.rule, i.sub);
      if Fires(i, c.Keys) {
        var p := PartnerInstance(sha, b, a, c, i);
        FiringInstance(a, c, p);
        assert NodesBounded(sha, a, c, p, limit);
      }
    }
  }

  lemma ModelsReordered(a: Theory, b: Theory)
    requires ValidTheory(a) && ValidTheory(b) && Reordered(a, b)
    ensures ModelOf(a) == ModelOf(b)
  {
    hide ValidTheory, Reordered, Stage;
    var n := StagesStop(a, 0);
    StagesReordered(a, b, n);
    StagesReordered(a, b, n + 1);
    FixedStageIsModel(a, n);
    FixedStageIsModel(b, n);
  }

  lemma ProductiveReordered(a: Theory, b: Theory, k: nat)
    requires Reordered(a, b) && ProductiveRounds(a, k)
    ensures ProductiveRounds(b, k)
  {
    hide Reordered, Stage;
    StagesReordered(a, b, k);
    StagesReordered(a, b, k + 1);
    forall j | 0 <= j < k ensures StageGrowsAt(b, j) {
      assert StageGrowsAt(a, j);
      StagesReordered(a, b, j);
      StagesReordered(a, b, j + 1);
    }
  }

  lemma LimitsReordered(sha: Digest, a: Theory, b: Theory, limits: Limits, c: Closure, k: nat)
    requires ValidTheory(a) && ValidTheory(b) && Reordered(a, b) && WithinLimits(sha, a, limits, c, k)
    ensures WithinLimits(sha, b, limits, c, k)
  {
    hide ValidTheory, Reordered, Instances, AllNodesBounded;
    InstanceCountReordered(a, b, c.Keys);
    NodesBoundedReordered(sha, a, b, c, limits.maxProofNodes);
  }

  lemma CountersReordered(a: Theory, b: Theory, c: Closure, t: Telemetry, k: nat)
    requires ValidTheory(a) && ValidTheory(b) && Reordered(a, b) && TelemetryOk(a, c, t, k)
    ensures TelemetryOk(b, c, t, k)
  {
    hide ValidTheory, Reordered, Instances, Conflicts, FactSet;
    FactsReordered(a, b);
    InstanceCountReordered(a, b, c.Keys);
  }

  // ---- Success ----

  /** What `_saturate` may return for one ordering it may return for every other. */
  lemma SaturationCarriesOver(sha: Digest, a: Theory, b: Theory, limits: Limits, s: SaturationState)
    requires ValidTheory(a) && ValidTheory(b) && Reordered(a, b) && IsSaturation(sha, a, limits, s)
    ensures IsSaturation(sha, b, limits, s)
  {
    hide ValidTheory, Reordered, Layered, BestProofs, WithinLimits, TelemetryOk, ProductiveRounds, Conflicts,
      LiteralKey;
    var k := s.telemetry.rounds;
    ModelsReordered(a, b);
    ProductiveReordered(a, b, k);
    LayeredReordered(sha, a, b, s.closure, k);
    LayeredIsBest(sha, b, s.closure, k);
    LimitsReordered(sha, a, b, limits, s.closure, k);
    CountersReordered(a, b, s.closure, s.telemetry, k);
  }

  lemma BestClosureReordered(sha: Digest, a: Theory, b: Theory, c: Closure, k: nat)
    requires ValidTheory(a) && ValidTheory(b) && Reordered(a, b) && BestClosure(sha, a, c, k)
    ensures BestClosure(sha, b, c, k)
  {
    hide ValidTheory, Reordered, Layered, BestProofs, ProductiveRounds;
    ModelsReordered(a, b);
    ProductiveReordered(a, b, k);
    LayeredReordered(sha, a, b, c, k);
    LayeredIsBest(sha, b, c, k);
  }

  /** What `reason` may return for one ordering it may return for every other. */
  lemma ReasoningCarriesOver(sha: Digest, a: Theory, b: Theory, limits: Limits, output: ReasoningOutput)
    requires ValidTheory(a) && ValidTheory(b) && Reordered(a, b) && IsReasoning(sha, a, limits, output)
    ensures IsReasoning(sha, b, limits, output)
  {
    hide ValidTheory, Reordered, WithinLimits, TelemetryOk, BestClosure, ResultFrom;
    var k := output.telemetry.rounds;
    var c :| BestClosure(sha, a, c, k) && WithinLimits(sha, a, limits, c, k) && output.result == ResultFrom(sha, a, c)
             && TelemetryOk(a, c, output.telemetry, k);
    BestClosureReordered(sha, a, b, c, k);
    LimitsReordered(sha, a, b, limits, c, k);
    CountersReordered(a, b, c, output.telemetry, k);
    SameResult(sha, a, b, c);
  }

  // ---- Failure ----

  /** The limits a theory exceeds, and by how much, are the same for every ordering. */
  lemma ExceedsReordered(sha: Digest, a: Theory, b: Theory, limits: Limits, e: LimitError)
    requires ValidTheory(a) && ValidTheory(b) && Reordered(a, b) && Exceeds(sha, a, limits, e)
    ensures Exceeds(sha, b, limits, e)
  {
    hide ValidTheory, Reordered, Stage, Instances, InstanceDerivation, Layered, Fires;
    match e.name
    case MaxDerivedLiterals =>
      var k: nat :| |Stage(a, k)| == e.observed;
      StagesReordered(a, b, k);
    case MaxRuleFirings =>
      var k: nat :| e.observed <= |Instances(a.rules, Stage(a, k))|;
      StagesReordered(a, b, k);
      InstanceCountReordered(a, b, Stage(a, k));
      assert e.observed <= |Instances(b.rules, Stage(b, k))|;
    case MaxRounds =>
      StagesReordered(a, b, e.limit);
      StagesReordered(a, b, e.limit + 1);
    case MaxProofNodes =>
      var k, c, i: Instance :| Layered(sha, a, c, k) && i.rule in a.rules && Fires(i, c.Keys)
        && |InstanceDerivation(sha, a, c, i).nodes| == e.observed;
      LayeredReordered(sha, a, b, c, k);
      var p := PartnerInstance(sha, a, b, c, i);
      assert |InstanceDerivation(sha, b, c, p).nodes| == e.observed;
  }

  lemma TooLargeReordered(sha: Digest, a: Theory, b: Theory, limits: Limits, e: LimitError)
    requires ValidTheory(a) && ValidTheory(b) && Reordered(a, b) && ProofTooLarge(sha, a, limits, e)
    ensures ProofTooLarge(sha, b, limits, e)
  {
    hide ValidTheory, Reordered, BestClosure, ResultFrom;
    var c, k :| BestClosure(sha, a, c, k) && e.name == MaxProofNodes && e.limit == limits.maxProofNodes < e.observed
                && e.observed == |ResultFrom(sha, a, c).proof.nodes|;
    BestClosureReordered(sha, a, b, c, k);
    SameResult(sha, a, b, c);
  }

  lemma BestClosuresAgree(sha: Digest, theory: Theory, c: Closure, d: Closure, j: nat, k: nat)
    requires ValidTheory(theory) && BestClosure(sha, theory, c, j) && BestClosure(sha, theory, d, k)
    ensures c == d && j == k
  {
    hide ValidTheory, Layered, BestProofs, ProductiveRounds, Reordered;
    ReorderedReflexive(theory);
    SameRoundCount(theory, theory, j, k);
    ClosuresReordered(sha, theory, theory, c, d, k);
  }

  /** A theory on which `reason` succeeds exceeds no limit and has no proof that is too large. */
  lemma ReasoningExceedsNothing(sha: Digest, theory: Theory, limits: Limits, output: ReasoningOutput, e: LimitError)
    requires ValidTheory(theory) && IsReasoning(sha, theory, limits, output)
    ensures !Exceeds(sha, theory, limits, e) && !ProofTooLarge(sha, theory, limits, e)
  {
    hide ValidTheory, Exceeds, BestClosure, WithinLimits, TelemetryOk, ResultFrom;
    var k := output.telemetry.rounds;
    var c :| BestClosure(sha, theory, c, k) && WithinLimits(sha, theory, limits, c, k)
             && output.result == ResultFrom(sha, theory, c) && TelemetryOk(theory, c, output.telemetry, k);
    BestClosureExceedsNothing(sha, theory, limits, c, k, e);
    if ProofTooLarge(sha, theory, limits, e) {
      var d, j :| BestClosure(sha, theory, d, j) && e.limit == limits.maxProofNodes < e.observed
                  && e.observed == |ResultFrom(sha, theory, d).proof.nodes|;
      BestClosuresAgree(sha, theory, c, d, k, j);
    }
  }

  lemma BestClosureExceedsNothing(sha: Digest, theory: Theory, limits: Limits, c: Closure, k: nat, e: LimitError)
    requires ValidTheory(theory) && BestClosure(sha, theory, c, k) && WithinLimits(sha, theory, limits, c, k)
    ensures !Exceeds(sha, theory, limits, e)
  {
    hide ValidTheory, Layered, BestProofs, ProductiveRounds, WithinLimits, Exceeds;
    FittingExceeds(sha, theory, limits, c, k, e);
  }

  /** Any two outcomes of `_saturate` on reordered theories, under the contract of the method: both succeed
      with the same state, or both fail. */
  lemma SaturateOutcomeReordered(sha: Digest, a: Theory, b: Theory, limits: Limits,
                                 ra: Result<SaturationState, LimitError>, rb: Result<SaturationState, LimitError>)
    requires ValidTheory(a) && ValidTheory(b) && Reordered(a, b)
    requires if ra.Ok? then IsSaturation(sha, a, limits, ra.value) else Exceeds(sha, a, limits, ra.error)
    requires if rb.Ok? then IsSaturation(sha, b, limits, rb.value) else Exceeds(sha, b, limits, rb.error)
    ensures ra.Ok? <==> rb.Ok?
    ensures ra.Ok? ==> ra.value == rb.value
    ensures ra.Err? ==> Exceeds(sha, a, limits, rb.error) && Exceeds(sha, b, limits, ra.error)
  {
    hide ValidTheory, Reordered, IsSaturation, Exceeds;
    ReorderedSymmetric(a, b);
    if ra.Ok? && rb.Ok? {
      SaturationReordered(sha, a, b, limits, limits, ra.value, rb.value);
    } else if ra.Ok? {
      SaturationCarriesOver(sha, a, b, limits, ra.value);
      FittingExceedsNothing(sha, b, limits, ra.value, rb.error);
    } else if rb.Ok? {
      SaturationCarriesOver(sha, b, a, limits, rb.value);
      FittingExceedsNothing(sha, a, limits, rb.value, ra.error);
    } else {
      ExceedsReordered(sha, a, b, limits, ra.error);
      ExceedsReordered(sha, b, a, limits, rb.error);
    }
  }

  /** The same for `reason`. */
  lemma ReasonOutcomeReordered(sha: Digest, a: Theory, b: Theory, limits: Limits,
                               ra: Result<ReasoningOutput, LimitError>, rb: Result<ReasoningOutput, LimitError>)
    requires ValidTheory(a) && ValidTheory(b) && Reordered(a, b)
    requires if ra.Ok? then IsReasoning(sha, a, limits, ra.value)
             else Exceeds(sha, a, limits, ra.error) || ProofTooLarge(sha, a, limits, ra.error)
    requires if rb.Ok? then IsReasoning(sha, b, limits, rb.value)
             else Exceeds(sha, b, limits, rb.error) || ProofTooLarge(sha, b, limits, rb.error)
    ensures ra.Ok? <==> rb.Ok?
    ensures ra.Ok? ==> ra.value == rb.value
    ensures ra.Err? ==> Exceeds(sha, b, limits, ra.error) || ProofTooLarge(sha, b, limits, ra.error)
  {
    hide ValidTheory, Reordered, IsReasoning, Exceeds, ProofTooLarge;
    ReorderedSymmetric(a, b);
    if ra.Ok? && rb.Ok? {
      ReasoningReordered(sha, a, b, limits, limits, ra.value, rb.value);
    } else if ra.Ok? {
      ReasoningCarriesOver(sha, a, b, limits, ra.value);
      ReasoningExceedsNothing(sha, b, limits, ra.value, rb.error);
    } else if rb.Ok? {
      ReasoningCarriesOver(sha, b, a, limits, rb.value);
      ReasoningExceedsNothing(sha, a, limits, rb.value, ra.error);
    } else if Exceeds(sha, a, limits, ra.error) {
      ExceedsReordered(sha, a, b, limits, ra.error);
    } else {
      TooLargeReordered(sha, a, b, limits, ra.error);
    }
  }
}
