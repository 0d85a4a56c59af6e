/** One round of the engine: the rule instances it considers and the candidate it keeps for each new
    literal (the body of the loop in backend/src/verilogic_ns_api/reasoning/engine.py, lines 142-168). */
module Rounds {
  import opened Keys
  import opened Logic
  import opened Semantics
  import opened Unification
  import opened Proofs
  import opened Choices

  datatype Counters = Counters(ruleInstances: nat, successfulFirings: nat, duplicates: nat)

  /** `d` is the best derivation of `l` among the instances in `seen`. */
  ghost predicate BestSeen(sha: Digest, theory: Theory, closure: Closure, seen: set<Instance>, l: CanonicalLiteral,
                           d: Derivation)
  {
    && (exists i ::
          i in seen && Concludes(i, l) && Fires(i, closure.Keys) && d == InstanceDerivation(sha, theory, closure, i))
    && (forall i :: i in seen && Concludes(i, l) && Fires(i, closure.Keys) ==>
          Leq(d.choiceKey, InstanceDerivation(sha, theory, closure, i).choiceKey))
  }

  ghost predicate HeadSeen(seen: set<Instance>, l: CanonicalLiteral) {
    exists i :: i in seen && Concludes(i, l)
  }

  ghost predicate AllFire(theory: Theory, closure: Closure, seen: set<Instance>) {
    forall i :: i in seen ==> i.rule in theory.rules && Fires(i, closure.Keys)
  }

  ghost predicate NodesBounded(sha: Digest, theory: Theory, closure: Closure, i: Instance, limit: nat) {
    Fires(i, closure.Keys) ==> |InstanceDerivation(sha, theory, closure, i).nodes| <= limit
  }

  /** What holds in the middle of a round, when exactly the instances in `seen` have been considered:
      the candidates are the best derivations of their new conclusions, and every instance is counted
      once, as a new candidate or as a duplicate. */
  ghost predicate MidRound(sha: Digest, theory: Theory, limits: Limits, closure: Closure, seen: set<Instance>,
                           candidates: Closure, start: Counters, now: Counters)
  {
    && AllFire(theory, closure, seen)
    && (forall l :: l in candidates <==> l !in closure && HeadSeen(seen, l))
    && (forall l :: l in candidates ==> BestSeen(sha, theory, closure, seen, l, candidates[l]))
    && (forall i :: i in seen ==> NodesBounded(sha, theory, closure, i, limits.maxProofNodes))
    && now.ruleInstances == start.ruleInstances + |seen|
    && now.ruleInstances <= limits.maxRuleFirings
    && now.successfulFirings == start.successfulFirings + |candidates|
    && now.duplicates + |candidates| == start.duplicates + |seen|
  }

  lemma BestSeenKeep(sha: Digest, theory: Theory, closure: Closure, seen: set<Instance>, i: Instance,
                     l: CanonicalLiteral, d: Derivation)
    requires BestSeen(sha, theory, closure, seen, l, d) && Fires(i, closure.Keys)
    requires Concludes(i, l) ==> Leq(d.choiceKey, InstanceDerivation(sha, theory, closure, i).choiceKey)
    ensures BestSeen(sha, theory, closure, seen + {i}, l, d)
  {
    hide Leq, InstanceDerivation, Concludes, Fires;
    var j :| j in seen && Concludes(j, l) && Fires(j, closure.Keys) && d == InstanceDerivation(sha, theory, closure, j);
    assert j in seen + {i};
  }

  lemma BestSeenReplace(sha: Digest, theory: Theory, closure: Closure, seen: set<Instance>, i: Instance,
                        l: CanonicalLiteral, old_: Derivation)
    requires BestSeen(sha, theory, closure, seen, l, old_) && Fires(i, closure.Keys) && Concludes(i, l)
    requires Leq(InstanceDerivation(sha, theory, closure, i).choiceKey, old_.choiceKey)
    ensures BestSeen(sha, theory, closure, seen + {i}, l, InstanceDerivation(sha, theory, closure, i))
  {
    hide Leq, InstanceDerivation, Concludes, Fires;
    var d := InstanceDerivation(sha, theory, closure, i);
    LeqReflexive(d.choiceKey);
    assert i in seen + {i};
    forall j | j in seen + {i} && Concludes(j, l) && Fires(j, closure.Keys)
      ensures Leq(d.choiceKey, InstanceDerivation(sha, theory, closure, j).choiceKey)
    {
      if j in seen {
        Transitive(d.choiceKey, old_.choiceKey, InstanceDerivation(sha, theory, closure, j).choiceKey);
      }
    }
  }

  lemma BestSeenFirst(sha: Digest, theory: Theory, closure: Closure, seen: set<Instance>, i: Instance,
                      l: CanonicalLiteral)
    requires !HeadSeen(seen, l) && Fires(i, closure.Keys) && Concludes(i, l)
    ensures BestSeen(sha, theory, closure, seen + {i}, l, InstanceDerivation(sha, theory, closure, i))
  {
    hide Leq, InstanceDerivation, Concludes, Fires;
    LeqReflexive(InstanceDerivation(sha, theory, closure, i).choiceKey);
    assert i in seen + {i};
  }

  lemma ConcludesOne(i: Instance, l: CanonicalLiteral, m: CanonicalLiteral)
    requires Concludes(i, l) && Concludes(i, m)
    ensures l == m
  {
  }

  /** Which of the three updates the engine makes for an instance with conclusion `l`. */
  function UpdatedCandidates(closure: Closure, candidates: Closure, l: CanonicalLiteral, d: Derivation): Closure {
    if l in closure then candidates
    else if l !in candidates || Less(d.choiceKey, candidates[l].choiceKey) then candidates[l := d]
    else candidates
  }

  function UpdatedCounters(closure: Closure, candidates: Closure, l: CanonicalLiteral, now: Counters): Counters {
    if l !in closure && l !in candidates
    then Counters(now.ruleInstances + 1, now.successfulFirings + 1, now.duplicates)
    else Counters(now.ruleInstances + 1, now.successfulFirings, now.duplicates + 1)
  }

  lemma MidRoundStep(sha: Digest, theory: Theory, limits: Limits, closure: Closure, seen: set<Instance>,
                     candidates: Closure, start: Counters, now: Counters, i: Instance, l: CanonicalLiteral)
    requires MidRound(sha, theory, limits, closure, seen, candidates, start, now)
    requires i !in seen && i.rule in theory.rules && Fires(i, closure.Keys) && Concludes(i, l)
    requires now.ruleInstances + 1 <= limits.maxRuleFirings
    requires |InstanceDerivation(sha, theory, closure, i).nodes| <= limits.maxProofNodes
    ensures MidRound(sha, theory, limits, closure, seen + {i},
                     UpdatedCandidates(closure, candidates, l, InstanceDerivation(sha, theory, closure, i)),
                     start, UpdatedCounters(closure, candidates, l, now))
  {
    hide Leq, InstanceDerivation, Concludes, Fires, BestSeen, HeadSeen;
    var d := InstanceDerivation(sha, theory, closure, i);
    var after := UpdatedCandidates(closure, candidates, l, d);
    var more := seen + {i};
    forall m ensures m in after <==> m !in closure && HeadSeen(more, m) {
      HeadSeenGrows(seen, i, l, m);
    }
    forall m | m in after ensures BestSeen(sha, theory, closure, more, m, after[m]) {
      if m != l {
        if Concludes(i, m) {
          ConcludesOne(i, l, m);
        }
        BestSeenKeep(sha, theory, closure, seen, i, m, candidates[m]);
      } else {
        BestSeenUpdate(sha, theory, closure, seen, candidates, i, l);
      }
    }
  }

  lemma BestSeenUpdate(sha: Digest, theory: Theory, closure: Closure, seen: set<Instance>, candidates: Closure,
                       i: Instance, l: CanonicalLiteral)
    requires l !in closure && Fires(i, closure.Keys) && Concludes(i, l)
    requires if l in candidates then BestSeen(sha, theory, closure, seen, l, candidates[l]) else !HeadSeen(seen, l)
    ensures l in UpdatedCandidates(closure, candidates, l, InstanceDerivation(sha, theory, closure, i))
    ensures BestSeen(sha, theory, closure, seen + {i}, l,
                     UpdatedCandidates(closure, candidates, l, InstanceDerivation(sha, theory, closure, i))[l])
  {
    hide Leq, InstanceDerivation, Concludes, Fires, BestSeen, HeadSeen;
    var d := InstanceDerivation(sha, theory, closure, i);
    if l !in candidates {
      BestSeenFirst(sha, theory, closure, seen, i, l);
    } else {
      Total(d.choiceKey, candidates[l].choiceKey);
      if Less(d.choiceKey, candidates[l].choiceKey) {
        BestSeenReplace(sha, theory, closure, seen, i, l, candidates[l]);
      } else {
        LeqReflexive(d.choiceKey);
        BestSeenKeep(sha, theory, closure, seen, i, l, candidates[l]);
      }
    }
  }

  lemma HeadSeenGrows(seen: set<Instance>, i: Instance, l: CanonicalLiteral, m: CanonicalLiteral)
    requires Concludes(i, l)
    ensures HeadSeen(seen + {i}, m) <==> HeadSeen(seen, m) || m == l
  {
    hide Concludes;
    assert i in seen + {i};
    if HeadSeen(seen + {i}, m) {
      var j :| j in seen + {i} && Concludes(j, m);
      if j == i {
        ConcludesOne(i, l, m);
      }
    }
    if HeadSeen(seen, m) {
      var j :| j in seen && Concludes(j, m);
      assert j in seen + {i};
    }
  }

  /** The instances a round considers: those over the closure with a premise in the delta. */
  ghost predicate DeltaInstance(theory: Theory, closure: Closure, delta: set<CanonicalLiteral>, i: Instance) {
    && i.rule in theory.rules
    && Matches(i.rule.body, i.sub, closure.Keys)
    && Touches(PremisesOf(i.rule.body, i.sub), delta)
  }

  /** The order in which a round takes its instances: by rule id, then by bindings and premises. */
  ghost function InstanceKey(i: Instance): Key
    requires BodyVars(i.rule.body) <= i.sub.Keys
  {
    Pair(Str(i.rule.id), StateKey(JoinState(i.sub, PremisesOf(i.rule.body, i.sub))))
  }

  ghost predicate Precedes(j: Instance, i: Instance) {
    && BodyVars(j.rule.body) <= j.sub.Keys && BodyVars(i.rule.body) <= i.sub.Keys
    && Less(InstanceKey(j), InstanceKey(i))
  }

  /** Exactly the instances that the round takes before `i`. */
  ghost predicate TakenBefore(theory: Theory, closure: Closure, delta: set<CanonicalLiteral>, seen: set<Instance>,
                              i: Instance)
  {
    forall j :: j in seen <==> DeltaInstance(theory, closure, delta, j) && Precedes(j, i)
  }

  /** A limit is exceeded at a new instance over the closure, after the instances in `seen` have passed; the
      firings are checked first. */
  ghost predicate RoundError(sha: Digest, theory: Theory, limits: Limits, closure: Closure, seen: set<Instance>,
                             start: Counters, i: Instance, e: LimitError)
  {
    && i !in seen && i.rule in theory.rules && Fires(i, closure.Keys)
    && (forall j :: j in seen ==> NodesBounded(sha, theory, closure, j, limits.maxProofNodes))
    && start.ruleInstances + |seen| <= limits.maxRuleFirings
    && match e.name
       case MaxRuleFirings =>
         && e.limit == limits.maxRuleFirings
         && e.observed == start.ruleInstances + |seen| + 1 == e.limit + 1
       case MaxProofNodes =>
         && start.ruleInstances + |seen| + 1 <= limits.maxRuleFirings
         && e.limit == limits.maxProofNodes
         && e.observed == |InstanceDerivation(sha, theory, closure, i).nodes| > e.limit
       case _ => false
  }

  lemma MidRoundCounts(sha: Digest, theory: Theory, limits: Limits, closure: Closure, seen: set<Instance>,
                       candidates: Closure, start: Counters, now: Counters)
    requires MidRound(sha, theory, limits, closure, seen, candidates, start, now)
    ensures now.ruleInstances == start.ruleInstances + |seen| <= limits.maxRuleFirings
    ensures forall i :: i in seen ==> NodesBounded(sha, theory, closure, i, limits.maxProofNodes)
  {
  }

  /** The conclusion of a match and the derivation it offers. */
  method OfferOf(sha: Digest, theory: Theory, closure: Closure, rule: Rule, st: JoinState, sourceText: string)
    returns (conclusion: CanonicalLiteral, candidate: Derivation)
    requires RangeRestricted(rule) && rule.body != []
    requires Matches(rule.body, st.sub, closure.Keys) && st.premises == PremisesOf(rule.body, st.sub)
    requires sourceText == TextOf(theory, rule.sourceId)
    ensures Fires(Instance(rule, st.sub), closure.Keys) && Concludes(Instance(rule, st.sub), conclusion)
    ensures candidate == InstanceDerivation(sha, theory, closure, Instance(rule, st.sub))
  {
    hide PremisesOf, RuleDerivation, Matches, TextOf;
    ghost var i := Instance(rule, st.sub);
    MatchBinds(rule.body, st.sub, closure.Keys);
    PremisesKnown(i, closure.Keys);
    var grounded := GroundLiteralOf(rule.head, st.sub);
    conclusion := grounded.value;
    candidate := MakeRuleDerivation(sha, conclusion, rule, st.sub, DerivationsOf(closure, st.premises), sourceText);
  }

  /** One match of one rule. */
  method ConsiderInstance(sha: Digest, theory: Theory, limits: Limits, closure: Closure, rule: Rule, st: JoinState,
                          sourceText: string, candidates: Closure, now: Counters, ghost seen: set<Instance>,
                          ghost start: Counters)
    returns (r: Result<(Closure, Counters), LimitError>)
    requires rule in theory.rules && RangeRestricted(rule) && rule.body != []
    requires Matches(rule.body, st.sub, closure.Keys) && st.premises == PremisesOf(rule.body, st.sub)
    requires sourceText == TextOf(theory, rule.sourceId)
    requires Instance(rule, st.sub) !in seen
    requires MidRound(sha, theory, limits, closure, seen, candidates, start, now)
    ensures r.Ok? ==>
              MidRound(sha, theory, limits, closure, seen + {Instance(rule, st.sub)}, r.value.0, start, r.value.1)
    ensures r.Err? ==> RoundError(sha, theory, limits, closure, seen, start, Instance(rule, st.sub), r.error)
  {
    hide Leq, PremisesOf, MidRound, Matches, TextOf, InstanceDerivation, Fires, Concludes, NodesBounded;
    MidRoundCounts(sha, theory, limits, closure, seen, candidates, start, now);
    ghost var i := Instance(rule, st.sub);
    MatchFires(rule, st.sub, closure.Keys);
    if now.ruleInstances + 1 > limits.maxRuleFirings {
      return Err(LimitError(MaxRuleFirings, limits.maxRuleFirings, now.ruleInstances + 1));
    }
    var conclusion, candidate := OfferOf(sha, theory, closure, rule, st, sourceText);
    if |candidate.nodes| > limits.maxProofNodes {
      return Err(LimitError(MaxProofNodes, limits.maxProofNodes, |candidate.nodes|));
    }
    MidRoundStep(sha, theory, limits, closure, seen, candidates, start, now, i, conclusion);
    var count := now.ruleInstances + 1;
    if conclusion in closure {
      return Ok((candidates, Counters(count, now.successfulFirings, now.duplicates + 1)));
    }
    if conclusion !in candidates {
      return Ok((candidates[conclusion := candidate], Counters(count, now.successfulFirings + 1, now.duplicates)));
    } else if Less(candidate.choiceKey, candidates[conclusion].choiceKey) {
      return Ok((candidates[conclusion := candidate], Counters(count, now.successfulFirings, now.duplicates + 1)));
    } else {
      return Ok((candidates, Counters(count, now.successfulFirings, now.duplicates + 1)));
    }
  }

  lemma MatchFires(rule: Rule, s: Subst, known: set<CanonicalLiteral>)
    requires rule.body != [] && RangeRestricted(rule) && Matches(rule.body, s, known)
    ensures Fires(Instance(rule, s), known)
  {
  }

  lemma MatchBinds(body: seq<RuleLiteral>, s: Subst, known: set<CanonicalLiteral>)
    requires Matches(body, s, known)
    ensures s.Keys == BodyVars(body)
  {
  }

  /** Besides those in `before`, exactly the instances of the rule that it takes before `i`. */
  ghost predicate TakenInRule(theory: Theory, closure: Closure, delta: set<CanonicalLiteral>, before: set<Instance>,
                              seen: set<Instance>, i: Instance)
  {
    forall j :: j in seen <==>
      j in before || (j.rule == i.rule && DeltaInstance(theory, closure, delta, j) && Precedes(j, i))
  }

  lemma MatchOrder(rule: Rule, st: JoinState, s: Subst)
    requires BodyVars(rule.body) <= st.sub.Keys && st.premises == PremisesOf(rule.body, st.sub)
    requires BodyVars(rule.body) <= s.Keys
    ensures Precedes(Instance(rule, s), Instance(rule, st.sub)) <==>
              Less(StateKey(JoinState(s, PremisesOf(rule.body, s))), StateKey(st))
  {
    hide StateKey, PremisesOf;
  }

  /** The first matches of a rule are those that come earlier. */
  lemma TakenSoFar(theory: Theory, closure: Closure, delta: set<CanonicalLiteral>, rule: Rule,
                   matches: seq<JoinState>, n: nat, before: set<Instance>, seen: set<Instance>)
    requires rule in theory.rules && n < |matches| && StrictlySorted(matches, StateKey)
    requires forall st :: st in matches <==>
               && Matches(rule.body, st.sub, closure.Keys)
               && st.premises == PremisesOf(rule.body, st.sub)
               && Touches(st.premises, delta)
    requires forall i :: i in seen <==>
               i in before || (i.rule == rule && exists j :: 0 <= j < n && matches[j].sub == i.sub)
    ensures TakenInRule(theory, closure, delta, before, seen, Instance(rule, matches[n].sub))
  {
    hide Leq, PremisesOf, Matches, Touches, StateKey;
    var i := Instance(rule, matches[n].sub);
    forall j: Instance | j.rule == rule
      ensures (exists m :: 0 <= m < n && matches[m].sub == j.sub) <==>
                DeltaInstance(theory, closure, delta, j) && Precedes(j, i)
    {
      PrecedingMatch(theory, closure, delta, rule, matches, n, j.sub);
    }
  }

  lemma PrecedingMatch(theory: Theory, closure: Closure, delta: set<CanonicalLiteral>, rule: Rule,
                     matches: seq<JoinState>, n: nat, s: Subst)
    requires rule in theory.rules && n < |matches| && StrictlySorted(matches, StateKey)
    requires forall st :: st in matches <==>
               && Matches(rule.body, st.sub, closure.Keys)
               && st.premises == PremisesOf(rule.body, st.sub)
               && Touches(st.premises, delta)
    ensures (exists m :: 0 <= m < n && matches[m].sub == s) <==>
              DeltaInstance(theory, closure, delta, Instance(rule, s))
              && Precedes(Instance(rule, s), Instance(rule, matches[n].sub))
  {
    hide Leq, PremisesOf, Matches, Touches, StateKey, Precedes;
    assert matches[n] in matches;
    MatchBinds(rule.body, matches[n].sub, closure.Keys);
    if m :| 0 <= m < n && matches[m].sub == s {
      assert matches[m] in matches;
      MatchBinds(rule.body, s, closure.Keys);
      MatchOrder(rule, matches[n], s);
    }
    if DeltaInstance(theory, closure, delta, Instance(rule, s))
       && Precedes(Instance(rule, s), Instance(rule, matches[n].sub)) {
      MatchBinds(rule.body, s, closure.Keys);
      var st := JoinState(s, PremisesOf(rule.body, s));
      assert st in matches;
      var m :| 0 <= m < |matches| && matches[m] == st;
      MatchOrder(rule, matches[n], s);
      if m >= n {
        Antisymmetric(StateKey(st), StateKey(matches[n]));
      }
    }
  }

  /** Every match of one rule. */
  method ConsiderRule(sha: Digest, theory: Theory, limits: Limits, closure: Closure, delta: set<CanonicalLiteral>,
                      rule: Rule, matches: seq<JoinState>, sourceText: string, candidates: Closure, now: Counters,
                      ghost seen: set<Instance>, ghost start: Counters)
    returns (r: Result<(Closure, Counters), LimitError>, ghost after: set<Instance>)
    requires rule in theory.rules && RangeRestricted(rule) && rule.body != []
    requires forall st :: st in matches <==>
               && Matches(rule.body, st.sub, closure.Keys)
               && st.premises == PremisesOf(rule.body, st.sub)
               && Touches(st.premises, delta)
    requires StrictlySorted(matches, StateKey)
    requires sourceText == TextOf(theory, rule.sourceId)
    requires forall i :: i in seen ==> i.rule != rule && DeltaInstance(theory, closure, delta, i)
    requires MidRound(sha, theory, limits, closure, seen, candidates, start, now)
    ensures r.Ok? ==> MidRound(sha, theory, limits, closure, after, r.value.0, start, r.value.1)
    ensures r.Ok? ==> forall i :: i in after <==>
        i in seen || (i.rule == rule && DeltaInstance(theory, closure, delta, i))
    ensures r.Err? ==> exists i: Instance ::
              && i.rule == rule && DeltaInstance(theory, closure, delta, i)
              && RoundError(sha, theory, limits, closure, after, start, i, r.error)
              && TakenInRule(theory, closure, delta, seen, after, i)
  {
    hide Leq, PremisesOf, MidRound, RoundError, Matches, Touches, TextOf, StateKey;
    StrictlySortedDistinct(matches, StateKey);
    var cs, count := candidates, now;
    after := seen;
    for n := 0 to |matches|
      invariant MidRound(sha, theory, limits, closure, after, cs, start, count)
      invariant forall i :: i in after <==>
          i in seen || (i.rule == rule && exists j :: 0 <= j < n && matches[j].sub == i.sub)
      invariant forall i :: i in after ==> DeltaInstance(theory, closure, delta, i)
    {
      var st := matches[n];
      assert st in matches;
      ghost var i := Instance(rule, st.sub);
      forall j | 0 <= j < n ensures matches[j].sub != st.sub {
        assert matches[j] in matches && matches[j] != st;
      }
      var step := ConsiderInstance(sha, theory, limits, closure, rule, st, sourceText, cs, count, after, start);
      if step.Err? {
        assert DeltaInstance(theory, closure, delta, i);
        TakenSoFar(theory, closure, delta, rule, matches, n, seen, after);
        return Err(step.error), after;
      }
      cs, count := step.value.0, step.value.1;
      after := after + {i};
    }
    forall i: Instance | i.rule == rule && DeltaInstance(theory, closure, delta, i) ensures i in after {
      MatchBinds(i.rule.body, i.sub, closure.Keys);
      var st := JoinState(i.sub, PremisesOf(i.rule.body, i.sub));
      assert st in matches;
    }
    return Ok((cs, count)), after;
  }
}
