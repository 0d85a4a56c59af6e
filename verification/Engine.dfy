/** The forward-chaining engine (backend/src/verilogic_ns_api/reasoning/engine.py). */
module Engine {
  import opened Keys
  import opened Logic
  import opened Semantics
  import opened Unification
  import opened Proofs
  import opened Checks
  import opened Choices
  import opened Rounds

  datatype Telemetry = Telemetry(initialFactCount: nat, derivedFactCount: nat, totalClosureSize: nat,
                                 conflictCount: nat, rounds: nat, ruleInstancesConsidered: nat,
                                 successfulRuleFirings: nat, duplicateConclusions: nat, maximumProofDepth: nat)

  datatype SaturationState = SaturationState(closure: Closure, conflicts: seq<CanonicalLiteral>, telemetry: Telemetry)

  datatype ClosureEntry = ClosureEntry(literal: CanonicalLiteral, depth: nat)

  datatype SaturationOutput = SaturationOutput(theoryId: string, theoryHash: string, closure: seq<ClosureEntry>,
                                               conflicts: seq<CanonicalLiteral>, telemetry: Telemetry)

  datatype ReasoningOutput = ReasoningOutput(result: ReasoningResult, telemetry: Telemetry)

  // ---- What a finished saturation is ----

  /** The number of productive rounds of the theory. */
  ghost predicate ProductiveRounds(theory: Theory, k: nat) {
    && Stage(theory, k + 1) == Stage(theory, k)
    && forall j :: 0 <= j < k ==> StageGrowsAt(theory, j)
  }

  ghost predicate AllNodesBounded(sha: Digest, theory: Theory, closure: Closure, known: set<CanonicalLiteral>,
                                  limit: nat) {
    forall i :: i in Instances(theory.rules, known) ==> NodesBounded(sha, theory, closure, i, limit)
  }

  /** What the run needs fits the limits. */
  ghost predicate WithinLimits(sha: Digest, theory: Theory, limits: Limits, closure: Closure, k: nat) {
    && |closure| <= limits.maxDerivedLiterals
    && |Instances(theory.rules, closure.Keys)| <= limits.maxRuleFirings
    && k <= limits.maxRounds
    && AllNodesBounded(sha, theory, closure, closure.Keys, limits.maxProofNodes)
  }

  /** Every counter, in terms of the least model: each rule instance over it is considered once, and
      each fact and each instance ends as a closure entry or as a duplicate. */
  ghost predicate TelemetryOk(theory: Theory, closure: Closure, t: Telemetry, k: nat) {
    && t.initialFactCount == |theory.facts|
    && t.totalClosureSize == |closure|
    && t.derivedFactCount == |closure| - |FactSet(theory)|
    && t.successfulRuleFirings == t.derivedFactCount
    && t.ruleInstancesConsidered == |Instances(theory.rules, closure.Keys)|
    && t.initialFactCount + t.ruleInstancesConsidered == t.totalClosureSize + t.duplicateConclusions
    && t.conflictCount == |Conflicts(closure.Keys)|
    && t.rounds == k
    && t.maximumProofDepth == k
  }

  ghost predicate IsSaturation(sha: Digest, theory: Theory, limits: Limits, s: SaturationState)
    requires ValidTheory(theory)
  {
    && s.closure.Keys == ModelOf(theory)
    && ProductiveRounds(theory, s.telemetry.rounds)
    && Layered(sha, theory, s.closure, s.telemetry.rounds)
    && BestProofs(sha, theory, s.closure)
    && WithinLimits(sha, theory, limits, s.closure, s.telemetry.rounds)
    && TelemetryOk(theory, s.closure, s.telemetry, s.telemetry.rounds)
    && StrictlySorted(s.conflicts, LiteralKey)
    && (forall l :: l in s.conflicts <==> l in Conflicts(s.closure.Keys))
  }

  /** A limit error is raised only for a limit the theory's own closure exceeds. */
  ghost predicate Exceeds(sha: Digest, theory: Theory, limits: Limits, e: LimitError) {
    match e.name
    case MaxDerivedLiterals =>
      e.limit == limits.maxDerivedLiterals < e.observed && exists k: nat :: |Stage(theory, k)| == e.observed
    case MaxRuleFirings =>
      && e.limit == limits.maxRuleFirings && e.observed == e.limit + 1
      && exists k: nat :: e.observed <= |Instances(theory.rules, Stage(theory, k))|
    case MaxRounds =>
      e.limit == limits.maxRounds && e.observed == e.limit + 1 && StageGrowsAt(theory, e.limit)
    case MaxProofNodes =>
      && e.limit == limits.maxProofNodes < e.observed
      && exists k, closure, i: Instance ::
           && Layered(sha, theory, closure, k) && i.rule in theory.rules && Fires(i, closure.Keys)
           && |InstanceDerivation(sha, theory, closure, i).nodes| == e.observed
  }

  // ---- What the engine answers ----

  function Find(closure: Closure, l: CanonicalLiteral): Option<Derivation> {
    if l in closure then Some(closure[l]) else None
  }

  function StatusFor(support: bool, opposition: bool): Status {
    if support && opposition then Inconsistent
    else if support then Entailed
    else if opposition then Contradicted
    else Unknown
  }

  /** The result read off a closure with its chosen derivations. */
  ghost function ResultFrom(sha: Digest, theory: Theory, closure: Closure): ReasoningResult {
    var query := Canonical(theory.query);
    var status := StatusFor(query in closure, query.Opposite() in closure);
    ReasoningResult(theory.theoryId, status, query, Conflicts(closure.Keys) != {}, |Conflicts(closure.Keys)|,
                    ProofOf(sha, theory, query, status, Find(closure, query), Find(closure, query.Opposite())))
  }

  /** The closure holds the least model with the best derivations, found in `k` productive rounds. */
  ghost predicate BestClosure(sha: Digest, theory: Theory, closure: Closure, k: nat)
    requires ValidTheory(theory)
  {
    && closure.Keys == ModelOf(theory) && ProductiveRounds(theory, k)
    && Layered(sha, theory, closure, k) && BestProofs(sha, theory, closure)
  }

  /** What `reason` returns: the result of the best closure, within the limits. */
  ghost predicate IsReasoning(sha: Digest, theory: Theory, limits: Limits, output: ReasoningOutput)
    requires ValidTheory(theory)
  {
    exists closure ::
      && BestClosure(sha, theory, closure, output.telemetry.rounds)
      && WithinLimits(sha, theory, limits, closure, output.telemetry.rounds)
      && output.result == ResultFrom(sha, theory, closure)
      && |output.result.proof.nodes| <= limits.maxProofNodes
      && TelemetryOk(theory, closure, output.telemetry, output.telemetry.rounds)
  }

  /** The two derivations merge into a proof with too many nodes. */
  ghost predicate ProofTooLarge(sha: Digest, theory: Theory, limits: Limits, e: LimitError)
    requires ValidTheory(theory)
  {
    exists closure, k ::
      && BestClosure(sha, theory, closure, k)
      && e.name == MaxProofNodes && e.limit == limits.maxProofNodes < e.observed
      && e.observed == |ResultFrom(sha, theory, closure).proof.nodes|
  }

  // ---- The facts ----

  lemma FactChoiceOrder(sha: Digest, theory: Theory, f: GroundLiteral, g: GroundLiteral)
    requires Canonical(f) == Canonical(g) && Leq(FactKey(f), FactKey(g))
    ensures Leq(FactDerivation(sha, theory, f).choiceKey, FactDerivation(sha, theory, g).choiceKey)
  {
    PairLeq(Str(f.pred), FactKey(f).tail, FactKey(g).tail);
    PairLeq(Flag(f.negated), FactKey(f).tail.tail, FactKey(g).tail.tail);
    PairLeq(StrTuple(f.arguments), Str(f.sourceId), Str(g.sourceId));
    var a, b := FactDerivation(sha, theory, f), FactDerivation(sha, theory, g);
    PairLeq(Num(0), a.choiceKey.tail, b.choiceKey.tail);
    PairLeq(Num(1), a.choiceKey.tail.tail, b.choiceKey.tail.tail);
    if f.sourceId == g.sourceId {
      assert f == g;
      LeqReflexive(a.choiceKey);
    }
  }

  lemma PairLeq(x: Key, a: Key, b: Key)
    ensures Leq(Pair(x, a), Pair(x, b)) == Leq(a, b)
  {
  }

  lemma FactSourceKnown(theory: Theory, f: GroundLiteral)
    requires ValidTheory(theory) && f in theory.facts
    ensures f.sourceId in Lookup(theory.sources, SOURCE_ID)
  {
    assert !HasFault(AsPattern(f), Declared(theory), map[], UnknownSource);
  }

  /** The closure holds the best derivation of every fact among `facts`. */
  ghost predicate BestOf(sha: Digest, theory: Theory, facts: seq<GroundLiteral>, closure: Closure) {
    && (forall f :: f in facts ==> Canonical(f) in closure)
    && (forall l :: l in closure ==>
      exists f :: f in facts && Canonical(f) == l && closure[l] == FactDerivation(sha, theory, f))
    && (forall f :: f in facts ==> Leq(closure[Canonical(f)].choiceKey, FactDerivation(sha, theory, f).choiceKey))
  }

  /** The first loop of `_saturate`. Because the facts are sorted, a repeated literal never replaces
      the derivation already chosen, so each fact is either a new entry or a counted duplicate. */
  method InitialClosure(sha: Digest, theory: Theory) returns (closure: Closure, duplicates: nat)
    requires ValidTheory(theory)
    ensures Layered(sha, theory, closure, 0)
    ensures |closure| + duplicates == |theory.facts|
  {
    hide Leq, SourceDerivation, BestOf, ValidTheory, FactKey, Layered, Less, Lookup;
    var sources := Lookup(theory.sources, SOURCE_ID);
    var facts := SortBy(theory.facts, FactKey);
    SortBySorted(theory.facts, FactKey);
    SortByMultiset(theory.facts, FactKey);
    closure, duplicates := map[], 0;
    BestOfNone(sha, theory);
    assert facts[..0] == [];
    for n := 0 to |facts|
      invariant BestOf(sha, theory, facts[..n], closure)
      invariant |closure| + duplicates == n
    {
      var fact := facts[n];
      assert fact in facts;
      FactSourceKnown(theory, fact);
      var literal := Canonical(fact);
      var candidate := SourceDerivation(sha, literal, fact.sourceId, sources[fact.sourceId].text);
      CandidateIs(sha, theory, fact);
      NextFact(sha, theory, facts, n, closure);
      if literal !in closure || Less(candidate.choiceKey, closure[literal].choiceKey) {
        closure := closure[literal := candidate];
      } else {
        duplicates := duplicates + 1;
      }
    }
    assert facts[..|facts|] == facts;
    BestOfFacts(sha, theory, facts, closure);
  }

  lemma CandidateIs(sha: Digest, theory: Theory, f: GroundLiteral)
    requires f.sourceId in Lookup(theory.sources, SOURCE_ID)
    ensures SourceDerivation(sha, Canonical(f), f.sourceId, Lookup(theory.sources, SOURCE_ID)[f.sourceId].text) ==
              FactDerivation(sha, theory, f)
  {
    hide SourceDerivation, Lookup;
  }

  /** A further fact either is new or loses to the one kept for its literal. */
  lemma NextFact(sha: Digest, theory: Theory, facts: seq<GroundLiteral>, n: nat, closure: Closure)
    requires n < |facts| && Sorted(facts, FactKey) && BestOf(sha, theory, facts[..n], closure)
    ensures var l, d := Canonical(facts[n]), FactDerivation(sha, theory, facts[n]);
            if l in closure
            then !Less(d.choiceKey, closure[l].choiceKey) && BestOf(sha, theory, facts[..n + 1], closure)
            else BestOf(sha, theory, facts[..n + 1], closure[l := d])
  {
    hide Leq, FactDerivation, BestOf, FactKey, Less;
    assert facts[..n + 1] == facts[..n] + [facts[n]];
    if Canonical(facts[n]) in closure {
      LaterFactLoses(sha, theory, facts, n, closure);
      NotLess(FactDerivation(sha, theory, facts[n]).choiceKey, closure[Canonical(facts[n])].choiceKey);
      BestOfKeep(sha, theory, facts[..n], closure, facts[n]);
    } else {
      BestOfNew(sha, theory, facts[..n], closure, facts[n]);
    }
  }

  lemma BestOfNone(sha: Digest, theory: Theory)
    ensures BestOf(sha, theory, [], map[])
  {
  }

  lemma LaterFactLoses(sha: Digest, theory: Theory, facts: seq<GroundLiteral>, n: nat, closure: Closure)
    requires n < |facts| && Sorted(facts, FactKey) && BestOf(sha, theory, facts[..n], closure)
    requires Canonical(facts[n]) in closure
    ensures Leq(closure[Canonical(facts[n])].choiceKey, FactDerivation(sha, theory, facts[n]).choiceKey)
  {
    hide Leq, FactDerivation, FactKey;
    var l := Canonical(facts[n]);
    var f :| f in facts[..n] && Canonical(f) == l && closure[l] == FactDerivation(sha, theory, f);
    var j :| 0 <= j < n && facts[j] == f;
    FactChoiceOrder(sha, theory, f, facts[n]);
  }

  lemma NotLess(a: Key, b: Key)
    requires Leq(b, a)
    ensures !Less(a, b)
  {
    if Leq(a, b) {
      Antisymmetric(a, b);
    }
  }

  lemma BestOfNew(sha: Digest, theory: Theory, facts: seq<GroundLiteral>, closure: Closure, f: GroundLiteral)
    requires BestOf(sha, theory, facts, closure) && Canonical(f) !in closure
    ensures BestOf(sha, theory, facts + [f], closure[Canonical(f) := FactDerivation(sha, theory, f)])
  {
    hide Leq, FactDerivation;
    var after := closure[Canonical(f) := FactDerivation(sha, theory, f)];
    LeqReflexive(FactDerivation(sha, theory, f).choiceKey);
    forall l | l in after
      ensures exists g :: g in facts + [f] && Canonical(g) == l && after[l] == FactDerivation(sha, theory, g)
    {
      if l == Canonical(f) {
        assert f in facts + [f];
      } else {
        var g :| g in facts && Canonical(g) == l && closure[l] == FactDerivation(sha, theory, g);
        assert g in facts + [f];
      }
    }
  }

  lemma BestOfKeep(sha: Digest, theory: Theory, facts: seq<GroundLiteral>, closure: Closure, f: GroundLiteral)
    requires BestOf(sha, theory, facts, closure) && Canonical(f) in closure
    requires Leq(closure[Canonical(f)].choiceKey, FactDerivation(sha, theory, f).choiceKey)
    ensures BestOf(sha, theory, facts + [f], closure)
  {
    hide Leq, FactDerivation;
    forall l | l in closure
      ensures exists g :: g in facts + [f] && Canonical(g) == l && closure[l] == FactDerivation(sha, theory, g)
    {
      var g :| g in facts && Canonical(g) == l && closure[l] == FactDerivation(sha, theory, g);
      assert g in facts + [f];
    }
  }

  lemma BestOfFacts(sha: Digest, theory: Theory, facts: seq<GroundLiteral>, closure: Closure)
    requires BestOf(sha, theory, facts, closure) && forall f :: f in facts <==> f in theory.facts
    ensures Layered(sha, theory, closure, 0)
  {
    hide Leq, FactDerivation;
    assert closure.Keys == Stage(theory, 0) by {
      forall l | l in closure ensures l in FactSet(theory) {
        var f :| f in facts && Canonical(f) == l && closure[l] == FactDerivation(sha, theory, f);
        assert f in theory.facts;
      }
      forall l | l in FactSet(theory) ensures l in closure {
        var f :| f in theory.facts && Canonical(f) == l;
        assert f in facts;
      }
    }
    forall l | l in closure ensures BestFact(sha, theory, l, closure[l]) {
      var f :| f in facts && Canonical(f) == l && closure[l] == FactDerivation(sha, theory, f);
      assert f in theory.facts;
    }
  }

  // ---- The index ----

  ghost predicate Grouped(groups: map<IndexKey, seq<CanonicalLiteral>>, done: seq<CanonicalLiteral>) {
    && (forall l :: l in done ==> IndexKeyOf(l) in groups && l in groups[IndexKeyOf(l)])
    && (forall k, l :: k in groups && l in groups[k] ==> l in done && IndexKeyOf(l) == k)
    && (forall k :: k in groups ==> NoDuplicates(groups[k]))
  }

  /** `_build_index`. */
  method BuildIndex(closure: Closure) returns (index: Index)
    ensures IndexesExactly(index, closure.Keys)
  {
    hide LiteralKey, Leq, SortBy, Grouped;
    var literals := Elements(closure.Keys);
    var groups: map<IndexKey, seq<CanonicalLiteral>> := map[];
    assert literals[..0] == [];
    GroupedNone();
    for n := 0 to |literals|
      invariant Grouped(groups, literals[..n])
    {
      var literal := literals[n];
      var key := IndexKeyOf(literal);
      assert literals[..n + 1] == literals[..n] + [literal];
      GroupedAdd(groups, literals[..n], literal);
      groups := groups[key := (if key in groups then groups[key] else []) + [literal]];
    }
    assert literals[..|literals|] == literals;
    index := map k | k in groups :: SortBy(groups[k], LiteralKey);
    GroupsIndex(groups, literals, closure.Keys, index);
  }

  lemma GroupedNone()
    ensures Grouped(map[], [])
  {
  }

  lemma GroupedAdd(groups: map<IndexKey, seq<CanonicalLiteral>>, done: seq<CanonicalLiteral>, literal: CanonicalLiteral)
    requires Grouped(groups, done) && literal !in done
    ensures var key := IndexKeyOf(literal);
            Grouped(groups[key := (if key in groups then groups[key] else []) + [literal]], done + [literal])
  {
    var key := IndexKeyOf(literal);
    var group := if key in groups then groups[key] else [];
    var after := groups[key := group + [literal]];
    assert literal !in group;
    forall l | l in done + [literal] ensures IndexKeyOf(l) in after && l in after[IndexKeyOf(l)] {
    }
    assert literal in done + [literal];
    forall k, l | k in after && l in after[k] ensures l in done + [literal] && IndexKeyOf(l) == k {
    }
  }

  lemma GroupsIndex(groups: map<IndexKey, seq<CanonicalLiteral>>, done: seq<CanonicalLiteral>,
                    known: set<CanonicalLiteral>, index: Index)
    requires Grouped(groups, done) && forall l :: l in done <==> l in known
    requires index.Keys == groups.Keys && forall k :: k in groups ==> index[k] == SortBy(groups[k], LiteralKey)
    ensures IndexesExactly(index, known)
  {
    hide LiteralKey, Leq, SortBy;
    forall k | k in groups
      ensures StrictlySorted(index[k], LiteralKey) && forall l :: l in index[k] <==> l in groups[k]
    {
      SortGroup(groups[k]);
    }
  }

  lemma SortGroup(group: seq<CanonicalLiteral>)
    requires NoDuplicates(group)
    ensures StrictlySorted(SortBy(group, LiteralKey), LiteralKey)
    ensures forall l :: l in SortBy(group, LiteralKey) <==> l in group
  {
    LiteralKeysInjective();
    SortByMultiset(group, LiteralKey);
    SortByStrict(group, LiteralKey);
  }

  /** `tuple(sorted(literals, key=CanonicalLiteral.sort_key))` for a set of literals. */
  method SortLiterals(s: set<CanonicalLiteral>) returns (r: seq<CanonicalLiteral>)
    ensures StrictlySorted(r, LiteralKey) && |r| == |s|
    ensures forall l :: l in r <==> l in s
  {
    var elements := Elements(s);
    r := SortBy(elements, LiteralKey);
    SortGroup(elements);
    SortByMultiset(elements, LiteralKey);
  }

  /** `_find_conflicts`. */
  method FindConflicts(closure: Closure) returns (r: seq<CanonicalLiteral>)
    ensures StrictlySorted(r, LiteralKey) && |r| == |Conflicts(closure.Keys)|
    ensures forall l :: l in r <==> l in Conflicts(closure.Keys)
  {
    var conflicts := set l | l in closure.Keys && l.negated && l.Opposite() in closure :: l.(negated := false);
    assert conflicts == Conflicts(closure.Keys);
    r := SortLiterals(conflicts);
  }

  // ---- One round over all rules ----

  function RuleOrderKey(r: Rule): Key {
    Pair(Str(r.id), BodyKey(SortedBody(r.body)))
  }

  function BodyKey(body: seq<RuleLiteral>): Key {
    if body == [] then Nil else Pair(RuleLiteralKey(body[0]), BodyKey(body[1..]))
  }

  ghost predicate RoundDone(sha: Digest, theory: Theory, limits: Limits, closure: Closure,
                            delta: set<CanonicalLiteral>, seen: set<Instance>, candidates: Closure, start: Counters,
                            now: Counters)
  {
    && MidRound(sha, theory, limits, closure, seen, candidates, start, now)
    && forall i :: i in seen <==> DeltaInstance(theory, closure, delta, i)
  }

  lemma DistinctRules(theory: Theory)
    requires ValidTheory(theory)
    ensures NoDuplicates(theory.rules)
  {
    forall i, j | 0 <= i < j < |theory.rules| ensures theory.rules[i] != theory.rules[j] {
      assert RULE_ID(theory.rules[i]) != RULE_ID(theory.rules[j]);
    }
  }

  lemma SortedRulesDistinct(theory: Theory)
    requires ValidTheory(theory)
    ensures NoDuplicates(SortBy(theory.rules, RuleOrderKey))
    ensures forall r :: r in SortBy(theory.rules, RuleOrderKey) <==> r in theory.rules
  {
    hide RuleOrderKey, Leq;
    DistinctRules(theory);
    SortByMultiset(theory.rules, RuleOrderKey);
    var r := SortBy(theory.rules, RuleOrderKey);
    forall i, j | 0 <= i < j < |r| ensures r[i] != r[j] {
      if r[i] == r[j] {
        TwiceCounted(r, i, j);
        NoDuplicatesCount(theory.rules, r[j]);
      }
    }
  }

  lemma RuleUsable(theory: Theory, rule: Rule)
    requires WellFormed(theory) && rule in theory.rules
    ensures RangeRestricted(rule) && rule.body != []
    ensures rule.sourceId in Lookup(theory.sources, SOURCE_ID)
    ensures Lookup(theory.sources, SOURCE_ID)[rule.sourceId].text == TextOf(theory, rule.sourceId)
  {
    assert RuleValid(rule, Declared(theory));
  }

  ghost predicate RulesInOrder(rules: seq<Rule>) {
    forall i, j :: 0 <= i < j < |rules| ==> Less(Str(rules[i].id), Str(rules[j].id))
  }

  lemma SortedRulesInOrder(theory: Theory)
    requires ValidTheory(theory)
    ensures RulesInOrder(SortBy(theory.rules, RuleOrderKey))
  {
    hide Leq, BodyKey, ValidTheory;
    var rules := SortBy(theory.rules, RuleOrderKey);
    SortBySorted(theory.rules, RuleOrderKey);
    SortedRulesDistinct(theory);
    forall i, j | 0 <= i < j < |rules| ensures Less(Str(rules[i].id), Str(rules[j].id)) {
      assert rules[i] in rules && rules[j] in rules;
      if rules[i].id == rules[j].id {
        SameIdSameRule(theory, rules[i], rules[j]);
      }
      RuleOrderById(rules[i], rules[j]);
    }
  }

  lemma RuleOrderById(r: Rule, q: Rule)
    requires Leq(RuleOrderKey(r), RuleOrderKey(q)) && r.id != q.id
    ensures Less(Str(r.id), Str(q.id))
  {
    hide BodyKey;
  }

  /** A round stops at its first instance that exceeds a limit. */
  ghost predicate RoundStops(sha: Digest, theory: Theory, limits: Limits, closure: Closure,
                             delta: set<CanonicalLiteral>, start: Counters, e: LimitError)
  {
    exists i, seen ::
      && DeltaInstance(theory, closure, delta, i) && TakenBefore(theory, closure, delta, seen, i)
      && RoundError(sha, theory, limits, closure, seen, start, i, e)
  }

  lemma StopsAt(sha: Digest, theory: Theory, limits: Limits, closure: Closure, delta: set<CanonicalLiteral>,
                start: Counters, e: LimitError, seen: set<Instance>, i: Instance)
    requires DeltaInstance(theory, closure, delta, i) && TakenBefore(theory, closure, delta, seen, i)
    requires RoundError(sha, theory, limits, closure, seen, start, i, e)
    ensures RoundStops(sha, theory, limits, closure, delta, start, e)
  {
    hide DeltaInstance, TakenBefore, RoundError;
  }

  lemma IdOrder(i: Instance, j: Instance)
    requires BodyVars(i.rule.body) <= i.sub.Keys && BodyVars(j.rule.body) <= j.sub.Keys && i.rule.id != j.rule.id
    ensures Precedes(i, j) <==> Leq(Str(i.rule.id), Str(j.rule.id))
  {
    hide StateKey, PremisesOf;
  }

  /** All instances of the rules before, and the earlier ones of the rule, are all the earlier ones. */
  lemma TakenInOrder(theory: Theory, rules: seq<Rule>, closure: Closure, delta: set<CanonicalLiteral>, n: nat,
                     before: set<Instance>, seen: set<Instance>, i: Instance)
    requires RulesInOrder(rules) && (forall rule :: rule in rules <==> rule in theory.rules) && n < |rules|
    requires forall j :: j in before <==> j.rule in rules[..n] && DeltaInstance(theory, closure, delta, j)
    requires i.rule == rules[n] && DeltaInstance(theory, closure, delta, i)
    requires TakenInRule(theory, closure, delta, before, seen, i)
    ensures TakenBefore(theory, closure, delta, seen, i)
  {
    hide Leq, Matches, Touches, PremisesOf, Precedes;
    MatchBinds(i.rule.body, i.sub, closure.Keys);
    forall j: Instance | DeltaInstance(theory, closure, delta, j)
      ensures j in seen <==> Precedes(j, i)
    {
      MatchBinds(j.rule.body, j.sub, closure.Keys);
      var m :| 0 <= m < |rules| && rules[m] == j.rule;
      if m < n {
        assert rules[..n][m] == j.rule;
        IdOrder(j, i);
      } else {
        if j.rule in rules[..n] {
          var p :| 0 <= p < n && rules[p] == j.rule;
          assert Less(Str(rules[p].id), Str(rules[m].id));
        }
        if m > n {
          IdOrder(j, i);
          if Leq(Str(j.rule.id), Str(i.rule.id)) {
            Antisymmetric(Str(j.rule.id), Str(i.rule.id));
          }
        }
      }
    }
  }

  /** All rules of a round, in order. */
  method RunRules(sha: Digest, theory: Theory, limits: Limits, orderedRules: seq<Rule>, closure: Closure,
                  delta: set<CanonicalLiteral>, index: Index, start: Counters)
    returns (r: Result<(Closure, Counters), LimitError>, ghost seen: set<Instance>)
    requires WellFormed(theory)
    requires NoDuplicates(orderedRules) && forall rule :: rule in orderedRules <==> rule in theory.rules
    requires RulesInOrder(orderedRules)
    requires IndexesExactly(index, closure.Keys)
    requires start.ruleInstances <= limits.maxRuleFirings
    ensures r.Ok? ==> RoundDone(sha, theory, limits, closure, delta, seen, r.value.0, start, r.value.1)
    ensures r.Err? ==> RoundStops(sha, theory, limits, closure, delta, start, r.error)
  {
    hide Leq, MidRound, RoundError, Matches, Touches, TextOf, PremisesOf, IndexesExactly, StateKey, WellFormed,
      TakenInRule, RulesInOrder, RoundStops;
    var sources := Lookup(theory.sources, SOURCE_ID);
    var candidates: Closure, now: Counters := map[], start;
    seen := {};
    MidRoundStart(sha, theory, limits, closure, start);
    for n := 0 to |orderedRules|
      invariant MidRound(sha, theory, limits, closure, seen, candidates, start, now)
      invariant forall i :: i in seen <==> i.rule in orderedRules[..n] && DeltaInstance(theory, closure, delta, i)
    {
      var rule := orderedRules[n];
      assert rule in orderedRules;
      RuleUsable(theory, rule);
      var matches := IterBodyMatches(rule.body, index, closure.Keys, Some(delta));
      assert rule !in orderedRules[..n];
      assert orderedRules[..n + 1] == orderedRules[..n] + [rule];
      var step;
      ghost var before := seen;
      step, seen := ConsiderRule(sha, theory, limits, closure, delta, rule, matches, sources[rule.sourceId].text,
                                 candidates, now, seen, start);
      if step.Err? {
        ghost var i: Instance :| i.rule == rule && DeltaInstance(theory, closure, delta, i)
                                 && RoundError(sha, theory, limits, closure, seen, start, i, step.error)
                                 && TakenInRule(theory, closure, delta, before, seen, i);
        TakenInOrder(theory, orderedRules, closure, delta, n, before, seen, i);
        StopsAt(sha, theory, limits, closure, delta, start, step.error, seen, i);
        return Err(step.error), seen;
      }
      candidates, now := step.value.0, step.value.1;
    }
    assert orderedRules[..|orderedRules|] == orderedRules;
    return Ok((candidates, now)), seen;
  }

  lemma MidRoundStart(sha: Digest, theory: Theory, limits: Limits, closure: Closure, start: Counters)
    requires start.ruleInstances <= limits.maxRuleFirings
    ensures MidRound(sha, theory, limits, closure, {}, map[], start, start)
  {
  }

  // ---- The saturation loop ----

  ghost function Earlier(theory: Theory, k: nat): set<CanonicalLiteral> {
    if k == 0 then {} else Stage(theory, k - 1)
  }

  /** The closure and the delta after `k` productive rounds. */
  ghost predicate Progress(sha: Digest, theory: Theory, limits: Limits, closure: Closure,
                           delta: set<CanonicalLiteral>, k: nat)
  {
    && Layered(sha, theory, closure, k)
    && delta == closure.Keys - Earlier(theory, k)
    && (forall j :: 0 <= j < k ==> StageGrowsAt(theory, j))
    && |closure| <= limits.maxDerivedLiterals
    && k <= limits.maxRounds
  }

  /** The counters when every instance over `known` has been considered. */
  ghost predicate Tally(sha: Digest, theory: Theory, limits: Limits, closure: Closure, known: set<CanonicalLiteral>,
                        now: Counters)
  {
    && now.ruleInstances == |Instances(theory.rules, known)| <= limits.maxRuleFirings
    && |theory.facts| + now.ruleInstances == |closure| + now.duplicates
    && now.successfulFirings + |FactSet(theory)| == |closure|
    && AllNodesBounded(sha, theory, closure, known, limits.maxProofNodes)
  }

  /** What holds at the head of the loop after `k` productive rounds. */
  ghost predicate LoopState(sha: Digest, theory: Theory, limits: Limits, closure: Closure,
                            delta: set<CanonicalLiteral>, now: Counters, k: nat)
  {
    Progress(sha, theory, limits, closure, delta, k) && Tally(sha, theory, limits, closure, Earlier(theory, k), now)
  }

  lemma EarlierBelow(theory: Theory, k: nat)
    ensures Earlier(theory, k) <= Stage(theory, k)
  {
    if k > 0 {
      StageMonotone(theory, k - 1, k);
    }
  }

  lemma NoInstancesOfNothing(rules: seq<Rule>)
    requires SafeRules(rules)
    ensures Instances(rules, {}) == {}
  {
    forall i ensures i !in Instances(rules, {}) {
      InstancesExact(rules, {}, i.rule, i.sub);
      if i.rule in rules {
        assert i.rule.body[0] in i.rule.body;
      }
    }
  }

  lemma RulesSafe(theory: Theory)
    requires WellFormed(theory)
    ensures SafeRules(theory.rules)
  {
    forall r | r in theory.rules ensures RangeRestricted(r) && r.body != [] {
      RuleUsable(theory, r);
    }
  }

  /** The instances of a round are those over the closure that were not instances over the stage
      before, so over a whole run each instance is considered exactly once. */
  lemma DeltaInstancesAreNew(theory: Theory, closure: Closure, delta: set<CanonicalLiteral>,
                             known: set<CanonicalLiteral>, i: Instance)
    requires SafeRules(theory.rules) && known <= closure.Keys && delta == closure.Keys - known
    ensures DeltaInstance(theory, closure, delta, i) <==>
              i in Instances(theory.rules, closure.Keys) && i !in Instances(theory.rules, known)
  {
    InstancesExact(theory.rules, closure.Keys, i.rule, i.sub);
    InstancesExact(theory.rules, known, i.rule, i.sub);
    if i.rule in theory.rules && Matches(i.rule.body, i.sub, closure.Keys) {
      assert RangeRestricted(i.rule);
      FiresWithin(i, known, closure.Keys);
      PremisesKnown(i, closure.Keys);
    }
  }

  lemma SetSplit<T>(big: set<T>, small: set<T>, rest: set<T>)
    requires small <= big && rest == big - small
    ensures |big| == |small| + |rest|
  {
    assert big == small + rest;
  }

  /** What a completed round has established about the next stage. */
  lemma RoundOutcome(sha: Digest, theory: Theory, limits: Limits, closure: Closure, delta: set<CanonicalLiteral>,
                     seen: set<Instance>, candidates: Closure, start: Counters, now: Counters, k: nat)
    requires WellFormed(theory)
    requires LoopState(sha, theory, limits, closure, delta, start, k)
    requires RoundDone(sha, theory, limits, closure, delta, seen, candidates, start, now)
    ensures candidates.Keys == Stage(theory, k + 1) - Stage(theory, k)
    ensures forall l :: l in candidates ==> BestRule(sha, theory, closure, closure.Keys, l, candidates[l])
    ensures now.ruleInstances == |Instances(theory.rules, closure.Keys)| <= limits.maxRuleFirings
    ensures AllNodesBounded(sha, theory, closure, closure.Keys, limits.maxProofNodes)
    ensures |theory.facts| + now.ruleInstances == |closure| + |candidates| + now.duplicates
    ensures now.successfulFirings + |FactSet(theory)| == |closure| + |candidates|
  {
    hide Leq, InstanceDerivation, Matches, Step, FactSet, BestSeen, HeadSeen, Concludes, WellFormed;
    RulesSafe(theory);
    EarlierBelow(theory, k);
    var known := Earlier(theory, k);
    var all, old_ := Instances(theory.rules, closure.Keys), Instances(theory.rules, known);
    InstancesMonotone(theory.rules, known, closure.Keys);
    forall i ensures i in seen <==> i in all && i !in old_ {
      DeltaInstancesAreNew(theory, closure, delta, known, i);
    }
    assert seen == all - old_;
    SetSplit(all, old_, seen);
    NewHeads(theory, closure, seen, k);
    forall l | l in candidates ensures BestRule(sha, theory, closure, closure.Keys, l, candidates[l]) {
      SeenIsAll(sha, theory, closure, seen, k, l, candidates[l]);
    }
    BoundedAll(sha, theory, closure, seen, known, limits.maxProofNodes);
  }

  lemma BoundedAll(sha: Digest, theory: Theory, closure: Closure, seen: set<Instance>, known: set<CanonicalLiteral>,
                   limit: nat)
    requires seen == Instances(theory.rules, closure.Keys) - Instances(theory.rules, known)
    requires AllNodesBounded(sha, theory, closure, known, limit)
    requires forall i :: i in seen ==> NodesBounded(sha, theory, closure, i, limit)
    ensures AllNodesBounded(sha, theory, closure, closure.Keys, limit)
  {
    hide NodesBounded, Instances;
  }

  /** The new heads of the instances of a round are the literals the next stage adds. */
  lemma NewHeads(theory: Theory, closure: Closure, seen: set<Instance>, k: nat)
    requires closure.Keys == Stage(theory, k) && SafeRules(theory.rules)
    requires seen == Instances(theory.rules, Stage(theory, k)) - Instances(theory.rules, Earlier(theory, k))
    ensures forall l :: l !in closure && HeadSeen(seen, l) <==> l in Stage(theory, k + 1) && l !in Stage(theory, k)
  {
    hide Instances, Matches;
    var all := Instances(theory.rules, Stage(theory, k));
    forall l | l !in closure && HeadSeen(seen, l) ensures l in Stage(theory, k + 1) {
      var i :| i in seen && Concludes(i, l);
    }
    forall l | l in Stage(theory, k + 1) && l !in Stage(theory, k) ensures HeadSeen(seen, l) {
      var i :| i in all && Vars(i.rule.head) <= i.sub.Keys && Ground(i.rule.head, i.sub) == l;
      if i in Instances(theory.rules, Earlier(theory, k)) {
        OldHead(theory, k, i, l);
      }
      assert i in seen && Concludes(i, l);
    }
  }

  /** The conclusion of an instance over the earlier stage is already in the closure. */
  lemma OldHead(theory: Theory, k: nat, i: Instance, l: CanonicalLiteral)
    requires SafeRules(theory.rules) && i in Instances(theory.rules, Earlier(theory, k)) && Concludes(i, l)
    ensures l in Stage(theory, k)
  {
    if k == 0 {
      NoInstancesOfNothing(theory.rules);
    } else {
      assert l in Heads(Instances(theory.rules, Stage(theory, k - 1)));
    }
  }

  lemma SeenIsAll(sha: Digest, theory: Theory, closure: Closure, seen: set<Instance>, k: nat, l: CanonicalLiteral,
                  d: Derivation)
    requires closure.Keys == Stage(theory, k) && SafeRules(theory.rules)
    requires seen == Instances(theory.rules, Stage(theory, k)) - Instances(theory.rules, Earlier(theory, k))
    requires l !in closure && BestSeen(sha, theory, closure, seen, l, d)
    ensures BestRule(sha, theory, closure, closure.Keys, l, d)
  {
    hide Leq, InstanceDerivation, Instances, Stage, Concludes, Matches;
    forall i | Offers(sha, theory, closure, closure.Keys, i, l) ensures i in seen {
      InstancesExact(theory.rules, Stage(theory, k), i.rule, i.sub);
      if i in Instances(theory.rules, Earlier(theory, k)) {
        OldHead(theory, k, i, l);
      }
    }
    var i :| i in seen && Concludes(i, l) && Fires(i, closure.Keys) && d == InstanceDerivation(sha, theory, closure, i);
    InstancesExact(theory.rules, Stage(theory, k), i.rule, i.sub);
    assert Offers(sha, theory, closure, closure.Keys, i, l);
  }

  /** The deepest recorded derivation, zero for an empty closure. */
  method MaximumDepth(closure: Closure) returns (depth: nat)
    ensures forall l :: l in closure ==> closure[l].depth <= depth
    ensures if closure == map[] then depth == 0 else exists l :: l in closure && closure[l].depth == depth
  {
    depth := 0;
    var literals := Elements(closure.Keys);
    for n := 0 to |literals|
      invariant forall j :: 0 <= j < n ==> literals[j] in closure && closure[literals[j]].depth <= depth
      invariant if n == 0 then depth == 0 else exists j ::
            0 <= j < n && literals[j] in closure && closure[literals[j]].depth == depth
    {
      assert literals[n] in literals;
      if n == 0 || closure[literals[n]].depth > depth {
        depth := closure[literals[n]].depth;
        assert closure[literals[n]].depth == depth;
      }
    }
    forall l | l in closure ensures closure[l].depth <= depth {
      assert l in literals;
    }
    if closure != map[] {
      var l :| l in closure.Keys;
      assert l in literals;
    }
  }

  /** In a layered closure the deepest derivation has the depth of the last productive round. */
  lemma DeepestIsLastRound(sha: Digest, theory: Theory, closure: Closure, k: nat, depth: nat)
    requires Layered(sha, theory, closure, k)
    requires forall j :: 0 <= j < k ==> StageGrowsAt(theory, j)
    requires forall l :: l in closure ==> closure[l].depth <= depth
    requires if closure == map[] then depth == 0 else exists l :: l in closure && closure[l].depth == depth
    ensures depth == k
  {
    hide ChosenAt, Step, FactSet;
    if closure != map[] {
      var l :| l in closure && closure[l].depth == depth;
      var e := EntryRound(sha, theory, closure, k, k, l);
    }
    if k > 0 {
      StageMonotone(theory, k - 1, k);
      assert StageGrowsAt(theory, k - 1);
      var l :| l in Stage(theory, k) && l !in Stage(theory, k - 1);
      LayeredDepth(sha, theory, closure, k, k, l);
    }
  }

  // ---- The steps of the loop ----

  lemma InitialCounts(sha: Digest, theory: Theory, closure: Closure)
    requires Layered(sha, theory, closure, 0)
    ensures |closure| == |FactSet(theory)|
  {
    assert |closure| == |closure.Keys|;
  }

  lemma DerivedExceeded(sha: Digest, theory: Theory, limits: Limits, closure: Closure, k: nat)
    requires Layered(sha, theory, closure, k) && |closure| > limits.maxDerivedLiterals
    ensures Exceeds(sha, theory, limits, LimitError(MaxDerivedLiterals, limits.maxDerivedLiterals, |closure|))
  {
    hide Stage;
    assert |Stage(theory, k)| == |closure.Keys| == |closure|;
  }

  lemma LoopStart(sha: Digest, theory: Theory, limits: Limits, closure: Closure, delta: set<CanonicalLiteral>,
                  now: Counters)
    requires WellFormed(theory) && Layered(sha, theory, closure, 0) && delta == closure.Keys
    requires now.ruleInstances == 0 && now.successfulFirings == 0 && |closure| + now.duplicates == |theory.facts|
    requires |closure| <= limits.maxDerivedLiterals
    ensures LoopState(sha, theory, limits, closure, delta, now, 0)
  {
    InitialCounts(sha, theory, closure);
    RulesSafe(theory);
    NoInstancesOfNothing(theory.rules);
  }

  lemma ClosureBounded(sha: Digest, theory: Theory, closure: Closure, k: nat)
    requires ValidTheory(theory) && Layered(sha, theory, closure, k)
    ensures |closure| <= |HerbrandBase(theory)|
  {
    hide HerbrandBase, Stage, ValidTheory;
    StageInBase(theory, k);
    SubsetSize(closure.Keys, HerbrandBase(theory));
  }

  lemma SeenWithin(theory: Theory, closure: Closure, delta: set<CanonicalLiteral>, known: set<CanonicalLiteral>,
                   seen: set<Instance>, i: Instance)
    requires SafeRules(theory.rules) && known <= closure.Keys && delta == closure.Keys - known
    requires forall j :: j in seen ==> DeltaInstance(theory, closure, delta, j)
    requires i !in seen && i.rule in theory.rules && Fires(i, closure.Keys) && i !in Instances(theory.rules, known)
    ensures |Instances(theory.rules, known)| + |seen| + 1 <= |Instances(theory.rules, closure.Keys)|
  {
    hide Instances, DeltaInstance, Fires;
    var old_, all := Instances(theory.rules, known), Instances(theory.rules, closure.Keys);
    InstancesMonotone(theory.rules, known, closure.Keys);
    forall j | j in seen ensures j in all && j !in old_ {
      DeltaInstancesAreNew(theory, closure, delta, known, j);
    }
    FiringInstance(theory, closure, i);
    SubsetSize(seen + {i}, all - old_);
    SetSplit(all, old_, all - old_);
  }

  lemma FiringInstance(theory: Theory, closure: Closure, i: Instance)
    requires i.rule in theory.rules && Fires(i, closure.Keys)
    ensures i in Instances(theory.rules, closure.Keys)
  {
    InstancesExact(theory.rules, closure.Keys, i.rule, i.sub);
  }

  /** A limit error of a round is a limit error of the run. */
  lemma RoundExceeded(sha: Digest, theory: Theory, limits: Limits, closure: Closure, delta: set<CanonicalLiteral>,
                      now: Counters, k: nat, e: LimitError)
    requires WellFormed(theory) && LoopState(sha, theory, limits, closure, delta, now, k)
    requires RoundStops(sha, theory, limits, closure, delta, now, e)
    ensures Exceeds(sha, theory, limits, e)
  {
    hide Instances, InstanceDerivation, Matches, Stage, DeltaInstance, Precedes, NodesBounded;
    var i, seen :| DeltaInstance(theory, closure, delta, i) && TakenBefore(theory, closure, delta, seen, i)
                   && RoundError(sha, theory, limits, closure, seen, now, i, e);
    RulesSafe(theory);
    EarlierBelow(theory, k);
    DeltaInstancesAreNew(theory, closure, delta, Earlier(theory, k), i);
    if e.name == MaxRuleFirings {
      SeenWithin(theory, closure, delta, Earlier(theory, k), seen, i);
      assert e.observed <= |Instances(theory.rules, Stage(theory, k))|;
    }
  }

  lemma MapSize(a: Closure, b: Closure)
    requires a.Keys !! b.Keys
    ensures |a + b| == |a| + |b|
  {
    assert (a + b).Keys == a.Keys + b.Keys;
    assert |(a + b).Keys| == |a.Keys| + |b.Keys|;
  }

  lemma GrowsByCandidates(sha: Digest, theory: Theory, closure: Closure, candidates: Closure, k: nat)
    requires Layered(sha, theory, closure, k) && candidates != map[]
    requires candidates.Keys == Stage(theory, k + 1) - Stage(theory, k)
    ensures StageGrowsAt(theory, k) && |closure + candidates| == |closure| + |candidates|
  {
    hide Stage;
    MapSize(closure, candidates);
    var l :| l in candidates.Keys;
  }

  lemma RoundsExceeded(sha: Digest, theory: Theory, limits: Limits, k: nat)
    requires StageGrowsAt(theory, k) && k == limits.maxRounds
    ensures Exceeds(sha, theory, limits, LimitError(MaxRounds, limits.maxRounds, k + 1))
  {
  }

  lemma NodesBoundedStable(sha: Digest, theory: Theory, small: Closure, big: Closure, limit: nat)
    requires small.Keys <= big.Keys && forall l :: l in small ==> big[l] == small[l]
    requires SafeRules(theory.rules) && AllNodesBounded(sha, theory, small, small.Keys, limit)
    ensures AllNodesBounded(sha, theory, big, small.Keys, limit)
  {
    hide InstanceDerivation, Instances, Matches;
    forall i | i in Instances(theory.rules, small.Keys) ensures NodesBounded(sha, theory, big, i, limit) {
      InstancesExact(theory.rules, small.Keys, i.rule, i.sub);
      InstanceDerivationStable(sha, theory, small, big, i);
      assert NodesBounded(sha, theory, small, i, limit);
    }
  }

  lemma LayeredKeys(sha: Digest, theory: Theory, closure: Closure, k: nat)
    requires Layered(sha, theory, closure, k)
    ensures closure.Keys == Stage(theory, k)
  {
  }

  lemma NextProgress(sha: Digest, theory: Theory, limits: Limits, closure: Closure, delta: set<CanonicalLiteral>,
                     candidates: Closure, k: nat)
    requires Progress(sha, theory, limits, closure, delta, k)
    requires candidates != map[] && candidates.Keys == Stage(theory, k + 1) - Stage(theory, k)
    requires Layered(sha, theory, closure + candidates, k + 1)
    requires |closure + candidates| <= limits.maxDerivedLiterals && k + 1 <= limits.maxRounds
    ensures Progress(sha, theory, limits, closure + candidates, candidates.Keys, k + 1)
  {
    hide Stage, StageGrowsAt, Layered, Earlier;
    NextDelta(sha, theory, closure + candidates, candidates, k);
    GrowsByCandidates(sha, theory, closure, candidates, k);
  }

  lemma NextDelta(sha: Digest, theory: Theory, after: Closure, candidates: Closure, k: nat)
    requires candidates.Keys == Stage(theory, k + 1) - Stage(theory, k) && Layered(sha, theory, after, k + 1)
    ensures candidates.Keys == after.Keys - Earlier(theory, k + 1)
  {
    hide Stage;
  }

  /** The loop state after a productive round. */
  lemma NextLoopState(sha: Digest, theory: Theory, limits: Limits, closure: Closure, delta: set<CanonicalLiteral>,
                      start: Counters, candidates: Closure, now: Counters, k: nat)
    requires WellFormed(theory) && LoopState(sha, theory, limits, closure, delta, start, k)
    requires candidates != map[] && candidates.Keys == Stage(theory, k + 1) - Stage(theory, k)
    requires Layered(sha, theory, closure + candidates, k + 1)
    requires |closure + candidates| == |closure| + |candidates| <= limits.maxDerivedLiterals
             && k + 1 <= limits.maxRounds
    requires now.ruleInstances == |Instances(theory.rules, closure.Keys)| <= limits.maxRuleFirings
    requires AllNodesBounded(sha, theory, closure, closure.Keys, limits.maxProofNodes)
    requires |theory.facts| + now.ruleInstances == |closure| + |candidates| + now.duplicates
    requires now.successfulFirings + |FactSet(theory)| == |closure| + |candidates|
    ensures LoopState(sha, theory, limits, closure + candidates, candidates.Keys, now, k + 1)
  {
    hide Instances, Stage, AllNodesBounded, WellFormed, FactSet, Layered, StageGrowsAt;
    NextProgress(sha, theory, limits, closure, delta, candidates, k);
    LayeredKeys(sha, theory, closure, k);
    RulesSafe(theory);
    assert Earlier(theory, k + 1) == closure.Keys;
    DisjointExtension(closure, candidates, Stage(theory, k));
    NodesBoundedStable(sha, theory, closure, closure + candidates, limits.maxProofNodes);
  }

  lemma DisjointExtension(closure: Closure, candidates: Closure, known: set<CanonicalLiteral>)
    requires closure.Keys == known && forall l :: l in candidates ==> l !in known
    ensures closure.Keys <= (closure + candidates).Keys
    ensures forall l :: l in closure ==> (closure + candidates)[l] == closure[l]
  {
  }

  /** The closure and the counters when no new literal appears. */
  ghost predicate AtFixpoint(sha: Digest, theory: Theory, limits: Limits, closure: Closure, now: Counters, k: nat) {
    && Progress(sha, theory, limits, closure, closure.Keys - Earlier(theory, k), k)
    && Stage(theory, k + 1) == Stage(theory, k)
    && Tally(sha, theory, limits, closure, closure.Keys, now)
  }

  lemma NoCandidates(sha: Digest, theory: Theory, limits: Limits, closure: Closure, candidates: Closure, now: Counters)
    requires candidates == map[]
    requires now.ruleInstances == |Instances(theory.rules, closure.Keys)| <= limits.maxRuleFirings
    requires AllNodesBounded(sha, theory, closure, closure.Keys, limits.maxProofNodes)
    requires |theory.facts| + now.ruleInstances == |closure| + |candidates| + now.duplicates
    requires now.successfulFirings + |FactSet(theory)| == |closure| + |candidates|
    ensures Tally(sha, theory, limits, closure, closure.Keys, now)
  {
    hide Instances, AllNodesBounded, FactSet;
    assert |candidates| == 0;
  }

  lemma LoopFacts(sha: Digest, theory: Theory, limits: Limits, closure: Closure, delta: set<CanonicalLiteral>,
                  now: Counters, k: nat)
    requires LoopState(sha, theory, limits, closure, delta, now, k)
    ensures Layered(sha, theory, closure, k) && k <= limits.maxRounds && now.ruleInstances <= limits.maxRuleFirings
  {
  }

  lemma FixpointFacts(sha: Digest, theory: Theory, limits: Limits, closure: Closure, now: Counters, k: nat)
    requires AtFixpoint(sha, theory, limits, closure, now, k)
    ensures Layered(sha, theory, closure, k) && |FactSet(theory)| <= |closure|
    ensures forall j :: 0 <= j < k ==> StageGrowsAt(theory, j)
  {
    hide Layered;
  }

  lemma FixpointReached(sha: Digest, theory: Theory, limits: Limits, closure: Closure, delta: set<CanonicalLiteral>,
                        start: Counters, now: Counters, k: nat)
    requires LoopState(sha, theory, limits, closure, delta, start, k)
    requires Stage(theory, k + 1) - Stage(theory, k) == {}
    requires Tally(sha, theory, limits, closure, closure.Keys, now)
    ensures AtFixpoint(sha, theory, limits, closure, now, k)
  {
    hide Stage, Layered, StageGrowsAt, Tally;
    StageMonotone(theory, k, k + 1);
    forall l | l in Stage(theory, k + 1) ensures l in Stage(theory, k) {
      assert l !in Stage(theory, k + 1) - Stage(theory, k);
    }
  }

  /** The loop ends with an empty delta only when there are no facts. */
  lemma NothingToDo(sha: Digest, theory: Theory, limits: Limits, closure: Closure, now: Counters, k: nat)
    requires WellFormed(theory) && LoopState(sha, theory, limits, closure, {}, now, k)
    ensures AtFixpoint(sha, theory, limits, closure, now, k)
  {
    hide Stage, Layered, Tally, WellFormed;
    LayeredKeys(sha, theory, closure, k);
    if k > 0 {
      StageMonotone(theory, k - 1, k);
      EmptyDelta(theory, k - 1);
    } else {
      NoFacts(theory);
      assert closure.Keys == Earlier(theory, 0);
    }
  }

  lemma EmptyDelta(theory: Theory, k: nat)
    requires Stage(theory, k + 1) - Stage(theory, k) == {}
    ensures !StageGrowsAt(theory, k)
  {
    hide Stage;
    StageMonotone(theory, k, k + 1);
    forall l | l in Stage(theory, k + 1) ensures l in Stage(theory, k) {
      assert l !in Stage(theory, k + 1) - Stage(theory, k);
    }
  }

  lemma NoFacts(theory: Theory)
    requires WellFormed(theory)
    ensures Stage(theory, 0) == {} ==> Stage(theory, 1) == Stage(theory, 0)
  {
    RulesSafe(theory);
    NoInstancesOfNothing(theory.rules);
  }

  lemma Finished(sha: Digest, theory: Theory, limits: Limits, s: SaturationState, now: Counters)
    requires ValidTheory(theory) && AtFixpoint(sha, theory, limits, s.closure, now, s.telemetry.rounds)
    requires StrictlySorted(s.conflicts, LiteralKey) && |s.conflicts| == |Conflicts(s.closure.Keys)|
    requires forall l :: l in s.conflicts <==> l in Conflicts(s.closure.Keys)
    requires s.telemetry == Telemetry(|theory.facts|, |s.closure| - |FactSet(theory)|, |s.closure|, |s.conflicts|,
                                      s.telemetry.rounds, now.ruleInstances, now.successfulFirings, now.duplicates,
                                      s.telemetry.rounds)
    ensures IsSaturation(sha, theory, limits, s)
  {
    hide Stage, Instances, AllNodesBounded, BestProofs, ValidTheory, FactSet, Layered, Conflicts, LiteralKey;
    LayeredKeys(sha, theory, s.closure, s.telemetry.rounds);
    FixedStageIsModel(theory, s.telemetry.rounds);
    LayeredIsBest(sha, theory, s.closure, s.telemetry.rounds);
  }

  // ---- Which limit is reported ----

  /** Everything a round considers over the closure fits. */
  ghost predicate RoundFits(sha: Digest, theory: Theory, limits: Limits, closure: Closure) {
    && |Instances(theory.rules, closure.Keys)| <= limits.maxRuleFirings
    && AllNodesBounded(sha, theory, closure, closure.Keys, limits.maxProofNodes)
  }

  /** After a productive round the rounds are checked first, then the literals. */
  ghost predicate GrowthStops(theory: Theory, limits: Limits, k: nat, e: LimitError) {
    && StageGrowsAt(theory, k)
    && if k + 1 > limits.maxRounds then e == LimitError(MaxRounds, limits.maxRounds, k + 1)
       else
         && |Stage(theory, k + 1)| > limits.maxDerivedLiterals
         && e == LimitError(MaxDerivedLiterals, limits.maxDerivedLiterals, |Stage(theory, k + 1)|)
  }

  /** The run passes `k` rounds and stops in the next one: at its first instance that exceeds a limit, or else
      when its new literals are to be added. */
  ghost predicate StopsAfter(sha: Digest, theory: Theory, limits: Limits, k: nat, e: LimitError) {
    exists closure, delta, now ::
      && LoopState(sha, theory, limits, closure, delta, now, k)
      && (RoundStops(sha, theory, limits, closure, delta, now, e)
          || (RoundFits(sha, theory, limits, closure) && GrowthStops(theory, limits, k, e)))
  }

  /** The limit error of a saturation: which limit it names, and what value it gives. */
  ghost predicate Reports(sha: Digest, theory: Theory, limits: Limits, e: LimitError) {
    if |FactSet(theory)| > limits.maxDerivedLiterals
    then e == LimitError(MaxDerivedLiterals, limits.maxDerivedLiterals, |FactSet(theory)|)
    else exists k :: StopsAfter(sha, theory, limits, k, e)
  }

  lemma StopsInRound(sha: Digest, theory: Theory, limits: Limits, closure: Closure, delta: set<CanonicalLiteral>,
                     now: Counters, k: nat, e: LimitError)
    requires LoopState(sha, theory, limits, closure, delta, now, k)
    requires RoundStops(sha, theory, limits, closure, delta, now, e)
             || (RoundFits(sha, theory, limits, closure) && GrowthStops(theory, limits, k, e))
    ensures Reports(sha, theory, limits, e)
  {
    hide RoundStops, GrowthStops, RoundFits, FactSet;
    FactsWithin(sha, theory, limits, closure, delta, now, k);
    assert StopsAfter(sha, theory, limits, k, e);
  }

  lemma FactsWithin(sha: Digest, theory: Theory, limits: Limits, closure: Closure, delta: set<CanonicalLiteral>,
                    now: Counters, k: nat)
    requires LoopState(sha, theory, limits, closure, delta, now, k)
    ensures |FactSet(theory)| <= limits.maxDerivedLiterals
  {
    hide FactSet, Instances, AllNodesBounded;
  }

  lemma FitsRound(sha: Digest, theory: Theory, limits: Limits, closure: Closure, now: Counters)
    requires now.ruleInstances == |Instances(theory.rules, closure.Keys)| <= limits.maxRuleFirings
    requires AllNodesBounded(sha, theory, closure, closure.Keys, limits.maxProofNodes)
    ensures RoundFits(sha, theory, limits, closure)
  {
  }

  lemma AddedStage(sha: Digest, theory: Theory, closure: Closure, candidates: Closure, k: nat)
    requires Layered(sha, theory, closure + candidates, k + 1)
    ensures |Stage(theory, k + 1)| == |closure + candidates|
  {
    hide Stage;
    LayeredKeys(sha, theory, closure + candidates, k + 1);
  }

  /** The error of `reason` when the saturation itself is in order: the proof has too many nodes. */
  ghost predicate ProofStops(sha: Digest, theory: Theory, limits: Limits, e: LimitError)
    requires ValidTheory(theory)
  {
    exists s ::
      && IsSaturation(sha, theory, limits, s)
      && |ResultFrom(sha, theory, s.closure).proof.nodes| > limits.maxProofNodes
      && e == LimitError(MaxProofNodes, limits.maxProofNodes, |ResultFrom(sha, theory, s.closure).proof.nodes|)
  }

  class ForwardChainingEngine {
    const limits: Limits
    const sha: Digest

    constructor (limits: Limits, sha: Digest)
      ensures this.limits == limits && this.sha == sha
    {
      this.limits := limits;
      this.sha := sha;
    }

    /** `_saturate`: the least model with its best derivations and exact counters, or an error for a
        limit that the least model really exceeds. */
    method SaturateState(theory: Theory) returns (r: Result<SaturationState, LimitError>)
      requires WellFormed(theory)
      ensures r.Ok? ==> IsSaturation(sha, theory, limits, r.value)
      ensures r.Err? ==> Exceeds(sha, theory, limits, r.error) && Reports(sha, theory, limits, r.error)
    {
      hide Layered, ValidTheory, SchemaValid, Exceeds, RoundDone, RoundError, IndexesExactly, Stage, FactSet,
        Instances, AllNodesBounded, BestRule, IsSaturation, HerbrandBase, SortBy, RuleOrderKey, LoopState, AtFixpoint,
        DeltaInstance, StageGrowsAt, Conflicts, LiteralKey, RulesInOrder, RoundStops, RoundFits;
      var closure, duplicates := InitialClosure(sha, theory);
      InitialCounts(sha, theory, closure);
      if |closure| > limits.maxDerivedLiterals {
        DerivedExceeded(sha, theory, limits, closure, 0);
        return Err(LimitError(MaxDerivedLiterals, limits.maxDerivedLiterals, |closure|));
      }
      var initialUniqueCount := |closure|;
      var delta := closure.Keys;
      var rounds := 0;
      var now := Counters(0, 0, duplicates);
      var orderedRules := SortBy(theory.rules, RuleOrderKey);
      SortedRulesDistinct(theory);
      SortedRulesInOrder(theory);
      LoopStart(sha, theory, limits, closure, delta, now);
      while delta != {}
        invariant LoopState(sha, theory, limits, closure, delta, now, rounds)
        decreases |HerbrandBase(theory)| - |closure|
      {
        LoopFacts(sha, theory, limits, closure, delta, now, rounds);
        var index := BuildIndex(closure);
        var round;
        ghost var seen;
        round, seen := RunRules(sha, theory, limits, orderedRules, closure, delta, index, now);
        if round.Err? {
          RoundExceeded(sha, theory, limits, closure, delta, now, rounds, round.error);
        StopsInRound(sha, theory, limits, closure, delta, now, rounds, round.error);
          return Err(round.error);
        }
        var candidates := round.value.0;
        RoundOutcome(sha, theory, limits, closure, delta, seen, candidates, now, round.value.1, rounds);
        if candidates == map[] {
          NoCandidates(sha, theory, limits, closure, candidates, round.value.1);
          FixpointReached(sha, theory, limits, closure, delta, now, round.value.1, rounds);
          now := round.value.1;
          break;
        }
        GrowsByCandidates(sha, theory, closure, candidates, rounds);
        assert RoundFits(sha, theory, limits, closure) by {
          FitsRound(sha, theory, limits, closure, round.value.1);
        }
        if rounds + 1 > limits.maxRounds {
          RoundsExceeded(sha, theory, limits, rounds);
          StopsInRound(sha, theory, limits, closure, delta, now, rounds,
                       LimitError(MaxRounds, limits.maxRounds, rounds + 1));
          return Err(LimitError(MaxRounds, limits.maxRounds, rounds + 1));
        }
        LayeredExtend(sha, theory, closure, rounds, candidates);
        if |closure| + |candidates| > limits.maxDerivedLiterals {
          DerivedExceeded(sha, theory, limits, closure + candidates, rounds + 1);
          AddedStage(sha, theory, closure, candidates, rounds);
          StopsInRound(sha, theory, limits, closure, delta, now, rounds,
                       LimitError(MaxDerivedLiterals, limits.maxDerivedLiterals, |closure| + |candidates|));
          return Err(LimitError(MaxDerivedLiterals, limits.maxDerivedLiterals, |closure| + |candidates|));
        }
        NextLoopState(sha, theory, limits, closure, delta, now, candidates, round.value.1, rounds);
        ClosureBounded(sha, theory, closure + candidates, rounds + 1);
        now := round.value.1;
        delta := candidates.Keys;
        closure := closure + candidates;
        rounds := rounds + 1;
      }
      if delta == {} {
        NothingToDo(sha, theory, limits, closure, now, rounds);
      }
      FixpointFacts(sha, theory, limits, closure, now, rounds);
      var conflicts := FindConflicts(closure);
      var depth := MaximumDepth(closure);
      DeepestIsLastRound(sha, theory, closure, rounds, depth);
      var telemetry := Telemetry(|theory.facts|, |closure| - initialUniqueCount, |closure|, |conflicts|, rounds,
                                 now.ruleInstances, now.successfulFirings, now.duplicates, depth);
      Finished(sha, theory, limits, SaturationState(closure, conflicts, telemetry), now);
      return Ok(SaturationState(closure, conflicts, telemetry));
    }

    /** `saturate`: every literal of the least model, in order, with the round it entered. */
    method Saturate(theory: Theory) returns (r: Result<SaturationOutput, LimitError>)
      requires WellFormed(theory)
      ensures r.Err? ==> Exceeds(sha, theory, limits, r.error) && Reports(sha, theory, limits, r.error)
      ensures r.Ok? ==> r.value.theoryId == theory.theoryId && r.value.theoryHash == TheoryHash(sha, theory)
      ensures r.Ok? ==> StrictlySorted(r.value.closure, ENTRY_KEY)
      ensures r.Ok? ==> forall l :: l in ModelOf(theory) <==> exists e :: e in r.value.closure && e.literal == l
      ensures r.Ok? ==> forall e :: e in r.value.closure ==> EntersAt(theory, e.depth, e.literal)
      ensures r.Ok? ==> exists s :: IsSaturation(sha, theory, limits, s)
                                    && r.value.conflicts == s.conflicts && r.value.telemetry == s.telemetry
    {
      hide LiteralKey, Leq, EntersAt, TelemetryOk, WithinLimits, ProductiveRounds, Conflicts, ValidTheory,
        SchemaValid, TheoryHash, BestProofs, Layered, Exceeds, Reports;
      var state := SaturateState(theory);
      if state.Err? {
        return Err(state.error);
      }
      var closure := state.value.closure;
      var literals := SortLiterals(closure.Keys);
      forall n | 0 <= n < |literals| ensures literals[n] in closure {
        assert literals[n] in literals;
      }
      var entries := seq(|literals|,
        n requires 0 <= n < |literals| => ClosureEntry(literals[n], closure[literals[n]].depth));
      EntriesSorted(literals, entries);
      EntriesList(sha, theory, closure, state.value.telemetry.rounds, literals, entries);
      return Ok(SaturationOutput(theory.theoryId, TheoryHash(sha, theory), entries, state.value.conflicts,
                                 state.value.telemetry));
    }

    /** `reason`. */
    method Reason(theory: Theory) returns (r: Result<ReasoningOutput, LimitError>)
      requires WellFormed(theory)
      ensures r.Ok? ==> IsReasoning(sha, theory, limits, r.value)
      ensures r.Err? ==> Exceeds(sha, theory, limits, r.error) || ProofTooLarge(sha, theory, limits, r.error)
      ensures r.Err? ==> Reports(sha, theory, limits, r.error) || ProofStops(sha, theory, limits, r.error)
    {
      hide LiteralKey, Leq, TelemetryOk, WithinLimits, ProductiveRounds, ValidTheory, SchemaValid, Conflicts,
        TheoryHash, BestProofs, Layered, Exceeds, Reports, Stage, OrderedNodes;
      var state := SaturateState(theory);
      if state.Err? {
        return Err(state.error);
      }
      var closure := state.value.closure;
      var query := Canonical(theory.query);
      var opposite := query.Opposite();
      var support := Find(closure, query);
      var opposition := Find(closure, opposite);
      var status;
      if support.Some? && opposition.Some? {
        status := Inconsistent;
      } else if support.Some? {
        status := Entailed;
      } else if opposition.Some? {
        status := Contradicted;
      } else {
        status := Unknown;
      }
      assert BestClosure(sha, theory, closure, state.value.telemetry.rounds);
      OrderedNodesSize(NodesOf(support) + NodesOf(opposition));
      var proof := BuildProof(sha, theory, query, status, support, opposition, limits);
      ConflictsListed(state.value.conflicts, Conflicts(closure.Keys));
      var result := ReasoningResult(theory.theoryId, status, query, |state.value.conflicts| > 0,
        |state.value.conflicts|,
                                    ProofOf(sha, theory, query, status, support, opposition));
      assert result == ResultFrom(sha, theory, closure);
      if proof.Err? {
        return Err(proof.error);
      }
      return Ok(ReasoningOutput(result.(proof := proof.value), state.value.telemetry));
    }
  }

  lemma EntriesSorted(literals: seq<CanonicalLiteral>, entries: seq<ClosureEntry>)
    requires |entries| == |literals| && StrictlySorted(literals, LiteralKey)
    requires forall n :: 0 <= n < |literals| ==> entries[n].literal == literals[n]
    ensures StrictlySorted(entries, ENTRY_KEY)
  {
    hide LiteralKey, Leq;
  }

  /** The entries name the closure's literals, each with the round it entered. */
  lemma EntriesList(sha: Digest, theory: Theory, closure: Closure, k: nat, literals: seq<CanonicalLiteral>,
                    entries: seq<ClosureEntry>)
    requires Layered(sha, theory, closure, k) && (forall l :: l in literals <==> l in closure)
             && |entries| == |literals|
    requires forall n :: 0 <= n < |literals| ==>
        literals[n] in closure && entries[n] == ClosureEntry(literals[n], closure[literals[n]].depth)
    ensures forall e :: e in entries ==> EntersAt(theory, e.depth, e.literal)
    ensures forall l :: l in closure <==> exists e :: e in entries && e.literal == l
  {
    hide Layered, EntersAt;
    LayeredKeys(sha, theory, closure, k);
    forall e | e in entries ensures EntersAt(theory, e.depth, e.literal) {
      var n :| 0 <= n < |entries| && entries[n] == e;
      var round := EntryRound(sha, theory, closure, k, k, literals[n]);
    }
    forall l | l in closure ensures exists e :: e in entries && e.literal == l {
      assert l in literals;
      var n :| 0 <= n < |literals| && literals[n] == l;
      assert entries[n] in entries;
    }
  }

  const ENTRY_KEY := (e: ClosureEntry) => LiteralKey(e.literal)

  lemma OrderedNodesSize(nodes: map<string, ProofNode>)
    ensures |OrderedNodes(nodes)| == |nodes|
  {
  }

  lemma ConflictsListed(listed: seq<CanonicalLiteral>, conflicts: set<CanonicalLiteral>)
    requires StrictlySorted(listed, LiteralKey) && forall l :: l in listed <==> l in conflicts
    ensures |listed| == |conflicts| && (|listed| > 0 <==> conflicts != {})
  {
    StrictlySortedDistinct(listed, LiteralKey);
    NoDuplicatesSize(listed);
    assert conflicts == set l | l in listed;
  }
}
