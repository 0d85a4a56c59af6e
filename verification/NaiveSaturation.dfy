/** The verifier's own matching, grounding and passes over the rules
    (backend/src/verilogic_ns_api/reasoning/verifier.py, lines 218-330). */
module NaiveSaturation {
  import opened Keys
  import opened Logic
  import opened Semantics
  import opened Unification
  import opened Proofs
  import opened Checks

  // ---- Naive matching ----

  function SubstKey(s: Subst): Key {
    BindingsKey(SortedItems(s))
  }

  /** The inner loop of `_naive_matches`. */
  method MatchCandidate(pattern: RuleLiteral, candidate: CanonicalLiteral, state: Subst) returns (r: Option<Subst>)
    requires |pattern.arguments| == |candidate.arguments|
    requires pattern.pred == candidate.pred && pattern.negated == candidate.negated
    ensures r.Some? ==>
              && r.value.Keys == state.Keys + Vars(pattern)
              && Extends(r.value, state)
              && Ground(pattern, r.value) == candidate
    ensures r.None? ==> forall s | Extends(s, state) && Vars(pattern) <= s.Keys :: Ground(pattern, s) != candidate
  {
    var matched := state;
    var valid := true;
    var i := 0;
    while i < |pattern.arguments|
      invariant 0 <= i <= |pattern.arguments| && valid
      invariant matched.Keys == state.Keys + VarsBefore(pattern, i)
      invariant Extends(matched, state)
      invariant forall j :: 0 <= j < i ==> AgreesAt(pattern, candidate, matched, j)
      invariant forall s | GroundsTo(pattern, candidate, state, s) :: Extends(s, matched)
    {
      var term, entity := pattern.arguments[i], candidate.arguments[i];
      ghost var before := matched;
      forall s | GroundsTo(pattern, candidate, state, s)
        ensures (term.EntityTerm? ==> term.id == entity)
                && (term.VariableTerm? ==> term.name in s && s[term.name] == entity)
      {
        GroundsAt(pattern, candidate, state, s, i);
      }
      if term.EntityTerm? {
        if term.id != entity {
          valid := false;
          break;
        }
      } else {
        if term.name in matched && matched[term.name] != entity {
          valid := false;
          break;
        }
        matched := matched[term.name := entity];
      }
      forall j | 0 <= j < i ensures AgreesAt(pattern, candidate, matched, j) {
        assert AgreesAt(pattern, candidate, before, j);
      }
      assert AgreesAt(pattern, candidate, matched, i);
      assert VarsBefore(pattern, i + 1) == VarsBefore(pattern, i) + (if term.VariableTerm? then {term.name} else {});
      i := i + 1;
    }
    if !valid {
      assert forall s | Extends(s, state) && Vars(pattern) <= s.Keys :: !GroundsTo(pattern, candidate, state, s);
      return None;
    }
    AgreesEverywhere(pattern, candidate, matched);
    return Some(matched);
  }

  ghost predicate GroundsTo(pattern: RuleLiteral, candidate: CanonicalLiteral, base: Subst, s: Subst) {
    Extends(s, base) && Vars(pattern) <= s.Keys && Ground(pattern, s) == candidate
  }

  lemma GroundsAt(pattern: RuleLiteral, candidate: CanonicalLiteral, base: Subst, s: Subst, i: nat)
    requires GroundsTo(pattern, candidate, base, s) && i < |pattern.arguments|
    ensures |candidate.arguments| == |pattern.arguments| && AgreesAt(pattern, candidate, s, i)
  {
    assert Ground(pattern, s).arguments[i] == GroundTerm(pattern.arguments[i], s);
  }

  lemma AgreesEverywhere(pattern: RuleLiteral, candidate: CanonicalLiteral, s: Subst)
    requires |pattern.arguments| == |candidate.arguments|
    requires pattern.pred == candidate.pred && pattern.negated == candidate.negated
    requires forall j :: 0 <= j < |pattern.arguments| ==> AgreesAt(pattern, candidate, s, j)
    ensures VarsBefore(pattern, |pattern.arguments|) == Vars(pattern)
    ensures Vars(pattern) <= s.Keys && Ground(pattern, s) == candidate
  {
    assert VarsBefore(pattern, |pattern.arguments|) == Vars(pattern);
    forall v | v in Vars(pattern) ensures v in s {
      var j :| 0 <= j < |pattern.arguments| && pattern.arguments[j].VariableTerm? && pattern.arguments[j].name == v;
      assert AgreesAt(pattern, candidate, s, j);
    }
    forall j | 0 <= j < |pattern.arguments| ensures Ground(pattern, s).arguments[j] == candidate.arguments[j] {
      assert AgreesAt(pattern, candidate, s, j);
    }
    assert Ground(pattern, s).arguments == candidate.arguments;
  }

  predicate SameSignature(pattern: RuleLiteral, l: CanonicalLiteral) {
    l.pred == pattern.pred && l.negated == pattern.negated && |l.arguments| == |pattern.arguments|
  }

  ghost predicate Refines(pattern: RuleLiteral, candidates: seq<CanonicalLiteral>, state: Subst, s: Subst) {
    && Extends(s, state) && s.Keys == state.Keys + Vars(pattern)
    && Ground(pattern, s) in candidates
  }

  method RefineState(pattern: RuleLiteral, state: Subst, candidates: seq<CanonicalLiteral>) returns (next: seq<Subst>)
    requires forall l :: l in candidates ==> SameSignature(pattern, l)
    ensures forall s :: s in next <==> Refines(pattern, candidates, state, s)
  {
    next := [];
    for j := 0 to |candidates|
      invariant forall s :: s in next <==> Refines(pattern, candidates[..j], state, s)
    {
      assert candidates[j] in candidates;
      assert candidates[..j + 1] == candidates[..j] + [candidates[j]];
      var matched := MatchCandidate(pattern, candidates[j], state);
      if matched.Some? {
        forall s | Refines(pattern, candidates[..j + 1], state, s) && Ground(pattern, s) == candidates[j]
          ensures s == matched.value
        {
          SubstDetermined(pattern, s, matched.value, state);
        }
        next := next + [matched.value];
      }
    }
    assert candidates[..|candidates|] == candidates;
  }

  ghost predicate RefinesOne(pattern: RuleLiteral, candidates: seq<CanonicalLiteral>, states: seq<Subst>, s: Subst) {
    exists state :: state in states && Refines(pattern, candidates, state, s)
  }

  /** One more pattern refines the matches of the patterns before it. */
  lemma MatchesRefine(patterns: seq<RuleLiteral>, pattern: RuleLiteral, known: set<CanonicalLiteral>, s: Subst)
    ensures Matches(patterns + [pattern], s, known) <==>
              exists base :: Matches(patterns, base, known) && Extends(s, base)
                && s.Keys == base.Keys + Vars(pattern) && Ground(pattern, s) in known
  {
    BodyVarsAppend(patterns, pattern);
    if Matches(patterns + [pattern], s, known) {
      var base := Restrict(s, BodyVars(patterns));
      forall b | b in patterns ensures Vars(b) <= base.Keys && Ground(b, base) in known {
        assert b in patterns + [pattern];
        GroundRestrict(b, s, base);
      }
      assert pattern in patterns + [pattern];
      assert Matches(patterns, base, known);
    }
    if base :| Matches(patterns, base, known) && Extends(s, base)
               && s.Keys == base.Keys + Vars(pattern) && Ground(pattern, s) in known {
      forall b | b in patterns + [pattern] ensures Vars(b) <= s.Keys && Ground(b, s) in known {
        if b in patterns {
          GroundRestrict(b, s, base);
        }
      }
    }
  }

  lemma {:induction false} NoMatchNoExtension(patterns: seq<RuleLiteral>, i: nat, known: set<CanonicalLiteral>)
    requires i <= |patterns| && forall s :: !Matches(patterns[..i], s, known)
    ensures forall s :: !Matches(patterns, s, known)
    decreases |patterns| - i
  {
    if i == |patterns| {
      assert patterns[..i] == patterns;
    } else {
      var next := patterns[..i + 1];
      assert next == patterns[..i] + [patterns[i]];
      forall s ensures !Matches(next, s, known) {
        MatchesRefine(patterns[..i], patterns[i], known, s);
      }
      NoMatchNoExtension(patterns, i + 1, known);
    }
  }

  /** `_naive_matches`: each substitution that matches the body inside the closure, once. */
  method NaiveMatches(body: seq<RuleLiteral>, closure: set<CanonicalLiteral>) returns (states: seq<Subst>)
    ensures forall s :: s in states <==> Matches(body, s, closure)
    ensures NoDuplicates(states)
  {
    hide Leq, SubstKey, LiteralKey, SortBy, Matches, Refines;
    var patterns := SortedBody(body);
    states := [map[]];
    NoPatterns(closure);
    assert patterns[..0] == [];
    for i := 0 to |patterns|
      invariant forall s :: s in states <==> Matches(patterns[..i], s, closure)
      invariant NoDuplicates(states)
    {
      var pattern := patterns[i];
      var candidates := CandidatesFor(pattern, closure);
      var nextStates: seq<Subst> := [];
      for j := 0 to |states|
        invariant forall s :: s in nextStates <==> RefinesOne(pattern, candidates, states[..j], s)
      {
        var refined := RefineState(pattern, states[j], candidates);
        assert states[..j + 1] == states[..j] + [states[j]];
        nextStates := nextStates + refined;
      }
      assert states[..|states|] == states;
      assert patterns[..i + 1] == patterns[..i] + [pattern];
      forall s ensures RefinesOne(pattern, candidates, states, s) <==> Matches(patterns[..i + 1], s, closure) {
        RefinesIsMatch(patterns[..i], pattern, closure, candidates, states, s);
      }
      states := DeduplicateSubstitutions(nextStates);
      StrictlySortedDistinct(states, SubstKey);
      if states == [] {
        ghost var prefix := patterns[..i + 1];
        forall s ensures !Matches(prefix, s, closure) {
          assert s !in states;
        }
        NoMatchNoExtension(patterns, i + 1, closure);
        MatchesSorted(body, closure);
        return;
      }
    }
    assert patterns[..|patterns|] == patterns;
    MatchesSorted(body, closure);
  }

  lemma NoPatterns(closure: set<CanonicalLiteral>)
    ensures forall s :: Matches([], s, closure) <==> s == map[]
  {
    assert BodyVars([]) == {};
  }

  lemma RefinesIsMatch(patterns: seq<RuleLiteral>, pattern: RuleLiteral, closure: set<CanonicalLiteral>,
                       candidates: seq<CanonicalLiteral>, states: seq<Subst>, s: Subst)
    requires forall t :: t in states <==> Matches(patterns, t, closure)
    requires forall l :: l in candidates <==> l in closure && SameSignature(pattern, l)
    ensures RefinesOne(pattern, candidates, states, s) <==> Matches(patterns + [pattern], s, closure)
  {
    hide Matches;
    MatchesRefine(patterns, pattern, closure, s);
    if RefinesOne(pattern, candidates, states, s) {
      var state :| state in states && Refines(pattern, candidates, state, s);
      assert Matches(patterns, state, closure) && Ground(pattern, s) in closure;
    }
    if base :| Matches(patterns, base, closure) && Extends(s, base)
               && s.Keys == base.Keys + Vars(pattern) && Ground(pattern, s) in closure {
      assert base in states;
      assert SameSignature(pattern, Ground(pattern, s));
      assert Refines(pattern, candidates, base, s);
    }
  }

  lemma MatchesSorted(body: seq<RuleLiteral>, closure: set<CanonicalLiteral>)
    ensures forall s :: Matches(SortedBody(body), s, closure) <==> Matches(body, s, closure)
  {
    SortedBodySame(body);
  }

  /** The sorted candidates of one pattern. */
  method CandidatesFor(pattern: RuleLiteral, closure: set<CanonicalLiteral>) returns (r: seq<CanonicalLiteral>)
    ensures forall l :: l in r <==> l in closure && SameSignature(pattern, l)
  {
    var elements := Elements(set l | l in closure && SameSignature(pattern, l));
    r := SortBy(elements, LiteralKey);
    SortByMultiset(elements, LiteralKey);
  }

  /** `_deduplicate_substitutions`. */
  method DeduplicateSubstitutions(items: seq<Subst>) returns (r: seq<Subst>)
    ensures forall s :: s in r <==> s in items
    ensures StrictlySorted(r, SubstKey)
  {
    forall i, j | 0 <= i < |items| && 0 <= j < |items| && SubstKey(items[i]) == SubstKey(items[j])
      ensures items[i] == items[j]
    {
      SubstKeyInjective(items[i], items[j]);
    }
    r := Deduplicate(items, SubstKey);
  }

  /** `_ground_independently`: fails exactly when a variable of the literal is not bound. */
  method GroundIndependently(literal: RuleLiteral, s: Subst) returns (r: Option<CanonicalLiteral>)
    ensures r.Some? <==> Vars(literal) <= s.Keys
    ensures r.Some? ==> Grounds(literal, s, r.value)
  {
    var arguments: seq<string> := [];
    var i := 0;
    while i < |literal.arguments|
      invariant 0 <= i <= |literal.arguments| && |arguments| == i
      invariant VarsBefore(literal, i) <= s.Keys
      invariant forall j :: 0 <= j < i ==>
                  && (literal.arguments[j].VariableTerm? ==> literal.arguments[j].name in s)
                  && arguments[j] == GroundTerm(literal.arguments[j], s)
    {
      var term := literal.arguments[i];
      if term.VariableTerm? {
        if term.name !in s {
          assert term.name in Vars(literal);
          return None;
        }
        arguments := arguments + [s[term.name]];
      } else {
        arguments := arguments + [term.id];
      }
      i := i + 1;
    }
    assert VarsBefore(literal, |literal.arguments|) == Vars(literal);
    r := Some(CanonicalLiteral(literal.pred, arguments, literal.negated));
    assert Ground(literal, s).arguments == arguments;
  }

  // ---- The naive closure ----

  /** A naive saturation stops at a limit only when the theory exceeds it. */
  ghost predicate NaiveExceeds(theory: Theory, limits: Limits, e: LimitError) {
    match e.name
    case MaxDerivedLiterals =>
      e.limit == limits.maxDerivedLiterals < e.observed && exists k: nat :: |Stage(theory, k)| == e.observed
    case MaxRuleFirings =>
      && e.limit == limits.maxRuleFirings && e.observed == e.limit + 1
      && exists k: nat :: ReachedStage(theory, k) && e.observed <= NaiveFirings(theory, k)
    case MaxRounds =>
      e.limit == limits.maxRounds && e.observed == e.limit + 1 && Stage(theory, e.limit + 1) != Stage(theory, e.limit)
    case MaxProofNodes => false
  }

  /** Every stage below `k` grows, so the naive iteration reaches stage `k`. */
  ghost predicate ReachedStage(theory: Theory, k: nat) {
    forall j :: 0 <= j < k ==> StageGrowsAt(theory, j)
  }

  /** One pass over the rules counts and fires every instance over the closure. */
  ghost predicate PassState(theory: Theory, closure: set<CanonicalLiteral>, seen: set<Instance>,
                            newLiterals: set<CanonicalLiteral>, start: nat, firings: nat)
  {
    && (forall i :: i in seen ==> i in Instances(theory.rules, closure))
    && newLiterals == Heads(seen) - closure
    && firings == start + |seen|
  }

  lemma PassStep(theory: Theory, closure: set<CanonicalLiteral>, seen: set<Instance>,
                 newLiterals: set<CanonicalLiteral>, start: nat, firings: nat, i: Instance, l: CanonicalLiteral)
    requires PassState(theory, closure, seen, newLiterals, start, firings)
    requires i !in seen && i in Instances(theory.rules, closure) && Grounds(i.rule.head, i.sub, l)
    ensures PassState(theory, closure, seen + {i}, if l in closure then newLiterals else newLiterals + {l}, start,
        firings + 1)
  {
    hide Instances;
    HeadsAdd(seen, i, l);
    var after := if l in closure then newLiterals else newLiterals + {l};
    assert after == Heads(seen + {i}) - closure;
  }

  lemma HeadsAdd(seen: set<Instance>, i: Instance, l: CanonicalLiteral)
    requires Grounds(i.rule.head, i.sub, l)
    ensures Heads(seen + {i}) == Heads(seen) + {l}
  {
    forall m | m in Heads(seen) + {l} ensures m in Heads(seen + {i}) {
      if m in Heads(seen) {
        var j :| j in seen && Vars(j.rule.head) <= j.sub.Keys && Ground(j.rule.head, j.sub) == m;
        assert j in seen + {i};
      } else {
        assert i in seen + {i};
      }
    }
  }

  ghost function FiringsBefore(theory: Theory, k: nat): nat {
    if k == 0 then 0 else NaiveFirings(theory, k - 1)
  }

  lemma NaiveFiringsStep(theory: Theory, k: nat)
    ensures NaiveFirings(theory, k) == FiringsBefore(theory, k) + |Instances(theory.rules, Stage(theory, k))|
    ensures FiringsBefore(theory, k + 1) == NaiveFirings(theory, k)
  {
  }

  lemma StageNext(theory: Theory, k: nat, newLiterals: set<CanonicalLiteral>)
    requires newLiterals == Heads(Instances(theory.rules, Stage(theory, k))) - Stage(theory, k)
    ensures Stage(theory, k + 1) == Stage(theory, k) + newLiterals
    ensures newLiterals != {} ==> StageGrowsAt(theory, k)
    ensures newLiterals == {} ==> Stage(theory, k + 1) == Stage(theory, k)
  {
    hide Instances, Heads;
    var known := Stage(theory, k);
    assert Stage(theory, k + 1) == Step(theory, known);
    if newLiterals != {} {
      var l :| l in newLiterals;
      assert l in Stage(theory, k + 1) && l !in known;
    }
  }

  lemma StageZero(theory: Theory)
    ensures Stage(theory, 0) == set f | f in theory.facts :: Canonical(f)
  {
  }

  lemma BaseBound(theory: Theory, k: nat)
    requires ValidTheory(theory)
    ensures |Stage(theory, k)| <= |HerbrandBase(theory)|
  {
    hide ValidTheory, HerbrandBase, Stage;
    StageInBase(theory, k);
    SubsetSize(Stage(theory, k), HerbrandBase(theory));
  }

  lemma GrowthBound(theory: Theory, k: nat)
    requires ValidTheory(theory) && StageGrowsAt(theory, k)
    ensures |Stage(theory, k)| < |Stage(theory, k + 1)| <= |HerbrandBase(theory)|
  {
    hide ValidTheory, HerbrandBase, Stage;
    StageGrows(theory, k);
  }

  lemma PassBound(theory: Theory, closure: set<CanonicalLiteral>, seen: set<Instance>,
                  newLiterals: set<CanonicalLiteral>, start: nat, firings: nat, i: Instance)
    requires PassState(theory, closure, seen, newLiterals, start, firings)
    requires i !in seen && i in Instances(theory.rules, closure)
    ensures firings + 1 <= start + |Instances(theory.rules, closure)|
  {
    hide Instances;
    SubsetSize(seen + {i}, Instances(theory.rules, closure));
  }

  lemma EmptyPass(theory: Theory, closure: set<CanonicalLiteral>, start: nat)
    ensures PassState(theory, closure, {}, {}, start, start)
  {
    assert Heads({}) == {};
  }

  lemma PassEnd(theory: Theory, closure: set<CanonicalLiteral>, seen: set<Instance>,
                newLiterals: set<CanonicalLiteral>, start: nat, firings: nat)
    requires PassState(theory, closure, seen, newLiterals, start, firings)
    requires forall i :: i in Instances(theory.rules, closure) ==> i in seen
    ensures newLiterals == Heads(Instances(theory.rules, closure)) - closure
    ensures firings == start + |Instances(theory.rules, closure)|
  {
    hide Instances, Heads;
    assert seen == Instances(theory.rules, closure);
  }

  lemma RuleFacts(theory: Theory, n: nat)
    requires WellFormed(theory) && n < |theory.rules|
    ensures theory.rules[n] in theory.rules && RangeRestricted(theory.rules[n]) && theory.rules[n].body != []
    ensures theory.rules[n] !in theory.rules[..n]
  {
    var rule := theory.rules[n];
    assert RuleValid(rule, Declared(theory));
    forall j | 0 <= j < n ensures theory.rules[j] != rule {
      assert RULE_ID(theory.rules[j]) != RULE_ID(rule);
    }
  }

  /** The naive closure counts an instance again in every pass: its total lies between the number of
      instances over the least model and that number for each of its `k + 1` passes. */
  lemma {:induction false} NaiveFiringsBounds(theory: Theory, k: nat)
    ensures |Instances(theory.rules, Stage(theory, k))| <= NaiveFirings(theory, k)
    ensures NaiveFirings(theory, k) <= (k + 1) * |Instances(theory.rules, Stage(theory, k))|
  {
    hide Instances, Stage;
    if k > 0 {
      NaiveFiringsBounds(theory, k - 1);
      StageMonotone(theory, k - 1, k);
      InstancesMonotone(theory.rules, Stage(theory, k - 1), Stage(theory, k));
      var small, big := |Instances(theory.rules, Stage(theory, k - 1))|, |Instances(theory.rules, Stage(theory, k))|;
      SubsetSize(Instances(theory.rules, Stage(theory, k - 1)), Instances(theory.rules, Stage(theory, k)));
      ScaledBound(k, small, big);
    }
  }

  lemma ScaledBound(k: nat, small: nat, big: nat)
    requires small <= big
    ensures big + k * small <= (k + 1) * big
  {
    assert (k + 1) * big == k * big + big;
    assert k * small <= k * big;
  }
}
