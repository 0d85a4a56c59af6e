/** Which derivation the engine keeps for each literal, stated without its loops: the one with the
    least choice key among all the ways to derive the literal. */
module Choices {
  import opened Keys
  import opened Logic
  import opened Semantics
  import opened Unification
  import opened Proofs
  import opened Checks

  type Closure = map<CanonicalLiteral, Derivation>

  function TextOf(theory: Theory, id: string): string {
    var text := SourceText(theory, id);
    if text.Some? then text.value else ""
  }

  function FactDerivation(sha: Digest, theory: Theory, f: GroundLiteral): Derivation {
    SourceDerivation(sha, Canonical(f), f.sourceId, TextOf(theory, f.sourceId))
  }

  /** The instance's body is matched inside `known`, so its premises and conclusion are defined. */
  ghost predicate Fires(i: Instance, known: set<CanonicalLiteral>) {
    i.rule.body != [] && RangeRestricted(i.rule) && Matches(i.rule.body, i.sub, known)
  }

  ghost predicate Concludes(i: Instance, l: CanonicalLiteral) {
    Vars(i.rule.head) <= i.sub.Keys && Ground(i.rule.head, i.sub) == l
  }

  lemma SameIdSameRule(theory: Theory, r: Rule, q: Rule)
    requires ValidTheory(theory) && r in theory.rules && q in theory.rules && r.id == q.id
    ensures r == q
  {
    DistinctIdsEqual(theory.rules, RULE_ID, r, q);
  }

  lemma PremisesKnown(i: Instance, known: set<CanonicalLiteral>)
    requires Fires(i, known)
    ensures |PremisesOf(i.rule.body, i.sub)| == |i.rule.body| > 0
    ensures forall p :: p in PremisesOf(i.rule.body, i.sub) ==> p in known
  {
    var ps := PremisesOf(i.rule.body, i.sub);
    forall p | p in ps ensures p in known {
      var j :| 0 <= j < |ps| && ps[j] == p;
      assert p == Ground(SortedBodyAt(i.rule.body, j, i.sub), i.sub);
    }
  }

  function DerivationsOf(closure: Closure, ps: seq<CanonicalLiteral>): seq<Derivation>
    requires forall p :: p in ps ==> p in closure
  {
    seq(|ps|, j requires 0 <= j < |ps| => assert ps[j] in ps; closure[ps[j]])
  }

  /** The derivation an instance offers, its premises derived as in `closure`. */
  ghost function InstanceDerivation(sha: Digest, theory: Theory, closure: Closure, i: Instance): Derivation
    requires Fires(i, closure.Keys)
  {
    PremisesKnown(i, closure.Keys);
    RuleDerivation(sha, Ground(i.rule.head, i.sub), i.rule, i.sub,
                   DerivationsOf(closure, PremisesOf(i.rule.body, i.sub)), TextOf(theory, i.rule.sourceId))
  }

  /** `d` is the best source derivation of `l`. */
  ghost predicate BestFact(sha: Digest, theory: Theory, l: CanonicalLiteral, d: Derivation) {
    && (exists f :: f in theory.facts && Canonical(f) == l && d == FactDerivation(sha, theory, f))
    && (forall f :: f in theory.facts && Canonical(f) == l ==>
      Leq(d.choiceKey, FactDerivation(sha, theory, f).choiceKey))
  }

  ghost predicate Offers(sha: Digest, theory: Theory, closure: Closure, known: set<CanonicalLiteral>, i: Instance,
                         l: CanonicalLiteral)
  {
    i.rule in theory.rules && Fires(i, known) && known <= closure.Keys && Concludes(i, l)
  }

  /** `d` is the best derivation of `l` among the rule instances over `known`. */
  ghost predicate BestRule(sha: Digest, theory: Theory, closure: Closure, known: set<CanonicalLiteral>,
                           l: CanonicalLiteral, d: Derivation)
  {
    && (exists i :: Offers(sha, theory, closure, known, i, l) && d == InstanceDerivation(sha, theory, closure, i))
    && (forall i :: Offers(sha, theory, closure, known, i, l) ==>
          Leq(d.choiceKey, InstanceDerivation(sha, theory, closure, i).choiceKey))
  }

  /** Every literal carries its best derivation: among the facts when it is a fact, and otherwise
      among all rule instances over the whole closure. */
  ghost predicate BestProofs(sha: Digest, theory: Theory, closure: Closure) {
    forall l | l in closure ::
      && closure[l].literal == l
      && (if l in FactSet(theory) then BestFact(sha, theory, l, closure[l])
          else BestRule(sha, theory, closure, closure.Keys, l, closure[l]))
  }

  // ---- The closure after some rounds ----

  /** `l` enters in round `j`; the facts enter in round zero. */
  ghost predicate EntersAt(theory: Theory, j: nat, l: CanonicalLiteral) {
    l in Stage(theory, j) && (j > 0 ==> l !in Stage(theory, j - 1))
  }

  /** A fact carries its best source derivation; a literal that enters in a later round carries its
      best derivation among the instances over the stage before. */
  ghost predicate ChosenAt(sha: Digest, theory: Theory, closure: Closure, j: nat, l: CanonicalLiteral) {
    && l in closure
    && if j == 0 then BestFact(sha, theory, l, closure[l])
       else BestRule(sha, theory, closure, Stage(theory, j - 1), l, closure[l])
  }

  /** After `k` rounds the closure is stage `k`, every literal chosen in the round it entered. */
  ghost predicate Layered(sha: Digest, theory: Theory, closure: Closure, k: nat) {
    && closure.Keys == Stage(theory, k)
    && forall j, l :: 0 <= j <= k && EntersAt(theory, j, l) ==> ChosenAt(sha, theory, closure, j, l)
  }

  lemma InstanceDerivationStable(sha: Digest, theory: Theory, small: Closure, big: Closure, i: Instance)
    requires Fires(i, small.Keys)
    requires small.Keys <= big.Keys && forall l :: l in small ==> big[l] == small[l]
    ensures Fires(i, big.Keys)
    ensures InstanceDerivation(sha, theory, big, i) == InstanceDerivation(sha, theory, small, i)
  {
    PremisesKnown(i, small.Keys);
    var ps := PremisesOf(i.rule.body, i.sub);
    assert DerivationsOf(big, ps) == DerivationsOf(small, ps) by {
      forall j | 0 <= j < |ps| ensures big[ps[j]] == small[ps[j]] {
        assert ps[j] in ps;
      }
    }
  }

  lemma BestRuleStable(sha: Digest, theory: Theory, small: Closure, big: Closure, known: set<CanonicalLiteral>,
                       l: CanonicalLiteral, d: Derivation)
    requires known <= small.Keys <= big.Keys && forall m :: m in small ==> big[m] == small[m]
    requires BestRule(sha, theory, small, known, l, d)
    ensures BestRule(sha, theory, big, known, l, d)
  {
    hide InstanceDerivation, PremisesOf, Matches, Leq;
    forall i | Fires(i, known)
      ensures Fires(i, small.Keys) && Fires(i, big.Keys)
      ensures InstanceDerivation(sha, theory, big, i) == InstanceDerivation(sha, theory, small, i)
    {
      MatchesMonotone(i.rule.body, i.sub, known, small.Keys);
      InstanceDerivationStable(sha, theory, small, big, i);
    }
    var i :| Offers(sha, theory, small, known, i, l) && d == InstanceDerivation(sha, theory, small, i);
    assert Offers(sha, theory, big, known, i, l);
    forall i | Offers(sha, theory, big, known, i, l)
      ensures Leq(d.choiceKey, InstanceDerivation(sha, theory, big, i).choiceKey)
    {
      assert Offers(sha, theory, small, known, i, l);
    }
  }

  /** Adding the best derivations of the next stage's new literals keeps the closure layered. */
  lemma LayeredExtend(sha: Digest, theory: Theory, closure: Closure, k: nat, candidates: Closure)
    requires Layered(sha, theory, closure, k)
    requires candidates.Keys == Stage(theory, k + 1) - Stage(theory, k)
    requires forall l :: l in candidates ==> BestRule(sha, theory, closure, closure.Keys, l, candidates[l])
    ensures Layered(sha, theory, closure + candidates, k + 1)
  {
    hide EntersAt, ChosenAt, BestRule, Stage;
    StageMonotone(theory, k, k + 1);
    assert (closure + candidates).Keys == Stage(theory, k + 1);
    forall j, l | 0 <= j <= k + 1 && EntersAt(theory, j, l)
      ensures ChosenAt(sha, theory, closure + candidates, j, l)
    {
      ChosenExtend(sha, theory, closure, k, candidates, j, l);
    }
  }

  lemma ChosenExtend(sha: Digest, theory: Theory, closure: Closure, k: nat, candidates: Closure, j: nat,
                     l: CanonicalLiteral)
    requires Layered(sha, theory, closure, k)
    requires candidates.Keys == Stage(theory, k + 1) - Stage(theory, k)
    requires l in candidates ==> BestRule(sha, theory, closure, closure.Keys, l, candidates[l])
    requires j <= k + 1 && EntersAt(theory, j, l)
    ensures ChosenAt(sha, theory, closure + candidates, j, l)
  {
    hide BestRule, BestFact, Step, FactSet;
    var big := closure + candidates;
    if j == k + 1 {
      BestRuleStable(sha, theory, closure, big, closure.Keys, l, candidates[l]);
    } else {
      assert ChosenAt(sha, theory, closure, j, l);
      assert l in closure && l !in candidates;
      assert big[l] == closure[l];
      if j > 0 {
        StageMonotone(theory, j - 1, k);
        BestRuleStable(sha, theory, closure, big, Stage(theory, j - 1), l, closure[l]);
      }
    }
  }

  // ---- Depth ----

  lemma InstanceDepth(sha: Digest, theory: Theory, closure: Closure, i: Instance)
    requires Fires(i, closure.Keys)
    ensures forall p :: p in PremisesOf(i.rule.body, i.sub) ==>
              p in closure && closure[p].depth < InstanceDerivation(sha, theory, closure, i).depth
    ensures exists p :: p in PremisesOf(i.rule.body, i.sub)
              && p in closure && closure[p].depth + 1 == InstanceDerivation(sha, theory, closure, i).depth
    ensures InstanceDerivation(sha, theory, closure, i).choiceKey.Pair?
    ensures InstanceDerivation(sha, theory, closure, i).choiceKey.head ==
        Num(InstanceDerivation(sha, theory, closure, i).depth)
    ensures InstanceDerivation(sha, theory, closure, i).literal == Ground(i.rule.head, i.sub)
  {
    PremisesKnown(i, closure.Keys);
    var ps := PremisesOf(i.rule.body, i.sub);
    var ds := DerivationsOf(closure, ps);
    MaxDepthBounds(ds);
    forall p | p in ps ensures closure[p].depth <= MaxDepth(ds) {
      var j :| 0 <= j < |ps| && ps[j] == p;
      assert ds[j] == closure[p];
    }
    var j :| 0 <= j < |ds| && ds[j].depth == MaxDepth(ds);
    assert ps[j] in ps;
  }

  lemma PremiseIffBody(i: Instance, p: CanonicalLiteral)
    requires i.sub.Keys == BodyVars(i.rule.body)
    ensures p in PremisesOf(i.rule.body, i.sub) <==> exists b :: b in i.rule.body && Grounds(b, i.sub, p)
  {
    var ps := PremisesOf(i.rule.body, i.sub);
    SortedBodySame(i.rule.body);
    if p in ps {
      var j :| 0 <= j < |ps| && ps[j] == p;
      assert Grounds(SortedBodyAt(i.rule.body, j, i.sub), i.sub, p);
    }
    if b :| b in i.rule.body && Grounds(b, i.sub, p) {
      assert b in SortedBody(i.rule.body);
      var j :| 0 <= j < |i.rule.body| && SortedBody(i.rule.body)[j] == b;
      assert ps[j] == p;
    }
  }

  lemma FiresWithin(i: Instance, known: set<CanonicalLiteral>, big: set<CanonicalLiteral>)
    requires Fires(i, big)
    ensures Fires(i, known) <==> forall p :: p in PremisesOf(i.rule.body, i.sub) ==> p in known
  {
    if forall p :: p in PremisesOf(i.rule.body, i.sub) ==> p in known {
      forall b | b in i.rule.body ensures Ground(b, i.sub) in known {
        assert Grounds(b, i.sub, Ground(b, i.sub));
        PremiseIffBody(i, Ground(b, i.sub));
      }
    }
    if Fires(i, known) {
      PremisesKnown(i, known);
    }
  }

  /** An instance over stage `j` whose conclusion is not in stage `j` concludes in stage `j + 1`. */
  lemma ConclusionNext(theory: Theory, j: nat, i: Instance, l: CanonicalLiteral)
    requires i.rule in theory.rules && Fires(i, Stage(theory, j)) && Concludes(i, l)
    ensures l in Stage(theory, j + 1)
  {
    InstancesExact(theory.rules, Stage(theory, j), i.rule, i.sub);
  }

  /** A recorded depth is the round in which the literal entered. */
  lemma {:induction false} LayeredDepth(sha: Digest, theory: Theory, closure: Closure, k: nat, j: nat,
                                        l: CanonicalLiteral)
    requires Layered(sha, theory, closure, k) && j <= k && EntersAt(theory, j, l)
    ensures l in closure && closure[l].depth == j && closure[l].literal == l
    decreases j, 0
  {
    hide InstanceDerivation, PremisesOf, Step, Leq;
    assert ChosenAt(sha, theory, closure, j, l);
    if j > 0 {
      var known := Stage(theory, j - 1);
      StageMonotone(theory, j - 1, k);
      var i :| Offers(sha, theory, closure, known, i, l) && closure[l] == InstanceDerivation(sha, theory, closure, i);
      MatchesMonotone(i.rule.body, i.sub, known, closure.Keys);
      InstanceDepth(sha, theory, closure, i);
      PremisesKnown(i, known);
      var ps := PremisesOf(i.rule.body, i.sub);
      forall p | p in ps ensures closure[p].depth <= j - 1 {
        var e := EntryRound(sha, theory, closure, k, j - 1, p);
      }
      if forall p :: p in ps ==> closure[p].depth < j - 1 {
        AllPremisesEarlier(sha, theory, closure, k, j, l, i);
      }
    }
  }

  /** If every premise entered before round `j - 1`, the conclusion entered before round `j`. */
  lemma {:induction false} AllPremisesEarlier(sha: Digest, theory: Theory, closure: Closure, k: nat, j: nat,
                                              l: CanonicalLiteral, i: Instance)
    requires Layered(sha, theory, closure, k) && 0 < j <= k
    requires Offers(sha, theory, closure, Stage(theory, j - 1), i, l)
    requires forall p :: p in PremisesOf(i.rule.body, i.sub) ==> p in closure && closure[p].depth < j - 1
    ensures l in Stage(theory, j - 1)
    decreases j - 1, 2
  {
    hide InstanceDerivation, PremisesOf, Step, Layered, Leq;
    var ps := PremisesOf(i.rule.body, i.sub);
    PremisesKnown(i, Stage(theory, j - 1));
    assert ps[0] in ps;
    var earlier := j - 2;
    forall p | p in ps ensures p in Stage(theory, earlier) {
      var e := EntryRound(sha, theory, closure, k, j - 1, p);
      StageMonotone(theory, e, earlier);
    }
    FiresWithin(i, Stage(theory, earlier), Stage(theory, j - 1));
    ConclusionNext(theory, earlier, i, l);
  }

  lemma {:induction false} EntryRound(sha: Digest, theory: Theory, closure: Closure, k: nat, j: nat,
                                      l: CanonicalLiteral)
    returns (e: nat)
    requires Layered(sha, theory, closure, k) && j <= k && l in Stage(theory, j)
    ensures e <= j && EntersAt(theory, e, l)
    ensures l in closure && closure[l].depth == e && closure[l].literal == l
    decreases j, 1
  {
    hide ChosenAt, Step, Layered, FactSet;
    if j > 0 && l in Stage(theory, j - 1) {
      e := EntryRound(sha, theory, closure, k, j - 1, l);
    } else {
      e := j;
      LayeredDepth(sha, theory, closure, k, j, l);
    }
  }

  /** At the fixpoint the layered choices are the best among all instances over the whole model: an
      instance with a later premise is deeper than the choice made when the literal entered. */
  lemma LayeredIsBest(sha: Digest, theory: Theory, closure: Closure, k: nat)
    requires Layered(sha, theory, closure, k)
    ensures BestProofs(sha, theory, closure)
  {
    hide BestRule, BestFact, Step;
    forall l | l in closure
      ensures closure[l].literal == l
      ensures if l in FactSet(theory) then BestFact(sha, theory, l, closure[l])
              else BestRule(sha, theory, closure, closure.Keys, l, closure[l])
    {
      var e := EntryRound(sha, theory, closure, k, k, l);
      assert ChosenAt(sha, theory, closure, e, l);
      if l in FactSet(theory) {
        if e > 0 {
          StageMonotone(theory, 0, e - 1);
        }
      } else {
        LayeredIsBestAt(sha, theory, closure, k, e, l);
      }
    }
  }

  lemma LayeredIsBestAt(sha: Digest, theory: Theory, closure: Closure, k: nat, j: nat, l: CanonicalLiteral)
    requires Layered(sha, theory, closure, k) && 0 < j <= k && EntersAt(theory, j, l)
    ensures l in closure && BestRule(sha, theory, closure, closure.Keys, l, closure[l])
  {
    hide InstanceDerivation, PremisesOf, Step, Leq;
    var known := Stage(theory, j - 1);
    StageMonotone(theory, j - 1, k);
    assert ChosenAt(sha, theory, closure, j, l);
    var best :| Offers(sha, theory, closure, known, best, l)
      && closure[l] == InstanceDerivation(sha, theory, closure, best);
    MatchesMonotone(best.rule.body, best.sub, known, closure.Keys);
    assert Offers(sha, theory, closure, closure.Keys, best, l);
    forall i | Offers(sha, theory, closure, closure.Keys, i, l)
      ensures Leq(closure[l].choiceKey, InstanceDerivation(sha, theory, closure, i).choiceKey)
    {
      FiresWithin(i, known, closure.Keys);
      if Fires(i, known) {
        assert Offers(sha, theory, closure, known, i, l);
      } else {
        LaterPremiseLoses(sha, theory, closure, k, j, l, best, i);
      }
    }
  }

  /** An instance with a premise outside stage `j - 1` has depth above `j`. */
  lemma LaterPremiseLoses(sha: Digest, theory: Theory, closure: Closure, k: nat, j: nat, l: CanonicalLiteral,
                          best: Instance, i: Instance)
    requires Layered(sha, theory, closure, k) && 0 < j <= k && EntersAt(theory, j, l)
    requires Offers(sha, theory, closure, closure.Keys, best, l) && l in closure
    requires closure[l] == InstanceDerivation(sha, theory, closure, best)
    requires Offers(sha, theory, closure, closure.Keys, i, l) && !Fires(i, Stage(theory, j - 1))
    ensures Leq(closure[l].choiceKey, InstanceDerivation(sha, theory, closure, i).choiceKey)
  {
    hide InstanceDerivation, PremisesOf, Stage, ChosenAt;
    LayeredDepth(sha, theory, closure, k, j, l);
    InstanceDepth(sha, theory, closure, best);
    InstanceDepth(sha, theory, closure, i);
    FiresWithin(i, Stage(theory, j - 1), closure.Keys);
    var p :| p in PremisesOf(i.rule.body, i.sub) && p !in Stage(theory, j - 1);
    PremisesKnown(i, closure.Keys);
    var e := EntryRound(sha, theory, closure, k, k, p);
    if e <= j - 1 {
      StageMonotone(theory, e, j - 1);
    }
  }
}
