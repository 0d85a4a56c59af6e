/** How long and how deep a run can be: depths are least heights of derivation trees, and the number
    of rounds is bounded by the declarations of the theory. */
module Bounds {
  import opened Logic
  import opened Semantics
  import opened Proofs
  import opened Choices
  import opened Engine

  // ---- Depth ----

  /** A literal enters in round `j` exactly when its lowest derivation tree has height `j`. */
  lemma EntryIsLeastHeight(theory: Theory, j: nat, l: CanonicalLiteral)
    ensures EntersAt(theory, j, l) <==>
              && (exists t :: Proves(theory, t, l) && Height(t) == j)
              && (forall t :: Proves(theory, t, l) ==> Height(t) >= j)
  {
    hide Proves, Height, Stage;
    StageIsHeight(theory, j, l);
    if j > 0 {
      StageIsHeight(theory, j - 1, l);
    }
  }

  /** Every depth a completed run records is the least height of a derivation tree for its literal. */
  lemma RecordedDepthIsLeastHeight(sha: Digest, theory: Theory, limits: Limits, s: SaturationState, l: CanonicalLiteral)
    requires WellFormed(theory) && IsSaturation(sha, theory, limits, s) && l in s.closure
    ensures exists t :: Proves(theory, t, l) && Height(t) == s.closure[l].depth
    ensures forall t :: Proves(theory, t, l) ==> Height(t) >= s.closure[l].depth
    ensures s.closure[l].depth <= s.telemetry.rounds
  {
    hide Proves, Height, Stage, ChosenAt, EntersAt;
    var k := s.telemetry.rounds;
    LayeredKeys(sha, theory, s.closure, k);
    var e := EntryRound(sha, theory, s.closure, k, k, l);
    EntryIsLeastHeight(theory, e, l);
  }

  // ---- Rounds ----

  /** Every productive round uses up a literal of the Herbrand base. */
  lemma RoundsWithinBase(sha: Digest, theory: Theory, limits: Limits, s: SaturationState)
    requires WellFormed(theory) && IsSaturation(sha, theory, limits, s)
    ensures |FactSet(theory)| + s.telemetry.rounds <= |ModelOf(theory)| <= |HerbrandBase(theory)|
  {
    hide Stage, HerbrandBase, Layered, FactSet;
    var k := s.telemetry.rounds;
    forall j | 0 <= j < k ensures Stage(theory, j + 1) != Stage(theory, j) {
      assert StageGrowsAt(theory, j);
    }
    RoundsBounded(theory, k);
    LayeredKeys(sha, theory, s.closure, k);
  }

  // ---- The size of the Herbrand base ----

  function Power(b: nat, n: nat): nat {
    if n == 0 then 1 else b * Power(b, n - 1)
  }

  /** Both signs of every tuple of entities, for every predicate. */
  function BaseSize(predicates: seq<PredicateDefinition>, entities: nat): nat {
    if predicates == [] then 0
    else BaseSize(predicates[..|predicates| - 1], entities) + 2 * Power(entities, predicates[|predicates| - 1].arity)
  }

  ghost function Extended(entities: set<string>, tails: set<seq<string>>): set<seq<string>> {
    set e, rest | e in entities && rest in tails :: [e] + rest
  }

  lemma {:induction false} ExtendedSize(entities: set<string>, tails: set<seq<string>>)
    ensures |Extended(entities, tails)| <= |entities| * |tails|
    decreases |entities|
  {
    if entities == {} {
      assert Extended(entities, tails) == {};
    } else {
      var e := Pick(entities);
      var others := entities - {e};
      ExtendedSize(others, tails);
      var mine := set rest | rest in tails :: [e] + rest;
      MappedSize(e, tails);
      assert Extended(entities, tails) == Extended(others, tails) + mine;
      assert |Extended(entities, tails)| <= |Extended(others, tails)| + |mine|;
      assert |entities| * |tails| == |others| * |tails| + |tails|;
    }
  }

  lemma {:induction false} MappedSize(e: string, tails: set<seq<string>>)
    ensures |set rest | rest in tails :: [e] + rest| <= |tails|
    decreases |tails|
  {
    var mine := set rest | rest in tails :: [e] + rest;
    if tails == {} {
      assert mine == {};
    } else {
      var one := Pick(tails);
      MappedSize(e, tails - {one});
      assert mine == (set rest | rest in tails - {one} :: [e] + rest) + {[e] + one};
    }
  }

  lemma {:induction false} TuplesSize(entities: set<string>, arity: nat)
    ensures |Tuples(entities, arity)| <= Power(|entities|, arity)
  {
    if arity > 0 {
      TuplesSize(entities, arity - 1);
      ExtendedSize(entities, Tuples(entities, arity - 1));
      assert Tuples(entities, arity) == Extended(entities, Tuples(entities, arity - 1));
      Scaled(|entities|, |Tuples(entities, arity - 1)|, Power(|entities|, arity - 1));
    }
  }

  lemma Scaled(a: nat, b: nat, c: nat)
    requires b <= c
    ensures a * b <= a * c
  {
  }

  ghost function Signed(name: string, tuples: set<seq<string>>, sign: bool): set<CanonicalLiteral> {
    set args | args in tuples :: CanonicalLiteral(name, args, sign)
  }

  lemma {:induction false} SignedSize(name: string, tuples: set<seq<string>>, sign: bool)
    ensures |Signed(name, tuples, sign)| <= |tuples|
    decreases |tuples|
  {
    if tuples == {} {
      assert Signed(name, tuples, sign) == {};
    } else {
      var one := Pick(tuples);
      SignedSize(name, tuples - {one}, sign);
      assert Signed(name, tuples, sign) == Signed(name, tuples - {one}, sign) + {CanonicalLiteral(name, one, sign)};
    }
  }

  ghost function BaseOf(predicates: seq<PredicateDefinition>, entities: set<string>): set<CanonicalLiteral> {
    set p, args, sign | p in predicates && args in Tuples(entities, p.arity) && sign in {true, false}
      :: CanonicalLiteral(p.name, args, sign)
  }

  lemma {:induction false} BaseOfSize(predicates: seq<PredicateDefinition>, entities: set<string>)
    ensures |BaseOf(predicates, entities)| <= BaseSize(predicates, |entities|)
  {
    hide Tuples, Power;
    if predicates == [] {
      assert BaseOf(predicates, entities) == {};
    } else {
      var n := |predicates| - 1;
      var last, before := predicates[n], predicates[..n];
      BaseOfSize(before, entities);
      var tuples := Tuples(entities, last.arity);
      TuplesSize(entities, last.arity);
      SignedSize(last.name, tuples, true);
      SignedSize(last.name, tuples, false);
      BaseOfSplit(before, last, entities);
      assert predicates == before + [last];
    }
  }

  lemma BaseOfSplit(before: seq<PredicateDefinition>, last: PredicateDefinition, entities: set<string>)
    ensures BaseOf(before + [last], entities) ==
              BaseOf(before, entities) + Signed(last.name, Tuples(entities, last.arity), true)
              + Signed(last.name, Tuples(entities, last.arity), false)
  {
    hide Tuples;
    var whole := before + [last];
    forall l | l in BaseOf(whole, entities)
      ensures l in BaseOf(before, entities) || l in Signed(last.name, Tuples(entities, last.arity), l.negated)
    {
      var p :| p in whole && l.pred == p.name && l.arguments in Tuples(entities, p.arity);
      assert p in before || p == last;
    }
    forall l | l in BaseOf(before, entities) ensures l in BaseOf(whole, entities) {
      var p :| p in before && l.pred == p.name && l.arguments in Tuples(entities, p.arity);
      assert p in whole;
    }
    assert last in whole;
  }

  /** The rounds of a run are bounded by the declared predicates, their arities and the declared entities. */
  lemma RoundsBoundedByDeclarations(sha: Digest, theory: Theory, limits: Limits, s: SaturationState)
    requires WellFormed(theory) && IsSaturation(sha, theory, limits, s)
    ensures |FactSet(theory)| + s.telemetry.rounds <= BaseSize(theory.predicates, |EntityIds(theory)|)
  {
    hide IsSaturation, FactSet, ModelOf, BaseOf, BaseSize, WellFormed;
    RoundsWithinBase(sha, theory, limits, s);
    BaseOfSize(theory.predicates, EntityIds(theory));
    SameBase(theory);
  }

  lemma SameBase(theory: Theory)
    ensures HerbrandBase(theory) == BaseOf(theory.predicates, EntityIds(theory))
  {
  }
}
