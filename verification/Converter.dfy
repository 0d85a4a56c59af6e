/** From a parsed candidate to a theory, in two phases: the theory body first, the query later
    (backend/src/verilogic_ns_api/semantic_parsing/converter.py), and the validation around it
    (backend/src/verilogic_ns_api/validation_correction/feedback.py). */
module Converter {
  import opened Keys
  import opened Logic

  /** A literal as the parser returns it, without a source id. */
  datatype CandidateLiteral = CandidateLiteral(pred: string, arguments: seq<Term>, negated: bool)

  datatype CandidateFact = CandidateFact(pred: string, arguments: seq<string>, negated: bool)

  datatype Statement =
    | FactStatement(sourceId: string, fact: CandidateFact)
    | RuleStatement(sourceId: string, variables: seq<VariableDefinition>, body: seq<CandidateLiteral>,
      head: CandidateLiteral)

  /** A source sentence: the id shown to the parser, the caller's id, the text and the expected kind. */
  datatype Binding = Binding(neutralId: string, originalId: string, text: string, kind: string)

  datatype ConversionError = SourceCoverage | Semantic

  datatype Body = Body(theoryId: string, sources: seq<SourceStatement>, entities: seq<Entity>,
                       predicates: seq<PredicateDefinition>, facts: seq<GroundLiteral>, rules: seq<Rule>)

  const NEUTRAL_ID := (b: Binding) => b.neutralId

  function KindOf(s: Statement): string {
    if s.FactStatement? then "fact" else "rule"
  }

  function Pattern(f: CandidateFact): CandidateLiteral {
    CandidateLiteral(f.pred, seq(|f.arguments|, i requires 0 <= i < |f.arguments| => EntityTerm(f.arguments[i])),
      f.negated)
  }

  function Mentioned(s: Statement): seq<CandidateLiteral> {
    if s.FactStatement? then [Pattern(s.fact)] else s.body + [s.head]
  }

  function AllMentioned(ss: seq<Statement>): seq<CandidateLiteral> {
    if ss == [] then [] else AllMentioned(ss[..|ss| - 1]) + Mentioned(ss[|ss| - 1])
  }

  /** What the schema of the candidate already guarantees. */
  ghost predicate SchemaOk(ss: seq<Statement>) {
    && (forall l :: l in AllMentioned(ss) ==> 1 <= |l.arguments| <= 2)
    && (forall s :: s in ss && s.RuleStatement? ==> s.body != [])
  }

  // ---- Coverage and arities ----

  function Expected(bindings: seq<Binding>): map<string, Binding> {
    Lookup(bindings, NEUTRAL_ID)
  }

  function Observed(ss: seq<Statement>): seq<string> {
    seq(|ss|, i requires 0 <= i < |ss| => ss[i].sourceId)
  }

  /** Every neutral source is covered exactly once. */
  ghost predicate Covered(ss: seq<Statement>, bindings: seq<Binding>) {
    NoDuplicates(Observed(ss)) && forall id :: id in Observed(ss) <==> id in Expected(bindings)
  }

  ghost predicate KindsMatch(ss: seq<Statement>, bindings: seq<Binding>) {
    forall s :: s in ss && s.sourceId in Expected(bindings) ==> KindOf(s) == Expected(bindings)[s.sourceId].kind
  }

  ghost predicate AritiesAgree(ls: seq<CandidateLiteral>) {
    forall i, j :: 0 <= i < |ls| && 0 <= j < |ls| && ls[i].pred == ls[j].pred ==> |ls[i].arguments| == |ls[j].arguments|
  }

  /** The arity dictionary; the first mention of a predicate decides. */
  function Arities(ls: seq<CandidateLiteral>): map<string, nat> {
    if ls == [] then map[]
    else
      var before, last := Arities(ls[..|ls| - 1]), ls[|ls| - 1];
      if last.pred in before then before else before[last.pred := |last.arguments|]
  }

  function EntitiesIn(ls: seq<CandidateLiteral>): set<string> {
    set l, t | l in ls && t in l.arguments && t.EntityTerm? :: t.id
  }

  lemma {:induction false} AritiesExact(ls: seq<CandidateLiteral>)
    ensures forall p :: p in Arities(ls) ==> exists l :: l in ls && l.pred == p && |l.arguments| == Arities(ls)[p]
    ensures forall l :: l in ls ==> l.pred in Arities(ls)
  {
    if ls != [] {
      var n := |ls| - 1;
      AritiesExact(ls[..n]);
      assert ls == ls[..n] + [ls[n]];
      forall p | p in Arities(ls) ensures exists l :: l in ls && l.pred == p && |l.arguments| == Arities(ls)[p] {
        if p in Arities(ls[..n]) {
          var l :| l in ls[..n] && l.pred == p && |l.arguments| == Arities(ls[..n])[p];
          assert l in ls;
        } else {
          assert ls[n] in ls;
        }
      }
    }
  }

  /** With agreeing arities the dictionary holds the arity of every literal. */
  lemma AritiesAre(ls: seq<CandidateLiteral>, l: CandidateLiteral)
    requires AritiesAgree(ls) && l in ls
    ensures l.pred in Arities(ls) && Arities(ls)[l.pred] == |l.arguments|
  {
    AritiesExact(ls);
    var m :| m in ls && m.pred == l.pred && |m.arguments| == Arities(ls)[l.pred];
    var i :| 0 <= i < |ls| && ls[i] == l;
    var j :| 0 <= j < |ls| && ls[j] == m;
  }

  lemma AritiesAgreePrefix(ls: seq<CandidateLiteral>, ms: seq<CandidateLiteral>)
    requires AritiesAgree(ls + ms)
    ensures AritiesAgree(ls)
  {
    forall i, j | 0 <= i < |ls| && 0 <= j < |ls| && ls[i].pred == ls[j].pred
      ensures |ls[i].arguments| == |ls[j].arguments|
    {
      assert (ls + ms)[i] == ls[i] && (ls + ms)[j] == ls[j];
    }
  }

  lemma AritiesAgreeNext(ls: seq<CandidateLiteral>, l: CandidateLiteral)
    requires AritiesAgree(ls)
    ensures AritiesAgree(ls + [l]) <==> (l.pred in Arities(ls) ==> Arities(ls)[l.pred] == |l.arguments|)
  {
    var all := ls + [l];
    AritiesExact(ls);
    if AritiesAgree(all) {
      assert l in all;
      if l.pred in Arities(ls) {
        var m :| m in ls && m.pred == l.pred && |m.arguments| == Arities(ls)[l.pred];
        var j :| 0 <= j < |ls| && ls[j] == m;
        assert all[j] == m && all[|ls|] == l;
      }
    } else {
      var i, j :| 0 <= i < |all| && 0 <= j < |all| && all[i].pred == all[j].pred
        && |all[i].arguments| != |all[j].arguments|;
      var k := if i < |ls| then i else j;
      assert k < |ls|;
      assert ls[k] in ls;
      AritiesAre(ls, ls[k]);
    }
  }

  // ---- The converted body ----

  function ToLiteral(l: CandidateLiteral, sourceId: string): RuleLiteral {
    RuleLiteral(l.pred, l.arguments, l.negated, sourceId)
  }

  function ToLiterals(ls: seq<CandidateLiteral>, sourceId: string): seq<RuleLiteral> {
    seq(|ls|, i requires 0 <= i < |ls| => ToLiteral(ls[i], sourceId))
  }

  function ToFact(f: CandidateFact, sourceId: string): GroundLiteral {
    GroundLiteral(f.pred, f.arguments, f.negated, sourceId)
  }

  function OriginalId(id: string, expected: map<string, Binding>): string {
    if id in expected then expected[id].originalId else ""
  }

  function ToRule(s: Statement, original: string): Rule
    requires s.RuleStatement?
  {
    Rule(original, s.variables, ToLiterals(s.body, original), ToLiteral(s.head, original), original)
  }

  function FactsOf(ss: seq<Statement>, expected: map<string, Binding>): seq<GroundLiteral> {
    if ss == [] then []
    else
      var s := ss[|ss| - 1];
      FactsOf(ss[..|ss| - 1], expected) +
        if s.FactStatement? then [ToFact(s.fact, OriginalId(s.sourceId, expected))] else []
  }

  function RulesOf(ss: seq<Statement>, expected: map<string, Binding>): seq<Rule> {
    if ss == [] then []
    else
      var s := ss[|ss| - 1];
      RulesOf(ss[..|ss| - 1], expected) + if s.RuleStatement? then [ToRule(s, OriginalId(s.sourceId, expected))] else []
  }

  function SourcesOf(bindings: seq<Binding>): seq<SourceStatement> {
    seq(|bindings|, i requires 0 <= i < |bindings| => SourceStatement(bindings[i].originalId, bindings[i].text))
  }

  function EntityList(ids: set<string>): seq<Entity> {
    var sorted := SortedStrings(ids);
    seq(|sorted|, i requires 0 <= i < |sorted| => Entity(sorted[i], sorted[i], None))
  }

  function PredicateList(arities: map<string, nat>): seq<PredicateDefinition> {
    var sorted := SortedStrings(arities.Keys);
    seq(|sorted|, i requires 0 <= i < |sorted| =>
      assert sorted[i] in sorted;
      PredicateDefinition(sorted[i], arities[sorted[i]], None))
  }

  lemma EntityListExact(ids: set<string>)
    ensures DistinctIds(EntityList(ids), ENTITY_ID)
    ensures forall e :: e in EntityList(ids) <==> e == Entity(e.id, e.id, None) && e.id in ids
  {
    var sorted, list := SortedStrings(ids), EntityList(ids);
    StrictlySortedDistinct(sorted, STRING_KEY);
    forall e: Entity | e == Entity(e.id, e.id, None) && e.id in ids ensures e in list {
      var i :| 0 <= i < |sorted| && sorted[i] == e.id;
      assert list[i] == e;
    }
    forall e | e in list ensures e == Entity(e.id, e.id, None) && e.id in ids {
      var i :| 0 <= i < |list| && list[i] == e;
      assert sorted[i] in sorted;
    }
  }

  lemma PredicateListExact(arities: map<string, nat>)
    ensures DistinctIds(PredicateList(arities), PREDICATE_NAME)
    ensures forall p :: p in PredicateList(arities) <==>
              p.name in arities && p == PredicateDefinition(p.name, arities[p.name], None)
  {
    var sorted, list := SortedStrings(arities.Keys), PredicateList(arities);
    StrictlySortedDistinct(sorted, STRING_KEY);
    forall p: PredicateDefinition | p.name in arities && p == PredicateDefinition(p.name, arities[p.name], None)
      ensures p in list
    {
      var i :| 0 <= i < |sorted| && sorted[i] == p.name;
      assert list[i] == p;
    }
    forall p | p in list ensures p.name in arities && p == PredicateDefinition(p.name, arities[p.name], None) {
      var i :| 0 <= i < |list| && list[i] == p;
      assert sorted[i] in sorted;
    }
  }

  function BodyOf(ss: seq<Statement>, bindings: seq<Binding>, theoryId: string): Body {
    Body(theoryId, SourcesOf(bindings), EntityList(EntitiesIn(AllMentioned(ss))),
      PredicateList(Arities(AllMentioned(ss))),
         FactsOf(ss, Expected(bindings)), RulesOf(ss, Expected(bindings)))
  }

  /** The theory `_validate_body` constructs around a body. */
  function Probe(body: Body): Theory {
    Theory(body.theoryId, body.sources + [SourceStatement("validation_query", "Validation probe.")],
           body.entities + [Entity("validation_entity", "validation_entity", None)],
           body.predicates + [PredicateDefinition("validation_probe", 1, None)],
           body.facts, body.rules,
           GroundLiteral("validation_probe", ["validation_entity"], false, "validation_query"))
  }

  function BodyArities(body: Body): map<string, nat> {
    var definitions := Lookup(body.predicates, PREDICATE_NAME);
    map name | name in definitions :: definitions[name].arity
  }

  function BodyEntities(body: Body): set<string> {
    set e | e in body.entities :: e.id
  }

  function QueryEntities(query: CandidateFact): set<string> {
    set a | a in query.arguments
  }

  function WithQuery(arities: map<string, nat>, query: CandidateFact): map<string, nat> {
    if query.pred in arities then arities else arities[query.pred := |query.arguments|]
  }

  /** The theory `combine_theory_and_query` constructs. */
  function Combined(body: Body, query: CandidateFact, sourceId: string, text: string): Theory {
    Theory(body.theoryId, body.sources + [SourceStatement(sourceId, text)],
           EntityList(BodyEntities(body) + QueryEntities(query)),
           PredicateList(WithQuery(BodyArities(body), query)), body.facts, body.rules, ToFact(query, sourceId))
  }

  ghost predicate QueryAgrees(body: Body, query: CandidateFact) {
    query.pred in BodyArities(body) ==> BodyArities(body)[query.pred] == |query.arguments|
  }

  ghost predicate BodySchema(body: Body) {
    && (forall p :: p in body.predicates ==> 1 <= p.arity <= 2 && p.argumentTypes.None?)
    && (forall r :: r in body.rules ==> r.body != [])
  }

  // ---- The methods ----

  /** `register` for each literal of a statement. */
  method RegisterAll(ls: seq<CandidateLiteral>, arities: map<string, nat>, ghost before: seq<CandidateLiteral>)
    returns (r: Option<map<string, nat>>)
    requires AritiesAgree(before) && arities == Arities(before)
    ensures r.Some? <==> AritiesAgree(before + ls)
    ensures r.Some? ==> r.value == Arities(before + ls)
  {
    hide AritiesAgree;
    var result := arities;
    assert before + ls[..0] == before;
    for n := 0 to |ls|
      invariant AritiesAgree(before + ls[..n]) && result == Arities(before + ls[..n])
    {
      ghost var seen := before + ls[..n];
      assert before + ls[..n + 1] == seen + [ls[n]];
      AritiesAgreeNext(seen, ls[n]);
      if ls[n].pred in result && result[ls[n].pred] != |ls[n].arguments| {
        assert before + ls == (seen + [ls[n]]) + ls[n + 1..];
        if AritiesAgree(before + ls) {
          AritiesAgreePrefix(seen + [ls[n]], ls[n + 1..]);
        }
        return None;
      }
      assert (seen + [ls[n]])[..|seen|] == seen;
      if ls[n].pred !in result {
        result := result[ls[n].pred := |ls[n].arguments|];
      }
    }
    assert ls[..|ls|] == ls;
    return Some(result);
  }

  lemma {:induction false} AllMentionedPrefix(ss: seq<Statement>, n: nat)
    requires n <= |ss| && AritiesAgree(AllMentioned(ss))
    ensures AritiesAgree(AllMentioned(ss[..n]))
    decreases |ss| - n
  {
    hide AritiesAgree;
    if n == |ss| {
      assert ss[..n] == ss;
    } else {
      AllMentionedPrefix(ss, n + 1);
      assert ss[..n + 1][..n] == ss[..n];
      AritiesAgreePrefix(AllMentioned(ss[..n]), Mentioned(ss[n]));
    }
  }

  lemma EntitiesAppend(ls: seq<CandidateLiteral>, ms: seq<CandidateLiteral>)
    ensures EntitiesIn(ls + ms) == EntitiesIn(ls) + EntitiesIn(ms)
  {
    forall id | id in EntitiesIn(ls + ms) ensures id in EntitiesIn(ls) + EntitiesIn(ms) {
      var l, t :| l in ls + ms && t in l.arguments && t.EntityTerm? && t.id == id;
      assert l in ls || l in ms;
    }
    forall id | id in EntitiesIn(ls) + EntitiesIn(ms) ensures id in EntitiesIn(ls + ms) {
      var l: CandidateLiteral, t :| (l in ls || l in ms) && t in l.arguments && t.EntityTerm? && t.id == id;
      assert l in ls + ms;
    }
  }

  /** `convert_theory_candidate`. */
  method ConvertTheoryCandidate(ss: seq<Statement>, bindings: seq<Binding>, theoryId: string)
    returns (r: Result<Body, ConversionError>)
    requires SchemaOk(ss)
    ensures r.Ok? <==> Covered(ss, bindings) && KindsMatch(ss, bindings) && AritiesAgree(AllMentioned(ss))
                       && ValidTheory(Probe(BodyOf(ss, bindings, theoryId)))
    ensures r.Ok? ==> r.value == BodyOf(ss, bindings, theoryId)
    ensures r == Err(SourceCoverage) ==> !(Covered(ss, bindings) && KindsMatch(ss, bindings))
    ensures !Covered(ss, bindings) ==> r == Err(SourceCoverage)
  {
    hide ValidTheory, AritiesAgree, SchemaOk, NoDuplicates, Covered, Arities, EntitiesIn, Mentioned, AllMentioned,
      FactsOf, RulesOf, ToRule, ToFact, EntityList, PredicateList, KindsMatch, Expected;
    var expected := Expected(bindings);
    var covered := CheckCoverage(ss, bindings);
    if !covered {
      return Err(SourceCoverage);
    }
    CoveredIds(ss, bindings);
    var facts: seq<GroundLiteral>, rules: seq<Rule> := [], [];
    var entityIds: set<string> := {};
    var arities: map<string, nat> := map[];
    NothingMentioned();
    assert ss[..0] == [];
    for n := 0 to |ss|
      invariant AritiesAgree(AllMentioned(ss[..n])) && arities == Arities(AllMentioned(ss[..n]))
      invariant entityIds == EntitiesIn(AllMentioned(ss[..n]))
      invariant facts == FactsOf(ss[..n], expected) && rules == RulesOf(ss[..n], expected)
      invariant forall k :: 0 <= k < n ==> KindOf(ss[k]) == expected[ss[k].sourceId].kind
    {
      var statement := ss[n];
      assert statement in ss;
      NextStatement(ss, n, expected);
      if KindOf(statement) != expected[statement.sourceId].kind {
        KindDiffers(ss, bindings, statement);
        return Err(SourceCoverage);
      }
      var original := expected[statement.sourceId].originalId;
      var registered := RegisterAll(Mentioned(statement), arities, AllMentioned(ss[..n]));
      if registered.None? {
        if AritiesAgree(AllMentioned(ss)) {
          AllMentionedPrefix(ss, n + 1);
        }
        return Err(Semantic);
      }
      arities := registered.value;
      EntitiesAppend(AllMentioned(ss[..n]), Mentioned(statement));
      entityIds := entityIds + EntitiesIn(Mentioned(statement));
      if statement.FactStatement? {
        facts := facts + [ToFact(statement.fact, original)];
      } else {
        rules := rules + [ToRule(statement, original)];
      }
    }
    assert ss[..|ss|] == ss;
    AllKindsMatch(ss, bindings);
    var body := Body(theoryId, SourcesOf(bindings), EntityList(entityIds), PredicateList(arities), facts, rules);
    assert body == BodyOf(ss, bindings, theoryId);
    ConvertedSchema(ss, bindings, theoryId);
    ProbeSchema(body);
    var valid := ValidateSemantics(Probe(body));
    if !valid {
      return Err(Semantic);
    }
    return Ok(body);
  }

  lemma NextStatement(ss: seq<Statement>, n: nat, expected: map<string, Binding>)
    requires n < |ss|
    ensures AllMentioned(ss[..n + 1]) == AllMentioned(ss[..n]) + Mentioned(ss[n])
    ensures FactsOf(ss[..n + 1], expected) == FactsOf(ss[..n], expected) +
              if ss[n].FactStatement? then [ToFact(ss[n].fact, OriginalId(ss[n].sourceId, expected))] else []
    ensures RulesOf(ss[..n + 1], expected) == RulesOf(ss[..n], expected) +
              if ss[n].RuleStatement? then [ToRule(ss[n], OriginalId(ss[n].sourceId, expected))] else []
  {
    hide Mentioned, ToRule, ToFact;
    assert ss[..n + 1][..n] == ss[..n];
  }

  lemma NothingMentioned()
    ensures AritiesAgree(AllMentioned([])) && Arities(AllMentioned([])) == map[] && EntitiesIn(AllMentioned([])) == {}
    ensures forall expected :: FactsOf([], expected) == [] && RulesOf([], expected) == []
  {
  }

  /** The duplicate and set comparisons at the start. */
  method CheckCoverage(ss: seq<Statement>, bindings: seq<Binding>) returns (ok: bool)
    ensures ok <==> Covered(ss, bindings)
  {
    var observed, expected := Observed(ss), Expected(bindings);
    var ids := set id | id in observed;
    if |ids| == |observed| {
      DistinctWhenCounted(observed);
    }
    if NoDuplicates(observed) {
      NoDuplicatesSize(observed);
    }
    return |ids| == |observed| && ids == expected.Keys;
  }

  lemma {:induction false} DistinctWhenCounted(ids: seq<string>)
    requires |set id | id in ids| == |ids|
    ensures NoDuplicates(ids)
  {
    if ids != [] {
      var n := |ids| - 1;
      var front := set id | id in ids[..n];
      assert ids == ids[..n] + [ids[n]];
      assert (set id | id in ids) == front + {ids[n]};
      SetNoLarger(ids[..n]);
      assert ids[n] !in front;
      DistinctWhenCounted(ids[..n]);
    }
  }

  lemma {:induction false} SetNoLarger(ids: seq<string>)
    ensures |set id | id in ids| <= |ids|
  {
    if ids != [] {
      var n := |ids| - 1;
      assert ids == ids[..n] + [ids[n]];
      assert (set id | id in ids) == (set id | id in ids[..n]) + {ids[n]};
      SetNoLarger(ids[..n]);
    }
  }

  lemma CoveredIds(ss: seq<Statement>, bindings: seq<Binding>)
    requires Covered(ss, bindings)
    ensures forall s :: s in ss ==> s.sourceId in Expected(bindings)
  {
    forall s | s in ss ensures s.sourceId in Expected(bindings) {
      var i :| 0 <= i < |ss| && ss[i] == s;
      assert Observed(ss)[i] == s.sourceId;
      assert s.sourceId in Observed(ss);
    }
  }

  lemma KindDiffers(ss: seq<Statement>, bindings: seq<Binding>, s: Statement)
    requires s in ss && s.sourceId in Expected(bindings) && KindOf(s) != Expected(bindings)[s.sourceId].kind
    ensures !KindsMatch(ss, bindings)
  {
  }

  lemma AllKindsMatch(ss: seq<Statement>, bindings: seq<Binding>)
    requires forall k :: 0 <= k < |ss| ==>
        ss[k].sourceId in Expected(bindings) && KindOf(ss[k]) == Expected(bindings)[ss[k].sourceId].kind
    ensures KindsMatch(ss, bindings)
  {
  }

  lemma {:induction false} RulesOfExact(ss: seq<Statement>, expected: map<string, Binding>, r: Rule)
    requires r in RulesOf(ss, expected)
    ensures exists s :: s in ss && s.RuleStatement? && r == ToRule(s, OriginalId(s.sourceId, expected))
  {
    var n := |ss| - 1;
    if r in RulesOf(ss[..n], expected) {
      RulesOfExact(ss[..n], expected, r);
      var s :| s in ss[..n] && s.RuleStatement? && r == ToRule(s, OriginalId(s.sourceId, expected));
      assert s in ss;
    } else {
      assert ss[n] in ss;
    }
  }

  lemma {:induction false} FactsOfExact(ss: seq<Statement>, expected: map<string, Binding>, f: GroundLiteral)
    requires f in FactsOf(ss, expected)
    ensures exists s :: s in ss && s.FactStatement? && f == ToFact(s.fact, OriginalId(s.sourceId, expected))
  {
    var n := |ss| - 1;
    if f in FactsOf(ss[..n], expected) {
      FactsOfExact(ss[..n], expected, f);
      var s :| s in ss[..n] && s.FactStatement? && f == ToFact(s.fact, OriginalId(s.sourceId, expected));
      assert s in ss;
    } else {
      assert ss[n] in ss;
    }
  }

  lemma {:induction false} MentionedIn(ss: seq<Statement>, s: Statement, l: CandidateLiteral)
    requires s in ss && l in Mentioned(s)
    ensures l in AllMentioned(ss)
  {
    hide Mentioned;
    var n := |ss| - 1;
    assert ss == ss[..n] + [ss[n]];
    if s in ss[..n] {
      MentionedIn(ss[..n], s, l);
    }
  }

  lemma ConvertedSchema(ss: seq<Statement>, bindings: seq<Binding>, theoryId: string)
    requires SchemaOk(ss)
    ensures BodySchema(BodyOf(ss, bindings, theoryId))
  {
    var body, ls := BodyOf(ss, bindings, theoryId), AllMentioned(ss);
    AritiesExact(ls);
    PredicateListExact(Arities(ls));
    forall p | p in body.predicates ensures 1 <= p.arity <= 2 && p.argumentTypes.None? {
      var l :| l in ls && l.pred == p.name && |l.arguments| == Arities(ls)[p.name];
    }
    forall r | r in body.rules ensures r.body != [] {
      RulesOfExact(ss, Expected(bindings), r);
    }
  }

  lemma ProbeSchema(body: Body)
    requires BodySchema(body)
    ensures SchemaValid(Probe(body))
  {
  }

  /** `combine_theory_and_query`. */
  method CombineTheoryAndQuery(body: Body, query: CandidateFact, sourceId: string, text: string)
    returns (r: Result<Theory, ConversionError>)
    requires BodySchema(body) && 1 <= |query.arguments| <= 2
    ensures r.Ok? <==> QueryAgrees(body, query) && ValidTheory(Combined(body, query, sourceId, text))
    ensures r.Ok? ==> r.value == Combined(body, query, sourceId, text)
    ensures r.Err? ==> r.error == Semantic
  {
    hide ValidTheory, SchemaValid;
    var arities := BodyArities(body);
    if query.pred in arities && arities[query.pred] != |query.arguments| {
      return Err(Semantic);
    }
    CombinedSchema(body, query, sourceId, text);
    var theory := Combined(body, query, sourceId, text);
    var valid := ValidateSemantics(theory);
    if !valid {
      return Err(Semantic);
    }
    return Ok(theory);
  }

  lemma CombinedSchema(body: Body, query: CandidateFact, sourceId: string, text: string)
    requires BodySchema(body) && 1 <= |query.arguments| <= 2
    ensures SchemaValid(Combined(body, query, sourceId, text))
  {
    hide PredicateList, EntityList, WithQuery;
    var arities := WithQuery(BodyArities(body), query);
    ArityBounds(body, query);
    PredicateListExact(arities);
    forall p | p in Combined(body, query, sourceId, text).predicates
      ensures 1 <= p.arity <= 2 && p.argumentTypes.None?
    {
      assert p.name in arities && p == PredicateDefinition(p.name, arities[p.name], None);
    }
  }

  lemma ArityBounds(body: Body, query: CandidateFact)
    requires BodySchema(body) && 1 <= |query.arguments| <= 2
    ensures forall n :: n in WithQuery(BodyArities(body), query) ==> 1 <= WithQuery(BodyArities(body), query)[n] <= 2
  {
    LookupKeys(body.predicates, PREDICATE_NAME);
  }

  // ---- When a theory around a converted body is valid ----

  /** The theory declares everything the literal mentions, at its arity and without argument types. */
  ghost predicate DeclaredIn(t: Theory, l: RuleLiteral) {
    && (exists p :: p in t.predicates && p == PredicateDefinition(l.pred, |l.arguments|, None))
    && (exists s :: s in t.sources && s.id == l.sourceId)
    && forall a :: a in l.arguments && a.EntityTerm? ==> Entity(a.id, a.id, None) in t.entities
  }

  ghost predicate Distinct(t: Theory) {
    DistinctIds(t.sources, SOURCE_ID) && DistinctIds(t.entities, ENTITY_ID) && DistinctIds(t.predicates, PREDICATE_NAME)
  }

  ghost predicate VariablesDeclared(l: RuleLiteral, vs: map<string, VariableDefinition>) {
    forall a :: a in l.arguments && a.VariableTerm? ==> a.name in vs
  }

  /** A literal whose names are declared is valid exactly when its variables are. */
  lemma DeclaredLiteralValid(t: Theory, l: RuleLiteral, vs: map<string, VariableDefinition>)
    requires Distinct(t) && DeclaredIn(t, l)
    ensures LiteralValid(l, Declared(t), vs) <==> VariablesDeclared(l, vs)
  {
    LookupDistinct(t.predicates, PREDICATE_NAME);
    LookupDistinct(t.entities, ENTITY_ID);
    LookupDistinct(t.sources, SOURCE_ID);
    var d := Declared(t);
    var p :| p in t.predicates && p == PredicateDefinition(l.pred, |l.arguments|, None);
    assert d.predicates[l.pred] == p by {
      assert PREDICATE_NAME(p) == l.pred;
    }
    var s :| s in t.sources && s.id == l.sourceId;
    assert l.sourceId in d.sources by {
      assert SOURCE_ID(s) == l.sourceId;
    }
    forall a | a in l.arguments && a.EntityTerm? ensures a.id in d.entities {
      assert ENTITY_ID(Entity(a.id, a.id, None)) == a.id;
    }
    assert HasFault(l, d, vs, UndeclaredVariable) <==> !VariablesDeclared(l, vs);
    forall fault | fault != UndeclaredVariable ensures !HasFault(l, d, vs, fault) {
      match fault
      case UndeclaredPredicate =>
      case WrongArity =>
      case UnknownSource =>
      case UndeclaredEntity =>
      case TypeMismatch =>
    }
  }

  /** What is left to check of the rules once their names are declared. */
  ghost predicate RulesSound(rules: seq<Rule>) {
    && DistinctIds(rules, RULE_ID)
    && forall r :: r in rules ==> RuleSound(r)
  }

  ghost predicate RuleSound(r: Rule) {
    && DistinctIds(r.variables, VARIABLE_NAME)
    && (forall b :: b in r.body ==> VariablesDeclared(b, Lookup(r.variables, VARIABLE_NAME)))
    && VariablesDeclared(r.head, Lookup(r.variables, VARIABLE_NAME))
    && Vars(r.head) <= BodyVars(r.body)
  }

  /** Everything the facts, the rules and the query mention is declared. */
  ghost predicate Closed(t: Theory) {
    && (forall f :: f in t.facts ==> DeclaredIn(t, AsPattern(f)))
    && DeclaredIn(t, AsPattern(t.query))
    && (forall r :: r in t.rules ==> RuleClosed(t, r))
  }

  ghost predicate RuleClosed(t: Theory, r: Rule) {
    DeclaredIn(t, r.head) && r.head.sourceId == r.sourceId && forall b :: b in r.body ==> DeclaredIn(t, b)
  }

  lemma ClosedRuleValid(t: Theory, r: Rule)
    requires Distinct(t) && RuleClosed(t, r)
    ensures RuleValid(r, Declared(t)) <==> RuleSound(r)
  {
    hide Distinct, LiteralValid, VariablesDeclared;
    var vs := Lookup(r.variables, VARIABLE_NAME);
    DeclaredLiteralValid(t, r.head, vs);
    forall b | b in r.body ensures LiteralValid(b, Declared(t), vs) <==> VariablesDeclared(b, vs) {
      DeclaredLiteralValid(t, b, vs);
    }
    SourceDeclared(t, r.head);
  }

  lemma SourceDeclared(t: Theory, l: RuleLiteral)
    requires DeclaredIn(t, l)
    ensures l.sourceId in Declared(t).sources
  {
    LookupKeys(t.sources, SOURCE_ID);
    var s :| s in t.sources && s.id == l.sourceId;
    assert SOURCE_ID(s) == l.sourceId;
  }

  lemma FactPatternValid(t: Theory, f: GroundLiteral)
    requires Distinct(t) && DeclaredIn(t, AsPattern(f))
    ensures LiteralValid(AsPattern(f), Declared(t), map[])
  {
    hide Distinct, DeclaredIn, LiteralValid;
    DeclaredLiteralValid(t, AsPattern(f), map[]);
  }

  /** A theory that declares what it mentions is valid exactly when no declaration repeats and its rules
      are sound. */
  lemma ClosedTheoryValid(t: Theory)
    requires Closed(t)
    ensures ValidTheory(t) <==> Distinct(t) && RulesSound(t.rules)
  {
    hide DeclaredIn, LiteralValid, RuleValid, RuleSound, RuleClosed;
    if Distinct(t) {
      forall f | f in t.facts ensures LiteralValid(AsPattern(f), Declared(t), map[]) {
        FactPatternValid(t, f);
      }
      FactPatternValid(t, t.query);
      forall r | r in t.rules ensures RuleValid(r, Declared(t)) <==> RuleSound(r) {
        ClosedRuleValid(t, r);
      }
    }
  }

  // ---- Converted bodies are closed ----

  /** The theory declares all sources, predicates and entities of the candidate. */
  ghost predicate Surrounds(t: Theory, ss: seq<Statement>, bindings: seq<Binding>) {
    && (forall s :: s in SourcesOf(bindings) ==> s in t.sources)
    && (forall n :: n in Arities(AllMentioned(ss)) ==>
      PredicateDefinition(n, Arities(AllMentioned(ss))[n], None) in t.predicates)
    && (forall id :: id in EntitiesIn(AllMentioned(ss)) ==> Entity(id, id, None) in t.entities)
  }

  lemma MentionDeclared(t: Theory, ss: seq<Statement>, bindings: seq<Binding>, s: Statement, l: CandidateLiteral,
                        p: RuleLiteral)
    requires Surrounds(t, ss, bindings) && AritiesAgree(AllMentioned(ss))
    requires s in ss && s.sourceId in Expected(bindings) && l in Mentioned(s)
    requires p == ToLiteral(l, OriginalId(s.sourceId, Expected(bindings)))
    ensures DeclaredIn(t, p)
  {
    hide AritiesAgree, Arities;
    var ls := AllMentioned(ss);
    MentionedIn(ss, s, l);
    AritiesAre(ls, l);
    LookupKeys(bindings, NEUTRAL_ID);
    var b := Expected(bindings)[s.sourceId];
    var i :| 0 <= i < |bindings| && bindings[i] == b;
    assert SourcesOf(bindings)[i].id == p.sourceId;
    assert SourcesOf(bindings)[i] in t.sources;
    forall a | a in p.arguments && a.EntityTerm? ensures Entity(a.id, a.id, None) in t.entities {
      assert a.id in EntitiesIn(ls);
    }
  }

  lemma ConvertedFactDeclared(t: Theory, ss: seq<Statement>, bindings: seq<Binding>, f: GroundLiteral)
    requires Surrounds(t, ss, bindings) && AritiesAgree(AllMentioned(ss)) && Covered(ss, bindings)
    requires f in FactsOf(ss, Expected(bindings))
    ensures DeclaredIn(t, AsPattern(f))
  {
    hide Surrounds, AritiesAgree, Covered, DeclaredIn;
    FactsOfExact(ss, Expected(bindings), f);
    CoveredIds(ss, bindings);
    var s :| s in ss && s.FactStatement? && f == ToFact(s.fact, OriginalId(s.sourceId, Expected(bindings)));
    assert Pattern(s.fact).arguments == AsPattern(f).arguments;
    MentionDeclared(t, ss, bindings, s, Pattern(s.fact), AsPattern(f));
  }

  lemma ConvertedRuleClosed(t: Theory, ss: seq<Statement>, bindings: seq<Binding>, r: Rule)
    requires Surrounds(t, ss, bindings) && AritiesAgree(AllMentioned(ss)) && Covered(ss, bindings)
    requires r in RulesOf(ss, Expected(bindings))
    ensures RuleClosed(t, r)
  {
    hide Surrounds, AritiesAgree, Covered, DeclaredIn;
    RulesOfExact(ss, Expected(bindings), r);
    CoveredIds(ss, bindings);
    var s :| s in ss && s.RuleStatement? && r == ToRule(s, OriginalId(s.sourceId, Expected(bindings)));
    assert s.head in Mentioned(s);
    MentionDeclared(t, ss, bindings, s, s.head, r.head);
    forall b | b in r.body ensures DeclaredIn(t, b) {
      var i :| 0 <= i < |r.body| && r.body[i] == b;
      assert s.body[i] in Mentioned(s);
      MentionDeclared(t, ss, bindings, s, s.body[i], b);
    }
  }

  /** A theory around a converted body, whose query is declared, is closed. */
  lemma ConvertedClosed(t: Theory, ss: seq<Statement>, bindings: seq<Binding>)
    requires Surrounds(t, ss, bindings) && AritiesAgree(AllMentioned(ss)) && Covered(ss, bindings)
    requires t.facts == FactsOf(ss, Expected(bindings)) && t.rules == RulesOf(ss, Expected(bindings))
    requires DeclaredIn(t, AsPattern(t.query))
    ensures Closed(t)
  {
    hide Surrounds, AritiesAgree, Covered, DeclaredIn, RuleClosed;
    forall f | f in t.facts ensures DeclaredIn(t, AsPattern(f)) {
      ConvertedFactDeclared(t, ss, bindings, f);
    }
    forall r | r in t.rules ensures RuleClosed(t, r) {
      ConvertedRuleClosed(t, ss, bindings, r);
    }
  }

  ghost predicate SourceIdsDistinct(bindings: seq<Binding>) {
    forall i, j :: 0 <= i < j < |bindings| ==> bindings[i].originalId != bindings[j].originalId
  }

  ghost predicate NewSource(bindings: seq<Binding>, id: string) {
    forall i :: 0 <= i < |bindings| ==> bindings[i].originalId != id
  }

  lemma SourcesDistinctIff(bindings: seq<Binding>, id: string, text: string)
    ensures DistinctIds(SourcesOf(bindings) + [SourceStatement(id, text)], SOURCE_ID) <==>
              SourceIdsDistinct(bindings) && NewSource(bindings, id)
  {
    var sources := SourcesOf(bindings);
    DistinctAppend(sources, SourceStatement(id, text), SOURCE_ID);
    assert forall i :: 0 <= i < |bindings| ==> SOURCE_ID(sources[i]) == bindings[i].originalId;
  }

  // ---- What the first phase accepts ----

  /** The conversion found nothing wrong before it builds the probe. */
  ghost predicate Converts(ss: seq<Statement>, bindings: seq<Binding>) {
    SchemaOk(ss) && Covered(ss, bindings) && KindsMatch(ss, bindings) && AritiesAgree(AllMentioned(ss))
  }

  /** The body is accepted exactly when its sources and rules are in order and it uses none of the three
      reserved names: a body that is fine in itself is rejected for using one of them. */
  lemma ProbeExact(ss: seq<Statement>, bindings: seq<Binding>, theoryId: string)
    requires Converts(ss, bindings)
    ensures ValidTheory(Probe(BodyOf(ss, bindings, theoryId))) <==>
              && SourceIdsDistinct(bindings) && RulesSound(RulesOf(ss, Expected(bindings)))
              && NewSource(bindings, "validation_query")
              && "validation_entity" !in EntitiesIn(AllMentioned(ss))
              && "validation_probe" !in Arities(AllMentioned(ss))
  {
    hide ValidTheory, RulesSound, AritiesAgree, Covered, KindsMatch, Arities, EntitiesIn;
    var body := BodyOf(ss, bindings, theoryId);
    var t := Probe(body);
    var ls := AllMentioned(ss);
    ProbeSurrounds(ss, bindings, theoryId);
    ProbeQueryDeclared(body);
    ConvertedClosed(t, ss, bindings);
    ClosedTheoryValid(t);
    SourcesDistinctIff(bindings, "validation_query", "Validation probe.");
    EntityListDistinct(EntitiesIn(ls), "validation_entity");
    PredicateListDistinct(Arities(ls), "validation_probe");
  }

  lemma EntityListDistinct(ids: set<string>, id: string)
    ensures DistinctIds(EntityList(ids) + [Entity(id, id, None)], ENTITY_ID) <==> id !in ids
  {
    var list := EntityList(ids);
    EntityListExact(ids);
    DistinctAppend(list, Entity(id, id, None), ENTITY_ID);
    if id in ids {
      assert Entity(id, id, None) in list;
      var i :| 0 <= i < |list| && list[i] == Entity(id, id, None);
      assert ENTITY_ID(list[i]) == id;
    }
    forall i | 0 <= i < |list| ensures ENTITY_ID(list[i]) in ids {
      assert list[i] in list;
    }
  }

  lemma PredicateListDistinct(arities: map<string, nat>, name: string)
    ensures DistinctIds(PredicateList(arities) + [PredicateDefinition(name, 1, None)], PREDICATE_NAME) <==>
        name !in arities
  {
    var list := PredicateList(arities);
    PredicateListExact(arities);
    DistinctAppend(list, PredicateDefinition(name, 1, None), PREDICATE_NAME);
    if name in arities {
      assert PredicateDefinition(name, arities[name], None) in list;
      var i :| 0 <= i < |list| && list[i] == PredicateDefinition(name, arities[name], None);
      assert PREDICATE_NAME(list[i]) == name;
    }
    forall i | 0 <= i < |list| ensures PREDICATE_NAME(list[i]) in arities {
      assert list[i] in list;
    }
  }

  lemma ProbeSurrounds(ss: seq<Statement>, bindings: seq<Binding>, theoryId: string)
    ensures Surrounds(Probe(BodyOf(ss, bindings, theoryId)), ss, bindings)
  {
    EntityListExact(EntitiesIn(AllMentioned(ss)));
    PredicateListExact(Arities(AllMentioned(ss)));
  }

  lemma ProbeQueryDeclared(body: Body)
    ensures DeclaredIn(Probe(body), AsPattern(Probe(body).query))
  {
    var t := Probe(body);
    var q := AsPattern(t.query);
    assert PredicateDefinition("validation_probe", 1, None) in t.predicates;
    assert SourceStatement("validation_query", "Validation probe.") in t.sources;
    assert Entity("validation_entity", "validation_entity", None) in t.entities;
    assert q.arguments == [EntityTerm("validation_entity")];
  }

  // ---- The second phase ----

  lemma ListArities(arities: map<string, nat>, predicates: seq<PredicateDefinition>)
    requires predicates == PredicateList(arities)
    ensures (map name | name in Lookup(predicates, PREDICATE_NAME) ::
        Lookup(predicates, PREDICATE_NAME)[name].arity) == arities
  {
    hide PredicateList;
    PredicateListExact(arities);
    LookupDistinct(predicates, PREDICATE_NAME);
    LookupKeys(predicates, PREDICATE_NAME);
    var definitions := Lookup(predicates, PREDICATE_NAME);
    forall n | n in arities ensures n in definitions && definitions[n].arity == arities[n] {
      var p := PredicateDefinition(n, arities[n], None);
      assert p in predicates && PREDICATE_NAME(p) == n;
    }
    forall n | n in definitions ensures n in arities {
      assert definitions[n] in predicates && PREDICATE_NAME(definitions[n]) == n;
    }
  }

  lemma ListEntities(ids: set<string>, entities: seq<Entity>)
    requires entities == EntityList(ids)
    ensures (set e | e in entities :: e.id) == ids
  {
    hide EntityList;
    EntityListExact(ids);
    forall id | id in ids ensures id in (set e | e in entities :: e.id) {
      assert Entity(id, id, None) in entities;
    }
  }

  lemma BodyAritiesAre(ss: seq<Statement>, bindings: seq<Binding>, theoryId: string)
    ensures BodyArities(BodyOf(ss, bindings, theoryId)) == Arities(AllMentioned(ss))
    ensures BodyEntities(BodyOf(ss, bindings, theoryId)) == EntitiesIn(AllMentioned(ss))
  {
    hide Arities, EntitiesIn, AllMentioned, FactsOf, RulesOf, SourcesOf, EntityList, PredicateList, Expected;
    var body := BodyOf(ss, bindings, theoryId);
    ListArities(Arities(AllMentioned(ss)), body.predicates);
    ListEntities(EntitiesIn(AllMentioned(ss)), body.entities);
  }

  /** The lists of a larger dictionary and a larger set still hold the definitions of the smaller ones. */
  lemma ListsExtend(arities: map<string, nat>, larger: map<string, nat>, ids: set<string>, more: set<string>)
    requires ids <= more && forall n :: n in arities ==> n in larger && larger[n] == arities[n]
    ensures forall n :: n in arities ==> PredicateDefinition(n, arities[n], None) in PredicateList(larger)
    ensures forall id :: id in ids ==> Entity(id, id, None) in EntityList(more)
    ensures DistinctIds(EntityList(more), ENTITY_ID) && DistinctIds(PredicateList(larger), PREDICATE_NAME)
  {
    hide PredicateList, EntityList;
    PredicateListExact(larger);
    EntityListExact(more);
  }

  lemma CombinedSurrounds(ss: seq<Statement>, bindings: seq<Binding>, theoryId: string, query: CandidateFact,
                          sourceId: string, text: string)
    requires QueryAgrees(BodyOf(ss, bindings, theoryId), query)
    ensures var t := Combined(BodyOf(ss, bindings, theoryId), query, sourceId, text);
            Surrounds(t, ss, bindings) && DeclaredIn(t, AsPattern(t.query))
            && DistinctIds(t.entities, ENTITY_ID) && DistinctIds(t.predicates, PREDICATE_NAME)
  {
    hide Arities, EntitiesIn, AllMentioned, FactsOf, RulesOf, SourcesOf, EntityList, PredicateList, Expected,
      BodyArities, BodyEntities, DistinctIds;
    var body := BodyOf(ss, bindings, theoryId);
    var larger, more := WithQuery(BodyArities(body), query), BodyEntities(body) + QueryEntities(query);
    BodyAritiesAre(ss, bindings, theoryId);
    ListsExtend(BodyArities(body), larger, BodyEntities(body), more);
    CombinedQueryDeclared(body, query, sourceId, text);
  }

  lemma CombinedQueryDeclared(body: Body, query: CandidateFact, sourceId: string, text: string)
    requires QueryAgrees(body, query)
    ensures DeclaredIn(Combined(body, query, sourceId, text), AsPattern(ToFact(query, sourceId)))
  {
    hide EntityList, PredicateList, BodyArities, BodyEntities, DistinctIds;
    var t := Combined(body, query, sourceId, text);
    var larger, more := WithQuery(BodyArities(body), query), BodyEntities(body) + QueryEntities(query);
    ListsExtend(larger, larger, more, more);
    assert query.pred in larger && larger[query.pred] == |query.arguments|;
    assert PredicateDefinition(query.pred, |query.arguments|, None) in t.predicates;
    assert SourceStatement(sourceId, text) in t.sources;
    forall a | a in AsPattern(t.query).arguments && a.EntityTerm? ensures Entity(a.id, a.id, None) in t.entities {
      var i :| 0 <= i < |AsPattern(t.query).arguments| && AsPattern(t.query).arguments[i] == a;
      assert a.id == query.arguments[i];
      assert a.id in QueryEntities(query);
    }
  }

  /** Whatever the probe says, a query completes a converted body to a valid theory exactly when the query's
      arity agrees, its source id is new, the sources are distinct and the rules are sound. */
  lemma CombinedExact(ss: seq<Statement>, bindings: seq<Binding>, theoryId: string, query: CandidateFact,
                      sourceId: string, text: string)
    requires Converts(ss, bindings)
    ensures var body := BodyOf(ss, bindings, theoryId);
            QueryAgrees(body, query) && ValidTheory(Combined(body, query, sourceId, text)) <==>
              && (query.pred in Arities(AllMentioned(ss)) ==>
                Arities(AllMentioned(ss))[query.pred] == |query.arguments|)
              && NewSource(bindings, sourceId)
              && SourceIdsDistinct(bindings) && RulesSound(RulesOf(ss, Expected(bindings)))
  {
    hide ValidTheory, RulesSound, AritiesAgree, Covered, KindsMatch, Arities, EntitiesIn, Surrounds, DeclaredIn;
    var body := BodyOf(ss, bindings, theoryId);
    BodyAritiesAre(ss, bindings, theoryId);
    if QueryAgrees(body, query) {
      var t := Combined(body, query, sourceId, text);
      CombinedSurrounds(ss, bindings, theoryId, query, sourceId, text);
      ConvertedClosed(t, ss, bindings);
      ClosedTheoryValid(t);
      SourcesDistinctIff(bindings, sourceId, text);
    }
  }

  /** Once the first phase has accepted a body, a query completes it to a valid theory exactly when the
      query's arity agrees with the body's and its source id is new. */
  lemma TwoPhasesCompose(ss: seq<Statement>, bindings: seq<Binding>, theoryId: string, query: CandidateFact,
                         sourceId: string, text: string)
    requires Converts(ss, bindings) && ValidTheory(Probe(BodyOf(ss, bindings, theoryId)))
    ensures var body := BodyOf(ss, bindings, theoryId);
            QueryAgrees(body, query) && ValidTheory(Combined(body, query, sourceId, text)) <==>
              && (query.pred in Arities(AllMentioned(ss)) ==>
                Arities(AllMentioned(ss))[query.pred] == |query.arguments|)
              && NewSource(bindings, sourceId)
  {
    hide ValidTheory, RulesSound, Converts, Arities, EntitiesIn, BodyOf, Combined;
    ProbeExact(ss, bindings, theoryId);
    CombinedExact(ss, bindings, theoryId, query, sourceId, text);
  }

  // ---- A body that only its name condemns ----

  const RESERVED_FACT: CandidateFact := CandidateFact("validation_probe", ["a"], false)
  const RESERVED: seq<Statement> := [FactStatement("sent1", RESERVED_FACT)]
  const RESERVED_BINDINGS: seq<Binding> := [Binding("sent1", "s1", "text", "fact")]

  lemma ReservedMentions()
    ensures AllMentioned(RESERVED) == [Pattern(RESERVED_FACT)]
    ensures Arities(AllMentioned(RESERVED)) == map["validation_probe" := 1]
    ensures Expected(RESERVED_BINDINGS) == map["sent1" := RESERVED_BINDINGS[0]]
    ensures RulesOf(RESERVED, Expected(RESERVED_BINDINGS)) == []
  {
    var ls := [Pattern(RESERVED_FACT)];
    OneStatement(RESERVED[0]);
    OneArity(Pattern(RESERVED_FACT));
    assert RESERVED == [RESERVED[0]] && RESERVED_BINDINGS == [RESERVED_BINDINGS[0]];
    assert RESERVED_BINDINGS[..0] == [];
    assert NEUTRAL_ID(RESERVED_BINDINGS[0]) == "sent1";
  }

  lemma OneStatement(s: Statement)
    ensures AllMentioned([s]) == Mentioned(s)
    ensures s.FactStatement? ==> forall expected :: RulesOf([s], expected) == []
  {
    assert [s][..0] == [];
  }

  lemma OneArity(l: CandidateLiteral)
    ensures Arities([l]) == map[l.pred := |l.arguments|]
  {
    assert [l][..0] == [];
  }

  lemma ReservedConverts()
    ensures Converts(RESERVED, RESERVED_BINDINGS)
  {
    hide AllMentioned, Expected;
    ReservedMentions();
    assert Observed(RESERVED) == ["sent1"];
    assert Covered(RESERVED, RESERVED_BINDINGS);
  }

  /** The body of the one fact `validation_probe(a)` is rejected by the probe, although a query over the same
      predicate completes it to a valid theory. */
  lemma ReservedNameRejected(theoryId: string)
    ensures Converts(RESERVED, RESERVED_BINDINGS)
    ensures !ValidTheory(Probe(BodyOf(RESERVED, RESERVED_BINDINGS, theoryId)))
    ensures var body := BodyOf(RESERVED, RESERVED_BINDINGS, theoryId);
            QueryAgrees(body, RESERVED_FACT) && ValidTheory(Combined(body, RESERVED_FACT, "query", "text"))
  {
    hide ValidTheory, Converts, Arities, AllMentioned, Expected, BodyOf, Combined, EntitiesIn;
    ReservedMentions();
    ReservedConverts();
    ProbeExact(RESERVED, RESERVED_BINDINGS, theoryId);
    assert |"s1"| != |"query"|;
    CombinedExact(RESERVED, RESERVED_BINDINGS, theoryId, RESERVED_FACT, "query", "text");
  }

  // ---- Validation with feedback ----

  datatype IssueCode = StructuredOutput | MissingSource | DuplicateSource | UnexpectedSource | FactRuleConfusion
    | SemanticIssue

  datatype Issue = Issue(code: IssueCode, sourceId: Option<string>)

  datatype TheoryValidation = TheoryValidation(valid: bool, converted: Option<Body>, issues: seq<Issue>)

  datatype QueryValidation = QueryValidation(valid: bool, theory: Option<Theory>, issues: seq<Issue>)

  function IssuesFor(code: IssueCode, ids: set<string>): seq<Issue> {
    var sorted := SortedStrings(ids);
    seq(|sorted|, i requires 0 <= i < |sorted| =>
      Issue(code, if code == UnexpectedSource then None else Some(sorted[i])))
  }

  /** One issue for each of the ids, and no other. */
  lemma IssuesForExact(code: IssueCode, ids: set<string>)
    ensures IssuesFor(code, ids) == [] <==> ids == {}
    ensures forall i :: i in IssuesFor(code, ids) ==> i.code == code && (code != UnexpectedSource ==> i.sourceId.Some?)
    ensures code != UnexpectedSource ==> forall id :: Issue(code, Some(id)) in IssuesFor(code, ids) <==> id in ids
    ensures |IssuesFor(code, ids)| == |ids|
  {
    var sorted, issues := SortedStrings(ids), IssuesFor(code, ids);
    forall id | id in ids && code != UnexpectedSource ensures Issue(code, Some(id)) in issues {
      var i :| 0 <= i < |sorted| && sorted[i] == id;
      assert issues[i] == Issue(code, Some(id));
    }
    forall id | code != UnexpectedSource && Issue(code, Some(id)) in issues ensures id in ids {
      var i :| 0 <= i < |issues| && issues[i] == Issue(code, Some(id));
      assert sorted[i] in sorted;
    }
  }

  function Repeated(ids: seq<string>): set<string> {
    set id | id in ids && multiset(ids)[id] > 1
  }

  lemma RepeatedIff(ids: seq<string>)
    ensures Repeated(ids) == {} <==> NoDuplicates(ids)
  {
    if NoDuplicates(ids) {
      forall id | id in ids ensures multiset(ids)[id] <= 1 {
        NoDuplicatesCount(ids, id);
      }
    } else {
      var i, j :| 0 <= i < j < |ids| && ids[i] == ids[j];
      TwiceCounted(ids, i, j);
      assert ids[j] in Repeated(ids);
    }
  }

  /** Each issue of the coverage pass says what it says, and everything that is wrong has its issue. */
  ghost predicate ReportsCoverage(ss: seq<Statement>, bindings: seq<Binding>, issues: seq<Issue>) {
    && (forall id :: Issue(MissingSource, Some(id)) in issues <==> id in Expected(bindings) && id !in Observed(ss))
    && (forall id :: Issue(DuplicateSource, Some(id)) in issues <==> id in Repeated(Observed(ss)))
    && (Issue(UnexpectedSource, None) in issues <==> exists id :: id in Observed(ss) && id !in Expected(bindings))
    && ReportsKinds(ss, bindings, issues)
    && (forall i :: i in issues ==>
          (i.code in {MissingSource, DuplicateSource, FactRuleConfusion} && i.sourceId.Some?)
          || i == Issue(UnexpectedSource, None))
  }

  ghost predicate ReportsKinds(ss: seq<Statement>, bindings: seq<Binding>, issues: seq<Issue>) {
    forall id :: Issue(FactRuleConfusion, Some(id)) in issues <==> Confused(ss, bindings, id)
  }

  ghost predicate Confused(ss: seq<Statement>, bindings: seq<Binding>, id: string) {
    exists s :: s in ss && s.sourceId == id && id in Expected(bindings) && KindOf(s) != Expected(bindings)[id].kind
  }

  /** `validate_theory_candidate` on a raw object already matched against the schema (nothing when it
      does not match). The error result stands for an exception that escapes; none does. */
  method ValidateTheoryCandidate(candidate: Option<seq<Statement>>, bindings: seq<Binding>, theoryId: string)
    returns (r: Result<TheoryValidation, ConversionError>)
    requires candidate.Some? ==> SchemaOk(candidate.value)
    ensures r.Ok?
    ensures r.value.valid <==> candidate.Some? && Converts(candidate.value, bindings)
                               && ValidTheory(Probe(BodyOf(candidate.value, bindings, theoryId)))
    ensures r.value.valid <==> r.value.issues == []
    ensures r.value.converted == if r.value.valid then Some(BodyOf(candidate.value, bindings, theoryId)) else None
    ensures candidate.None? ==> r.value.issues == [Issue(StructuredOutput, None)]
    ensures candidate.Some? && !(Covered(candidate.value, bindings) && KindsMatch(candidate.value, bindings)) ==>
              ReportsCoverage(candidate.value, bindings, r.value.issues)
    ensures candidate.Some? && Covered(candidate.value, bindings) && KindsMatch(candidate.value, bindings) ==>
              r.value.issues == if r.value.valid then [] else [Issue(SemanticIssue, None)]
  {
    hide ValidTheory, AritiesAgree, SchemaOk, ReportsCoverage, Covered, KindsMatch;
    if candidate.None? {
      return Ok(TheoryValidation(false, None, [Issue(StructuredOutput, None)]));
    }
    var ss := candidate.value;
    var issues := CoverageIssues(ss, bindings);
    if issues != [] {
      return Ok(TheoryValidation(false, None, issues));
    }
    var converted := ConvertTheoryCandidate(ss, bindings, theoryId);
    if converted.Err? {
      if converted.error == SourceCoverage {
        return Err(SourceCoverage);
      }
      return Ok(TheoryValidation(false, None, [Issue(SemanticIssue, None)]));
    }
    return Ok(TheoryValidation(true, Some(converted.value), []));
  }

  /** The issues about sources: exactly the missing, repeated, unexpected and confused ones. There are none
      exactly when the coverage and kind checks of the conversion pass. */
  method CoverageIssues(ss: seq<Statement>, bindings: seq<Binding>) returns (issues: seq<Issue>)
    ensures issues == [] <==> Covered(ss, bindings) && KindsMatch(ss, bindings)
    ensures ReportsCoverage(ss, bindings, issues)
  {
    hide IssuesFor, Covered, KindsMatch, Expected, Repeated, Confused, Observed;
    var expected := Expected(bindings);
    var observed := Observed(ss);
    var ids := set id | id in observed;
    var missing := IssuesFor(MissingSource, expected.Keys - ids);
    var duplicate := IssuesFor(DuplicateSource, Repeated(observed));
    var unexpected := IssuesFor(UnexpectedSource, ids - expected.Keys);
    var confusion := KindIssues(ss, bindings);
    CoveredIff(ss, bindings, missing, duplicate, unexpected);
    issues := missing + duplicate + unexpected + confusion;
    Reported(ss, bindings, missing, duplicate, unexpected, confusion);
  }

  ghost predicate Only(issues: seq<Issue>, code: IssueCode) {
    forall i :: i in issues ==> i.code == code
  }

  /** The issues of one code are those of one part. */
  ghost predicate PartOf(issues: seq<Issue>, part: seq<Issue>, code: IssueCode) {
    forall i: Issue :: i.code == code ==> (i in issues <==> i in part)
  }

  ghost predicate Names(issues: seq<Issue>, code: IssueCode, ids: set<string>) {
    forall id :: Issue(code, Some(id)) in issues <==> id in ids
  }

  lemma NamesInPart(issues: seq<Issue>, part: seq<Issue>, code: IssueCode, ids: set<string>)
    requires PartOf(issues, part, code) && Names(part, code, ids)
    ensures Names(issues, code, ids)
  {
  }

  lemma JoinedParts(missing: seq<Issue>, duplicate: seq<Issue>, unexpected: seq<Issue>, confusion: seq<Issue>)
    requires Only(missing, MissingSource) && Only(duplicate, DuplicateSource) && Only(unexpected, UnexpectedSource)
    requires Only(confusion, FactRuleConfusion)
    ensures var issues := missing + duplicate + unexpected + confusion;
            && PartOf(issues, missing, MissingSource) && PartOf(issues, duplicate, DuplicateSource)
            && PartOf(issues, unexpected, UnexpectedSource) && PartOf(issues, confusion, FactRuleConfusion)
  {
  }

  lemma KindsInPart(ss: seq<Statement>, bindings: seq<Binding>, issues: seq<Issue>, confusion: seq<Issue>)
    requires PartOf(issues, confusion, FactRuleConfusion) && ReportsKinds(ss, bindings, confusion)
    ensures ReportsKinds(ss, bindings, issues)
  {
    hide Confused;
  }

  lemma UnexpectedInPart(issues: seq<Issue>, unexpected: seq<Issue>)
    requires PartOf(issues, unexpected, UnexpectedSource)
    ensures Issue(UnexpectedSource, None) in issues <==> Issue(UnexpectedSource, None) in unexpected
  {
  }

  lemma AllParts(missing: seq<Issue>, duplicate: seq<Issue>, unexpected: seq<Issue>, confusion: seq<Issue>)
    requires Only(missing, MissingSource) && Only(duplicate, DuplicateSource) && Only(confusion, FactRuleConfusion)
    requires forall i :: i in missing || i in duplicate || i in confusion ==> i.sourceId.Some?
    requires forall i :: i in unexpected ==> i == Issue(UnexpectedSource, None)
    ensures forall i :: i in missing + duplicate + unexpected + confusion ==>
              (i.code in {MissingSource, DuplicateSource, FactRuleConfusion} && i.sourceId.Some?)
              || i == Issue(UnexpectedSource, None)
  {
  }

  lemma IssuesForNames(code: IssueCode, ids: set<string>)
    requires code != UnexpectedSource
    ensures Names(IssuesFor(code, ids), code, ids) && Only(IssuesFor(code, ids), code)
    ensures forall i :: i in IssuesFor(code, ids) ==> i.sourceId.Some?
  {
    hide IssuesFor;
    IssuesForExact(code, ids);
  }

  lemma UnexpectedOnly(ids: set<string>)
    ensures Only(IssuesFor(UnexpectedSource, ids), UnexpectedSource)
  {
    hide IssuesFor;
    IssuesForExact(UnexpectedSource, ids);
  }

  /** The issues of the four passes together report exactly what is wrong. */
  lemma Reported(ss: seq<Statement>, bindings: seq<Binding>, missing: seq<Issue>, duplicate: seq<Issue>,
                 unexpected: seq<Issue>, confusion: seq<Issue>)
    requires var ids := set id | id in Observed(ss);
             && missing == IssuesFor(MissingSource, Expected(bindings).Keys - ids)
             && duplicate == IssuesFor(DuplicateSource, Repeated(Observed(ss)))
             && unexpected == IssuesFor(UnexpectedSource, ids - Expected(bindings).Keys)
    requires ReportsKinds(ss, bindings, confusion)
    requires Only(confusion, FactRuleConfusion) && forall i :: i in confusion ==> i.sourceId.Some?
    ensures ReportsCoverage(ss, bindings, missing + duplicate + unexpected + confusion)
  {
    hide IssuesFor, Expected, Repeated, Confused, Observed, Only, PartOf, ReportsKinds;
    var ids := set id | id in Observed(ss);
    var issues := missing + duplicate + unexpected + confusion;
    IssuesForNames(MissingSource, Expected(bindings).Keys - ids);
    IssuesForNames(DuplicateSource, Repeated(Observed(ss)));
    UnexpectedOnly(ids - Expected(bindings).Keys);
    JoinedParts(missing, duplicate, unexpected, confusion);
    NamesInPart(issues, missing, MissingSource, Expected(bindings).Keys - ids);
    NamesInPart(issues, duplicate, DuplicateSource, Repeated(Observed(ss)));
    KindsInPart(ss, bindings, issues, confusion);
    UnexpectedAt(ids - Expected(bindings).Keys);
    UnexpectedInPart(issues, unexpected);
    UnexpectedIds(Observed(ss), Expected(bindings).Keys);
    AllParts(missing, duplicate, unexpected, confusion);
  }

  lemma UnexpectedIds(observed: seq<string>, expected: set<string>)
    ensures (set id | id in observed) - expected != {} <==> exists id :: id in observed && id !in expected
  {
    if id :| id in observed && id !in expected {
      assert id in (set i | i in observed) - expected;
    }
  }

  lemma UnexpectedAt(ids: set<string>)
    ensures Issue(UnexpectedSource, None) in IssuesFor(UnexpectedSource, ids) <==> ids != {}
    ensures forall i :: i in IssuesFor(UnexpectedSource, ids) ==> i == Issue(UnexpectedSource, None)
  {
    var issues := IssuesFor(UnexpectedSource, ids);
    IssuesForExact(UnexpectedSource, ids);
    if ids != {} {
      assert issues[0] in issues;
    }
  }

  /** The loop over the kinds. */
  method KindIssues(ss: seq<Statement>, bindings: seq<Binding>) returns (issues: seq<Issue>)
    ensures issues == [] <==> KindsMatch(ss, bindings)
    ensures ReportsKinds(ss, bindings, issues)
    ensures forall i :: i in issues ==> i.code == FactRuleConfusion && i.sourceId.Some?
  {
    hide Expected;
    var expected := Expected(bindings);
    issues := [];
    for n := 0 to |ss|
      invariant issues == [] <==> KindsMatch(ss[..n], bindings)
      invariant ReportsKinds(ss[..n], bindings, issues)
      invariant forall i :: i in issues ==> i.code == FactRuleConfusion && i.sourceId.Some?
    {
      var statement := ss[n];
      assert ss[..n + 1] == ss[..n] + [statement];
      ConfusedNext(ss[..n], statement, bindings);
      if statement.sourceId in expected && KindOf(statement) != expected[statement.sourceId].kind {
        assert statement in ss[..n + 1];
        issues := issues + [Issue(FactRuleConfusion, Some(statement.sourceId))];
      }
    }
    assert ss[..|ss|] == ss;
  }

  lemma ConfusedNext(ss: seq<Statement>, s: Statement, bindings: seq<Binding>)
    ensures forall id :: Confused(ss + [s], bindings, id) <==>
              Confused(ss, bindings, id)
              || (s.sourceId == id && id in Expected(bindings) && KindOf(s) != Expected(bindings)[id].kind)
  {
    hide Expected;
    forall id ensures Confused(ss + [s], bindings, id) <==>
                        Confused(ss, bindings, id)
                        || (s.sourceId == id && id in Expected(bindings) && KindOf(s) != Expected(bindings)[id].kind)
    {
      assert s in ss + [s];
      assert forall t :: t in ss + [s] <==> t in ss || t == s;
    }
  }

  lemma CoveredIff(ss: seq<Statement>, bindings: seq<Binding>, missing: seq<Issue>, duplicate: seq<Issue>,
                   unexpected: seq<Issue>)
    requires var ids := set id | id in Observed(ss);
             && missing == IssuesFor(MissingSource, Expected(bindings).Keys - ids)
             && duplicate == IssuesFor(DuplicateSource, Repeated(Observed(ss)))
             && unexpected == IssuesFor(UnexpectedSource, ids - Expected(bindings).Keys)
    ensures missing == [] && duplicate == [] && unexpected == [] <==> Covered(ss, bindings)
  {
    hide IssuesFor, Repeated, Expected, NoDuplicates, Observed;
    var ids := set id | id in Observed(ss);
    IssuesForExact(MissingSource, Expected(bindings).Keys - ids);
    IssuesForExact(DuplicateSource, Repeated(Observed(ss)));
    IssuesForExact(UnexpectedSource, ids - Expected(bindings).Keys);
    RepeatedIff(Observed(ss));
    SameIdsIff(ids, Expected(bindings).Keys);
    assert ids == Expected(bindings).Keys <==> forall id :: id in Observed(ss) <==> id in Expected(bindings);
  }

  lemma SameIdsIff(a: set<string>, b: set<string>)
    ensures a == b <==> b - a == {} && a - b == {}
  {
    if b - a == {} && a - b == {} {
      forall id ensures id in a <==> id in b {
        assert id !in b - a && id !in a - b;
      }
    }
  }

  /** `validate_query_candidate`. */
  method ValidateQueryCandidate(candidate: Option<CandidateFact>, body: Option<Body>, sourceId: string, text: string)
    returns (r: QueryValidation)
    requires candidate.Some? ==> 1 <= |candidate.value.arguments| <= 2
    requires body.Some? ==> BodySchema(body.value)
    ensures r.valid <==>
              && candidate.Some?
              && (body.Some? ==>
                    QueryAgrees(body.value, candidate.value)
                      && ValidTheory(Combined(body.value, candidate.value, sourceId, text)))
    ensures r.issues == if r.valid then []
                        else [Issue(if candidate.None? then StructuredOutput else SemanticIssue, Some("query"))]
    ensures r.theory.Some? <==> r.valid && body.Some?
    ensures r.theory.Some? ==>
              && r.theory.value == Combined(body.value, candidate.value, sourceId, text)
              && SchemaValid(r.theory.value) && ValidTheory(r.theory.value)
  {
    hide ValidTheory, SchemaValid, Combined;
    if candidate.None? {
      return QueryValidation(false, None, [Issue(StructuredOutput, Some("query"))]);
    }
    if body.None? {
      return QueryValidation(true, None, []);
    }
    CombinedSchema(body.value, candidate.value, sourceId, text);
    var theory := CombineTheoryAndQuery(body.value, candidate.value, sourceId, text);
    if theory.Err? {
      return QueryValidation(false, None, [Issue(SemanticIssue, Some("query"))]);
    }
    return QueryValidation(true, Some(theory.value), []);
  }
}
