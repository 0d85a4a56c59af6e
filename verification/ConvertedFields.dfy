/** What a converted body and a combined theory say, field by field, in terms of the candidate's statements and
    the source bindings (backend/src/verilogic_ns_api/semantic_parsing/converter.py). */
module ConvertedFields {
  import opened Keys
  import opened Logic
  import opened Orders
  import opened Converter

  // ---- Field by field ----

  /** The caller's id of the source with this neutral id. */
  ghost predicate NamesSource(bindings: seq<Binding>, neutral: string, original: string) {
    exists b :: b in bindings && b.neutralId == neutral && b.originalId == original
  }

  ghost predicate SameLiteral(l: RuleLiteral, c: CandidateLiteral, source: string) {
    l.pred == c.pred && l.arguments == c.arguments && l.negated == c.negated && l.sourceId == source
  }

  ghost predicate StatesFact(f: GroundLiteral, s: Statement, bindings: seq<Binding>) {
    && s.FactStatement? && f.pred == s.fact.pred && f.arguments == s.fact.arguments && f.negated == s.fact.negated
    && NamesSource(bindings, s.sourceId, f.sourceId)
  }

  ghost predicate StatesRule(r: Rule, s: Statement, bindings: seq<Binding>) {
    && s.RuleStatement? && NamesSource(bindings, s.sourceId, r.id) && r.sourceId == r.id
    && r.variables == s.variables && SameLiteral(r.head, s.head, r.id)
    && |r.body| == |s.body| && forall i :: 0 <= i < |r.body| ==> SameLiteral(r.body[i], s.body[i], r.id)
  }

  ghost predicate Rising(at: seq<nat>) {
    forall i, j :: 0 <= i < j < |at| ==> at[i] < at[j]
  }

  /** The `k`-th fact states the `k`-th fact statement. */
  ghost predicate FactsInOrder(facts: seq<GroundLiteral>, ss: seq<Statement>, bindings: seq<Binding>, at: seq<nat>) {
    && |at| == |facts| && Rising(at)
    && (forall i: nat :: i in at <==> i < |ss| && ss[i].FactStatement?)
    && forall k :: 0 <= k < |at| ==> at[k] < |ss| && StatesFact(facts[k], ss[at[k]], bindings)
  }

  ghost predicate RulesInOrder(rules: seq<Rule>, ss: seq<Statement>, bindings: seq<Binding>, at: seq<nat>) {
    && |at| == |rules| && Rising(at)
    && (forall i: nat :: i in at <==> i < |ss| && ss[i].RuleStatement?)
    && forall k :: 0 <= k < |at| ==> at[k] < |ss| && StatesRule(rules[k], ss[at[k]], bindings)
  }

  lemma NextPosition(at: seq<nat>, n: nat)
    requires Rising(at) && forall i :: i in at ==> i < n
    ensures Rising(at + [n])
  {
    forall k | 0 <= k < |at| ensures at[k] < n {
      assert at[k] in at;
    }
  }

  lemma NamedSource(ss: seq<Statement>, bindings: seq<Binding>, s: Statement)
    requires s in ss && Covered(ss, bindings)
    ensures NamesSource(bindings, s.sourceId, OriginalId(s.sourceId, Expected(bindings)))
  {
    var i :| 0 <= i < |ss| && ss[i] == s;
    assert Observed(ss)[i] == s.sourceId;
    assert s.sourceId in Observed(ss);
    LookupKeys(bindings, NEUTRAL_ID);
    var b := Expected(bindings)[s.sourceId];
    assert b in bindings && NEUTRAL_ID(b) == s.sourceId;
  }

  lemma FactStates(s: Statement, bindings: seq<Binding>, original: string)
    requires s.FactStatement? && NamesSource(bindings, s.sourceId, original)
    ensures StatesFact(ToFact(s.fact, original), s, bindings)
  {
    hide NamesSource;
  }

  lemma RuleStates(s: Statement, bindings: seq<Binding>, original: string)
    requires s.RuleStatement? && NamesSource(bindings, s.sourceId, original)
    ensures StatesRule(ToRule(s, original), s, bindings)
  {
    hide NamesSource;
  }

  lemma {:induction false} FactPositions(ss: seq<Statement>, n: nat, bindings: seq<Binding>) returns (at: seq<nat>)
    requires Covered(ss, bindings) && n <= |ss|
    ensures FactsInOrder(FactsOf(ss[..n], Expected(bindings)), ss[..n], bindings, at)
  {
    hide Covered, NamesSource, Expected, OriginalId, StatesFact, ToFact;
    if n == 0 {
      at := [];
    } else {
      var before := FactPositions(ss, n - 1, bindings);
      assert ss[..n][..n - 1] == ss[..n - 1] && ss[n - 1] in ss;
      NamedSource(ss, bindings, ss[n - 1]);
      at := before;
      if ss[n - 1].FactStatement? {
        FactStates(ss[n - 1], bindings, OriginalId(ss[n - 1].sourceId, Expected(bindings)));
        NextPosition(before, n - 1);
        at := before + [n - 1];
      }
    }
  }

  lemma {:induction false} RulePositions(ss: seq<Statement>, n: nat, bindings: seq<Binding>) returns (at: seq<nat>)
    requires Covered(ss, bindings) && n <= |ss|
    ensures RulesInOrder(RulesOf(ss[..n], Expected(bindings)), ss[..n], bindings, at)
  {
    hide Covered, NamesSource, Expected, OriginalId, StatesRule, ToRule;
    if n == 0 {
      at := [];
    } else {
      var before := RulePositions(ss, n - 1, bindings);
      assert ss[..n][..n - 1] == ss[..n - 1] && ss[n - 1] in ss;
      NamedSource(ss, bindings, ss[n - 1]);
      at := before;
      if ss[n - 1].RuleStatement? {
        RuleStates(ss[n - 1], bindings, OriginalId(ss[n - 1].sourceId, Expected(bindings)));
        NextPosition(before, n - 1);
        at := before + [n - 1];
      }
    }
  }

  // ---- Entities and predicates ----

  /** The literals of a statement: those of the body and the head, or the fact. */
  ghost predicate Says(s: Statement, pred: string, arguments: seq<Term>) {
    if s.RuleStatement?
    then exists l :: (l in s.body || l == s.head) && l.pred == pred && l.arguments == arguments
    else
      && s.fact.pred == pred && |arguments| == |s.fact.arguments|
      && forall i :: 0 <= i < |arguments| ==> arguments[i] == EntityTerm(s.fact.arguments[i])
  }

  ghost predicate NamesEntity(ss: seq<Statement>, id: string) {
    exists s, pred, arguments :: s in ss && Says(s, pred, arguments) && EntityTerm(id) in arguments
  }

  ghost predicate UsesPredicate(ss: seq<Statement>, pred: string, arity: nat) {
    exists s, arguments :: s in ss && Says(s, pred, arguments) && |arguments| == arity
  }

  lemma MentionedSays(s: Statement, l: CandidateLiteral)
    requires l in Mentioned(s)
    ensures Says(s, l.pred, l.arguments)
  {
  }

  lemma SaysMentioned(s: Statement, pred: string, arguments: seq<Term>)
    requires Says(s, pred, arguments)
    ensures exists l :: l in Mentioned(s) && l.pred == pred && l.arguments == arguments
  {
    if s.FactStatement? {
      assert Pattern(s.fact).arguments == arguments;
      assert Pattern(s.fact) in Mentioned(s);
    } else {
      var l :| (l in s.body || l == s.head) && l.pred == pred && l.arguments == arguments;
      assert l in Mentioned(s);
    }
  }

  lemma {:induction false} AllMentionedExact(ss: seq<Statement>, l: CandidateLiteral)
    ensures l in AllMentioned(ss) <==> exists s :: s in ss && l in Mentioned(s)
  {
    hide Mentioned;
    if ss != [] {
      var n := |ss| - 1;
      AllMentionedExact(ss[..n], l);
      assert ss == ss[..n] + [ss[n]];
    }
  }

  lemma EntitiesNamed(ss: seq<Statement>, id: string)
    ensures id in EntitiesIn(AllMentioned(ss)) <==> NamesEntity(ss, id)
  {
    hide Says, Mentioned, AllMentioned;
    if id in EntitiesIn(AllMentioned(ss)) {
      var l, t :| l in AllMentioned(ss) && t in l.arguments && t.EntityTerm? && t.id == id;
      AllMentionedExact(ss, l);
      var s :| s in ss && l in Mentioned(s);
      MentionedSays(s, l);
      assert EntityTerm(id) in l.arguments;
    }
    if s, pred, arguments :| s in ss && Says(s, pred, arguments) && EntityTerm(id) in arguments {
      SaysMentioned(s, pred, arguments);
      var l :| l in Mentioned(s) && l.pred == pred && l.arguments == arguments;
      AllMentionedExact(ss, l);
      assert EntityTerm(id) in l.arguments;
    }
  }

  lemma PredicatesUsed(ss: seq<Statement>, pred: string, arity: nat)
    requires AritiesAgree(AllMentioned(ss))
    ensures pred in Arities(AllMentioned(ss)) && Arities(AllMentioned(ss))[pred] == arity <==>
              UsesPredicate(ss, pred, arity)
  {
    hide Says, Mentioned, AllMentioned, Arities, AritiesAgree;
    var ls := AllMentioned(ss);
    AritiesExact(ls);
    if pred in Arities(ls) && Arities(ls)[pred] == arity {
      var l :| l in ls && l.pred == pred && |l.arguments| == arity;
      AllMentionedExact(ss, l);
      var s :| s in ss && l in Mentioned(s);
      MentionedSays(s, l);
    }
    if s, arguments :| s in ss && Says(s, pred, arguments) && |arguments| == arity {
      SaysMentioned(s, pred, arguments);
      var l :| l in Mentioned(s) && l.pred == pred && l.arguments == arguments;
      AllMentionedExact(ss, l);
      AritiesAre(ls, l);
    }
  }

  /** The named entities in the order of their ids, each its own label. */
  ghost predicate ListsEntities(entities: seq<Entity>, named: string -> bool) {
    && (forall i, j :: 0 <= i < j < |entities| ==> Before(entities[i].id, entities[j].id))
    && (forall e :: e in entities ==> e.labelText == e.id && e.entityType.None?)
    && forall id :: named(id) <==> HasEntity(entities, id)
  }

  ghost predicate HasEntity(entities: seq<Entity>, id: string) {
    exists e :: e in entities && e.id == id
  }

  /** The predicates with these arities in the order of their names, without argument types. */
  ghost predicate ListsPredicates(predicates: seq<PredicateDefinition>, used: (string, nat) -> bool) {
    && (forall i, j :: 0 <= i < j < |predicates| ==> Before(predicates[i].name, predicates[j].name))
    && (forall p :: p in predicates ==> p.argumentTypes.None?)
    && forall name, arity :: used(name, arity) <==> HasPredicate(predicates, name, arity)
  }

  ghost predicate HasPredicate(predicates: seq<PredicateDefinition>, name: string, arity: nat) {
    exists p :: p in predicates && p.name == name && p.arity == arity
  }

  lemma SortedNames(ids: set<string>)
    ensures forall i, j :: 0 <= i < j < |SortedStrings(ids)| ==> Before(SortedStrings(ids)[i], SortedStrings(ids)[j])
  {
    hide Before, Leq;
    var names := SortedStrings(ids);
    forall i, j | 0 <= i < j < |names| ensures Before(names[i], names[j]) {
      assert Less(STRING_KEY(names[i]), STRING_KEY(names[j]));
      StrictStringOrder(names[i], names[j]);
    }
  }

  lemma EntityListHas(ids: set<string>, id: string)
    ensures HasEntity(EntityList(ids), id) <==> id in ids
  {
    EntityListExact(ids);
    if id in ids {
      assert Entity(id, id, None) in EntityList(ids);
    }
  }

  lemma EntityListLists(ids: set<string>, named: string -> bool)
    requires forall id :: named(id) <==> id in ids
    ensures ListsEntities(EntityList(ids), named)
  {
    hide Before, HasEntity;
    EntityListExact(ids);
    SortedNames(ids);
    forall id ensures named(id) <==> HasEntity(EntityList(ids), id) {
      EntityListHas(ids, id);
    }
  }

  lemma PredicateListHas(arities: map<string, nat>, name: string, arity: nat)
    ensures HasPredicate(PredicateList(arities), name, arity) <==> name in arities && arities[name] == arity
  {
    PredicateListExact(arities);
    if name in arities && arities[name] == arity {
      assert PredicateDefinition(name, arity, None) in PredicateList(arities);
    }
  }

  lemma PredicateListOrder(arities: map<string, nat>)
    ensures forall p :: p in PredicateList(arities) ==> p.argumentTypes.None?
    ensures forall i, j :: 0 <= i < j < |PredicateList(arities)| ==>
              Before(PredicateList(arities)[i].name, PredicateList(arities)[j].name)
  {
    hide Before;
    SortedNames(arities.Keys);
  }

  lemma PredicateListLists(arities: map<string, nat>, used: (string, nat) -> bool)
    requires forall name, arity :: used(name, arity) <==> name in arities && arities[name] == arity
    ensures ListsPredicates(PredicateList(arities), used)
  {
    hide Before, HasPredicate, PredicateList;
    PredicateListOrder(arities);
    forall name, arity ensures used(name, arity) <==> HasPredicate(PredicateList(arities), name, arity) {
      PredicateListHas(arities, name, arity);
    }
  }

  // ---- The converted body ----

  ghost predicate ListsSources(sources: seq<SourceStatement>, bindings: seq<Binding>) {
    && |sources| == |bindings|
    && forall i :: 0 <= i < |bindings| ==>
         sources[i].id == bindings[i].originalId && sources[i].text == bindings[i].text
  }

  /** Everything in the body, in terms of the statements and the bindings. */
  ghost predicate BodyStates(body: Body, ss: seq<Statement>, bindings: seq<Binding>, theoryId: string) {
    && body.theoryId == theoryId && ListsSources(body.sources, bindings)
    && ListsEntities(body.entities, id => NamesEntity(ss, id))
    && ListsPredicates(body.predicates, (pred: string, arity: nat) => UsesPredicate(ss, pred, arity))
    && (exists at :: FactsInOrder(body.facts, ss, bindings, at))
    && (exists at :: RulesInOrder(body.rules, ss, bindings, at))
  }

  /** The body that conversion returns states exactly the candidate. */
  lemma ConvertedBodyStates(ss: seq<Statement>, bindings: seq<Binding>, theoryId: string)
    requires Converts(ss, bindings)
    ensures BodyStates(BodyOf(ss, bindings, theoryId), ss, bindings, theoryId)
  {
    hide FactsOf, RulesOf, EntityList, PredicateList, FactsInOrder, RulesInOrder, NamesEntity, UsesPredicate,
      ListsEntities, ListsPredicates, AllMentioned, EntitiesIn, Arities, AritiesAgree, Covered;
    assert ss[..|ss|] == ss;
    var facts := FactPositions(ss, |ss|, bindings);
    var rules := RulePositions(ss, |ss|, bindings);
    forall id ensures id in EntitiesIn(AllMentioned(ss)) <==> NamesEntity(ss, id) {
      EntitiesNamed(ss, id);
    }
    forall pred, arity
      ensures pred in Arities(AllMentioned(ss)) && Arities(AllMentioned(ss))[pred] == arity <==>
                UsesPredicate(ss, pred, arity)
    {
      PredicatesUsed(ss, pred, arity);
    }
    EntityListLists(EntitiesIn(AllMentioned(ss)), id => NamesEntity(ss, id));
    PredicateListLists(Arities(AllMentioned(ss)), (pred: string, arity: nat) => UsesPredicate(ss, pred, arity));
  }

  // ---- The combined theory ----

  ghost predicate NamedWith(body: Body, query: CandidateFact, id: string) {
    id in query.arguments || HasEntity(body.entities, id)
  }

  ghost predicate UsedWith(body: Body, query: CandidateFact, name: string, arity: nat) {
    (name == query.pred && arity == |query.arguments|) || HasPredicate(body.predicates, name, arity)
  }

  /** Everything in the theory of a body and a query: the body's facts and rules, the query's predicate, arguments
      and sign, one more source, and the entities and predicates of both. */
  ghost predicate TheoryStates(t: Theory, body: Body, query: CandidateFact, sourceId: string, text: string) {
    && t.theoryId == body.theoryId && t.sources == body.sources + [SourceStatement(sourceId, text)]
    && t.facts == body.facts && t.rules == body.rules
    && t.query.pred == query.pred && t.query.arguments == query.arguments && t.query.negated == query.negated
    && t.query.sourceId == sourceId
    && ListsEntities(t.entities, id => NamedWith(body, query, id))
    && ListsPredicates(t.predicates, (name: string, arity: nat) => UsedWith(body, query, name, arity))
  }

  lemma CombinedStates(body: Body, query: CandidateFact, sourceId: string, text: string)
    requires DistinctIds(body.predicates, PREDICATE_NAME) && QueryAgrees(body, query)
    ensures TheoryStates(Combined(body, query, sourceId, text), body, query, sourceId, text)
  {
    hide EntityList, PredicateList, ListsEntities, ListsPredicates;
    EntityListLists(BodyEntities(body) + QueryEntities(query), id => NamedWith(body, query, id));
    forall name, arity
      ensures name in WithQuery(BodyArities(body), query) && WithQuery(BodyArities(body), query)[name] == arity <==>
                UsedWith(body, query, name, arity)
    {
      UsedInBody(body, name, arity);
    }
    PredicateListLists(WithQuery(BodyArities(body), query),
                       (name: string, arity: nat) => UsedWith(body, query, name, arity));
  }

  lemma UsedInBody(body: Body, name: string, arity: nat)
    requires DistinctIds(body.predicates, PREDICATE_NAME)
    ensures name in BodyArities(body) && BodyArities(body)[name] == arity <==>
              HasPredicate(body.predicates, name, arity)
  {
    LookupKeys(body.predicates, PREDICATE_NAME);
    LookupDistinct(body.predicates, PREDICATE_NAME);
    var definitions := Lookup(body.predicates, PREDICATE_NAME);
    if name in definitions {
      assert definitions[name] in body.predicates && PREDICATE_NAME(definitions[name]) == name;
    }
    if p :| p in body.predicates && p.name == name && p.arity == arity {
      assert PREDICATE_NAME(p) == name;
    }
  }
}
