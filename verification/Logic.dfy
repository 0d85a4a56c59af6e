/** The theory model: literals, rules, theories, and the semantic checks every theory passes
    before the engine sees it (backend/src/verilogic_ns_api/reasoning/models.py). */
module Logic {
  import opened Keys

  datatype Option<+T> = None | Some(value: T)

  datatype Result<+T, +E> = Ok(value: T) | Err(error: E)

  datatype SourceStatement = SourceStatement(id: string, text: string)

  datatype Entity = Entity(id: string, labelText: string, entityType: Option<string>)

  datatype PredicateDefinition =
    PredicateDefinition(name: string, arity: nat, argumentTypes: Option<seq<string>>)

  datatype Term = EntityTerm(id: string) | VariableTerm(name: string)

  /** A fact or query: every argument is an entity, so the model keeps the entity ids. */
  datatype GroundLiteral =
    GroundLiteral(pred: string, arguments: seq<string>, negated: bool, sourceId: string)

  datatype RuleLiteral =
    RuleLiteral(pred: string, arguments: seq<Term>, negated: bool, sourceId: string)

  datatype VariableDefinition = VariableDefinition(name: string, variableType: Option<string>)

  datatype Rule = Rule(id: string, variables: seq<VariableDefinition>, body: seq<RuleLiteral>,
                       head: RuleLiteral, sourceId: string)

  datatype Theory = Theory(theoryId: string, sources: seq<SourceStatement>, entities: seq<Entity>,
                           predicates: seq<PredicateDefinition>, facts: seq<GroundLiteral>,
                           rules: seq<Rule>, query: GroundLiteral)

  datatype CanonicalLiteral =
    CanonicalLiteral(pred: string, arguments: seq<string>, negated: bool)
  {
    function Opposite(): CanonicalLiteral {
      this.(negated := !negated)
    }
  }

  function Canonical(literal: GroundLiteral): CanonicalLiteral {
    CanonicalLiteral(literal.pred, literal.arguments, literal.negated)
  }

  ghost function FactSet(theory: Theory): set<CanonicalLiteral> {
    set f | f in theory.facts :: Canonical(f)
  }

  // ---- Sort keys ----

  function LiteralKey(l: CanonicalLiteral): Key {
    Pair(Str(l.pred), Pair(Num(|l.arguments|), Pair(Flag(l.negated), StrTuple(l.arguments))))
  }

  function FactKey(f: GroundLiteral): Key {
    Pair(Str(f.pred), Pair(Flag(f.negated), Pair(StrTuple(f.arguments), Str(f.sourceId))))
  }

  function TermKey(t: Term): Key {
    match t
    case EntityTerm(id) => Pair(Str("entity"), Str(id))
    case VariableTerm(name) => Pair(Str("variable"), Str(name))
  }

  function TermsKey(ts: seq<Term>): Key {
    if ts == [] then Nil else Pair(TermKey(ts[0]), TermsKey(ts[1..]))
  }

  function RuleLiteralKey(l: RuleLiteral): Key {
    Pair(Str(l.pred), Pair(Flag(l.negated), Pair(TermsKey(l.arguments), Str(l.sourceId))))
  }

  lemma {:induction false} TermsKeyInjective(a: seq<Term>, b: seq<Term>)
    requires TermsKey(a) == TermsKey(b)
    ensures a == b
  {
    if a != [] && b != [] {
      TermsKeyInjective(a[1..], b[1..]);
      assert a == [a[0]] + a[1..] && b == [b[0]] + b[1..];
    }
  }

  /** The sort keys tell literals apart, so sorting by them never leaves a tie between unequal ones. */
  lemma LiteralKeysInjective()
    ensures InjectiveKey(LiteralKey)
    ensures InjectiveKey(FactKey)
    ensures InjectiveKey(RuleLiteralKey)
  {
    forall a, b | LiteralKey(a) == LiteralKey(b) ensures a == b {
      StrTupleInjective(a.arguments, b.arguments);
    }
    forall a, b | FactKey(a) == FactKey(b) ensures a == b {
      StrTupleInjective(a.arguments, b.arguments);
    }
    forall a, b | RuleLiteralKey(a) == RuleLiteralKey(b) ensures a == b {
      TermsKeyInjective(a.arguments, b.arguments);
    }
  }

  // ---- Dictionaries built from tuples ----

  /** The dict comprehension `{id(item): item for item in items}`; a later item wins. */
  function Lookup<T>(items: seq<T>, id: T -> string): map<string, T> {
    if items == [] then map[]
    else Lookup(items[..|items| - 1], id)[id(items[|items| - 1]) := items[|items| - 1]]
  }

  ghost predicate DistinctIds<T>(items: seq<T>, id: T -> string) {
    forall i, j :: 0 <= i < j < |items| ==> id(items[i]) != id(items[j])
  }

  lemma {:induction false} LookupKeys<T>(items: seq<T>, id: T -> string)
    ensures forall k :: k in Lookup(items, id) ==> Lookup(items, id)[k] in items && id(Lookup(items, id)[k]) == k
    ensures forall x :: x in items ==> id(x) in Lookup(items, id)
  {
    if items != [] {
      var front, last := items[..|items| - 1], items[|items| - 1];
      LookupKeys(front, id);
      assert items == front + [last];
    }
  }

  lemma {:induction false} LookupDistinct<T>(items: seq<T>, id: T -> string)
    requires DistinctIds(items, id)
    ensures forall x :: x in items ==> id(x) in Lookup(items, id) && Lookup(items, id)[id(x)] == x
  {
    LookupKeys(items, id);
    forall x | x in items ensures Lookup(items, id)[id(x)] == x {
      DistinctIdsEqual(items, id, x, Lookup(items, id)[id(x)]);
    }
  }

  lemma DistinctIdsEqual<T>(items: seq<T>, id: T -> string, x: T, y: T)
    requires DistinctIds(items, id) && x in items && y in items && id(x) == id(y)
    ensures x == y
  {
    var i :| 0 <= i < |items| && items[i] == x;
    var j :| 0 <= j < |items| && items[j] == y;
    assert !(i < j) && !(j < i);
  }

  lemma DistinctAppend<T>(items: seq<T>, x: T, id: T -> string)
    ensures DistinctIds(items + [x], id) <==>
              DistinctIds(items, id) && forall i :: 0 <= i < |items| ==> id(items[i]) != id(x)
  {
    var all := items + [x];
    if DistinctIds(all, id) {
      forall i, j | 0 <= i < j < |items| ensures id(items[i]) != id(items[j]) {
        assert all[i] == items[i] && all[j] == items[j];
      }
      forall i | 0 <= i < |items| ensures id(items[i]) != id(x) {
        assert all[i] == items[i] && all[|items|] == x;
      }
    }
  }

  /** With distinct ids a dictionary does not depend on the order of its items. */
  lemma LookupOrderFree<T>(xs: seq<T>, ys: seq<T>, id: T -> string)
    requires DistinctIds(xs, id) && DistinctIds(ys, id)
    requires forall x :: x in xs <==> x in ys
    ensures Lookup(xs, id) == Lookup(ys, id)
  {
    LookupDistinct(xs, id);
    LookupDistinct(ys, id);
    LookupKeys(xs, id);
    LookupKeys(ys, id);
    var a, b := Lookup(xs, id), Lookup(ys, id);
    forall k ensures k in a <==> k in b {
      if k in a {
        assert a[k] in ys;
      }
      if k in b {
        assert b[k] in xs;
      }
    }
    forall k | k in a ensures a[k] == b[k] {
      assert a[k] in ys;
    }
  }

  const SOURCE_ID := (s: SourceStatement) => s.id
  const ENTITY_ID := (e: Entity) => e.id
  const PREDICATE_NAME := (p: PredicateDefinition) => p.name
  const VARIABLE_NAME := (v: VariableDefinition) => v.name
  const RULE_ID := (r: Rule) => r.id

  // ---- Well-formed theories ----

  ghost function Vars(literal: RuleLiteral): set<string> {
    set i | 0 <= i < |literal.arguments| && literal.arguments[i].VariableTerm? :: literal.arguments[i].name
  }

  ghost function BodyVars(body: seq<RuleLiteral>): set<string> {
    set b, v | b in body && v in Vars(b) :: v
  }

  /** The variables a rule uses. */
  ghost function UsedVars(rule: Rule): set<string> {
    BodyVars(rule.body) + Vars(rule.head)
  }

  /** What the field types of the schema already guarantee: arities of one or two, as many argument
      types as arguments, and rule bodies that are not empty. */
  ghost predicate SchemaValid(theory: Theory) {
    && (forall p | p in theory.predicates ::
          1 <= p.arity <= 2 && (p.argumentTypes.Some? ==> |p.argumentTypes.value| == p.arity))
    && (forall r | r in theory.rules :: r.body != [])
  }

  datatype Declarations = Declarations(predicates: map<string, PredicateDefinition>,
                                       entities: map<string, Entity>,
                                       sources: map<string, SourceStatement>)

  function Declared(theory: Theory): Declarations {
    Declarations(Lookup(theory.predicates, PREDICATE_NAME), Lookup(theory.entities, ENTITY_ID),
                 Lookup(theory.sources, SOURCE_ID))
  }

  datatype LiteralFault = UndeclaredPredicate | WrongArity | UnknownSource | UndeclaredEntity
    | UndeclaredVariable | TypeMismatch

  /** The declared type of an argument, when it is declared at all. */
  function ArgumentType(t: Term, decls: Declarations, variables: map<string, VariableDefinition>)
    : Option<Option<string>>
  {
    match t
    case EntityTerm(id) =>
      if id in decls.entities then Some(decls.entities[id].entityType) else None
    case VariableTerm(name) =>
      if name in variables then Some(variables[name].variableType) else None
  }

  /** What each complaint of the literal check means. */
  ghost predicate HasFault(literal: RuleLiteral, decls: Declarations, variables: map<string, VariableDefinition>,
                           fault: LiteralFault)
  {
    match fault
    case UndeclaredPredicate => literal.pred !in decls.predicates
    case WrongArity => literal.pred in decls.predicates && |literal.arguments| != decls.predicates[literal.pred].arity
    case UnknownSource => literal.sourceId !in decls.sources
    case UndeclaredEntity =>
      exists t :: t in literal.arguments && t.EntityTerm? && t.id !in decls.entities
    case UndeclaredVariable =>
      exists t :: t in literal.arguments && t.VariableTerm? && t.name !in variables
    case TypeMismatch =>
      && literal.pred in decls.predicates
      && decls.predicates[literal.pred].argumentTypes.Some?
      && var types := decls.predicates[literal.pred].argumentTypes.value;
      exists i ::
        && 0 <= i < |literal.arguments| && i < |types|
        && ArgumentType(literal.arguments[i], decls, variables).Some?
        && ArgumentType(literal.arguments[i], decls, variables) != Some(Some(types[i]))
  }

  ghost predicate LiteralValid(literal: RuleLiteral, decls: Declarations, variables: map<string, VariableDefinition>)
  {
    forall fault :: !HasFault(literal, decls, variables, fault)
  }

  function AsPattern(f: GroundLiteral): RuleLiteral {
    RuleLiteral(f.pred, seq(|f.arguments|, i requires 0 <= i < |f.arguments| => EntityTerm(f.arguments[i])),
                f.negated, f.sourceId)
  }

  ghost predicate RuleValid(rule: Rule, decls: Declarations) {
    && rule.sourceId in decls.sources
    && DistinctIds(rule.variables, VARIABLE_NAME)
    && (forall b | b in rule.body :: LiteralValid(b, decls, Lookup(rule.variables, VARIABLE_NAME)))
    && LiteralValid(rule.head, decls, Lookup(rule.variables, VARIABLE_NAME))
    && Vars(rule.head) <= BodyVars(rule.body)
  }

  /** The theories the constructor of `Theory` accepts. */
  ghost predicate ValidTheory(theory: Theory) {
    && DistinctIds(theory.sources, SOURCE_ID)
    && DistinctIds(theory.entities, ENTITY_ID)
    && DistinctIds(theory.predicates, PREDICATE_NAME)
    && DistinctIds(theory.rules, RULE_ID)
    && (forall f | f in theory.facts :: LiteralValid(AsPattern(f), Declared(theory), map[]))
    && LiteralValid(AsPattern(theory.query), Declared(theory), map[])
    && (forall r | r in theory.rules :: RuleValid(r, Declared(theory)))
  }

  ghost predicate WellFormed(theory: Theory) {
    SchemaValid(theory) && ValidTheory(theory)
  }

  // ---- The checks, in the order the constructor runs them ----

  /** `_unique_by`: the dictionary of the items, or nothing when an id repeats. */
  method UniqueBy<T>(items: seq<T>, id: T -> string) returns (r: Option<map<string, T>>)
    ensures r.Some? <==> DistinctIds(items, id)
    ensures r.Some? ==> r.value == Lookup(items, id)
  {
    hide Lookup;
    var result: map<string, T> := map[];
    NoItems(items, id);
    for i := 0 to |items|
      invariant result == Lookup(items[..i], id)
      invariant DistinctIds(items[..i], id)
    {
      var key := id(items[i]);
      NextItem(items, i, id);
      if key in result {
        return None;
      }
      result := result[key := items[i]];
    }
    assert items[..|items|] == items;
    return Some(result);
  }

  lemma NoItems<T>(items: seq<T>, id: T -> string)
    ensures Lookup(items[..0], id) == map[]
  {
  }

  lemma LookupSnoc<T>(items: seq<T>, i: nat, id: T -> string)
    requires i < |items|
    ensures Lookup(items[..i + 1], id) == Lookup(items[..i], id)[id(items[i]) := items[i]]
  {
    assert items[..i + 1][..i] == items[..i];
  }

  /** An item whose id is in the dictionary repeats an id; any other extends the dictionary. */
  lemma NextItem<T>(items: seq<T>, i: nat, id: T -> string)
    requires i < |items| && DistinctIds(items[..i], id)
    ensures var before := Lookup(items[..i], id);
            if id(items[i]) in before then !DistinctIds(items, id)
            else DistinctIds(items[..i + 1], id) && Lookup(items[..i + 1], id) == before[id(items[i]) := items[i]]
  {
    hide Lookup;
    var before := Lookup(items[..i], id);
    LookupKeys(items[..i], id);
    LookupSnoc(items, i, id);
    if id(items[i]) in before {
      assert before[id(items[i])] in items[..i];
      var j :| 0 <= j < i && items[j] == before[id(items[i])];
    } else {
      forall j | 0 <= j < |items[..i]| ensures id(items[..i][j]) != id(items[i]) {
        assert items[..i][j] in items[..i];
      }
      DistinctAppend(items[..i], items[i], id);
      assert items[..i + 1] == items[..i] + [items[i]];
    }
  }

  /** `_validate_literal`: accepts exactly the literals without a fault, and names a real one. */
  method ValidateLiteral(literal: RuleLiteral, decls: Declarations, variables: map<string, VariableDefinition>)
    returns (r: Result<(), LiteralFault>)
    requires literal.pred in decls.predicates ==>
               var p := decls.predicates[literal.pred]; p.argumentTypes.Some? ==> |p.argumentTypes.value| == p.arity
    ensures r.Ok? <==> LiteralValid(literal, decls, variables)
    ensures r.Err? ==> HasFault(literal, decls, variables, r.error)
  {
    if literal.pred !in decls.predicates {
      assert HasFault(literal, decls, variables, UndeclaredPredicate);
      return Err(UndeclaredPredicate);
    }
    var predicateDef := decls.predicates[literal.pred];
    if |literal.arguments| != predicateDef.arity {
      assert HasFault(literal, decls, variables, WrongArity);
      return Err(WrongArity);
    }
    if literal.sourceId !in decls.sources {
      assert HasFault(literal, decls, variables, UnknownSource);
      return Err(UnknownSource);
    }
    for index := 0 to |literal.arguments|
      invariant forall i :: 0 <= i < index ==> ArgumentType(literal.arguments[i], decls, variables).Some?
      invariant predicateDef.argumentTypes.Some? ==>
                  forall i :: 0 <= i < index ==>
                    ArgumentType(literal.arguments[i], decls, variables) ==
                      Some(Some(predicateDef.argumentTypes.value[i]))
    {
      var term := literal.arguments[index];
      assert term in literal.arguments;
      var actualType: Option<string>;
      if term.EntityTerm? {
        if term.id !in decls.entities {
          assert HasFault(literal, decls, variables, UndeclaredEntity);
          return Err(UndeclaredEntity);
        }
        actualType := decls.entities[term.id].entityType;
      } else {
        if term.name !in variables {
          assert HasFault(literal, decls, variables, UndeclaredVariable);
          return Err(UndeclaredVariable);
        }
        actualType := variables[term.name].variableType;
      }
      if predicateDef.argumentTypes.Some? {
        var expectedType := predicateDef.argumentTypes.value[index];
        if actualType != Some(expectedType) {
          assert ArgumentType(literal.arguments[index], decls, variables) == Some(actualType);
          assert HasFault(literal, decls, variables, TypeMismatch);
          return Err(TypeMismatch);
        }
      }
    }
    forall fault ensures !HasFault(literal, decls, variables, fault) {
      if fault == UndeclaredEntity || fault == UndeclaredVariable {
        forall t | t in literal.arguments ensures ArgumentType(t, decls, variables).Some? {
        }
      }
    }
    return Ok(());
  }

  method LiteralVariables(literal: RuleLiteral) returns (names: set<string>)
    ensures names == Vars(literal)
  {
    names := set i | 0 <= i < |literal.arguments| && literal.arguments[i].VariableTerm? :: literal.arguments[i].name;
  }

  /** One rule of `validate_semantics`. */
  method ValidateRule(rule: Rule, decls: Declarations) returns (ok: bool)
    requires forall name | name in decls.predicates ::
               var p := decls.predicates[name]; p.argumentTypes.Some? ==> |p.argumentTypes.value| == p.arity
    ensures ok <==> RuleValid(rule, decls)
  {
    if rule.sourceId !in decls.sources {
      return false;
    }
    var variables := UniqueBy(rule.variables, VARIABLE_NAME);
    if variables.None? {
      return false;
    }
    var bodyVariables: set<string> := {};
    for i := 0 to |rule.body|
      invariant bodyVariables == BodyVars(rule.body[..i])
      invariant forall b :: b in rule.body[..i] ==> LiteralValid(b, decls, variables.value)
    {
      var literalResult := ValidateLiteral(rule.body[i], decls, variables.value);
      if literalResult.Err? {
        assert rule.body[i] in rule.body;
        return false;
      }
      var names := LiteralVariables(rule.body[i]);
      assert rule.body[..i + 1] == rule.body[..i] + [rule.body[i]];
      BodyVarsAppend(rule.body[..i], rule.body[i]);
      bodyVariables := bodyVariables + names;
    }
    assert rule.body[..|rule.body|] == rule.body;
    var headResult := ValidateLiteral(rule.head, decls, variables.value);
    if headResult.Err? {
      return false;
    }
    var headVariables := LiteralVariables(rule.head);
    ghost var unbound := headVariables - bodyVariables;
    assert headVariables <= bodyVariables + unbound;
    return headVariables - bodyVariables == {};
  }

  lemma BodyVarsAppend(body: seq<RuleLiteral>, b: RuleLiteral)
    ensures BodyVars(body + [b]) == BodyVars(body) + Vars(b)
  {
    assert b in body + [b];
    forall c | c in body ensures c in body + [b] {
    }
  }

  /** `Theory.validate_semantics`: accepts exactly the valid theories. */
  method ValidateSemantics(theory: Theory) returns (ok: bool)
    requires SchemaValid(theory)
    ensures ok <==> ValidTheory(theory)
  {
    var sources := UniqueBy(theory.sources, SOURCE_ID);
    if sources.None? { return false; }
    var entities := UniqueBy(theory.entities, ENTITY_ID);
    if entities.None? { return false; }
    var predicates := UniqueBy(theory.predicates, PREDICATE_NAME);
    if predicates.None? { return false; }
    var rules := UniqueBy(theory.rules, RULE_ID);
    if rules.None? { return false; }
    var decls := Declarations(predicates.value, entities.value, sources.value);
    assert decls == Declared(theory);
    LookupKeys(theory.predicates, PREDICATE_NAME);
    for i := 0 to |theory.facts|
      invariant forall f :: f in theory.facts[..i] ==> LiteralValid(AsPattern(f), decls, map[])
    {
      var factResult := ValidateLiteral(AsPattern(theory.facts[i]), decls, map[]);
      if factResult.Err? {
        assert theory.facts[i] in theory.facts;
        return false;
      }
    }
    var queryResult := ValidateLiteral(AsPattern(theory.query), decls, map[]);
    if queryResult.Err? { return false; }
    for i := 0 to |theory.rules|
      invariant forall r :: r in theory.rules[..i] ==> RuleValid(r, decls)
    {
      var ruleOk := ValidateRule(theory.rules[i], decls);
      if !ruleOk {
        assert theory.rules[i] in theory.rules;
        return false;
      }
    }
    return true;
  }
}
