/** Argument types and the closure. A rule variable has one declared type, but it can be bound through a
    body predicate that declares no argument types (backend/src/verilogic_ns_api/reasoning/models.py). */
module Typing {
  import opened Logic
  import opened Semantics

  function TypesOf(theory: Theory, name: string): Option<seq<string>> {
    var predicates := Declared(theory).predicates;
    if name in predicates then predicates[name].argumentTypes else None
  }

  function TypeOfEntity(theory: Theory, id: string): Option<string> {
    var entities := Declared(theory).entities;
    if id in entities then entities[id].entityType else None
  }

  predicate TypedAt(theory: Theory, name: string, i: nat) {
    TypesOf(theory, name).Some? && i < |TypesOf(theory, name).value|
  }

  function TypeAt(theory: Theory, name: string, i: nat): Option<string> {
    if TypedAt(theory, name, i) then Some(TypesOf(theory, name).value[i]) else None
  }

  /** Every argument at a typed position is an entity of that type. */
  ghost predicate WellTyped(theory: Theory, l: CanonicalLiteral) {
    forall i :: 0 <= i < |l.arguments| && TypedAt(theory, l.pred, i) ==>
      TypeOfEntity(theory, l.arguments[i]) == TypeAt(theory, l.pred, i)
  }

  ghost predicate AllWellTyped(theory: Theory, known: set<CanonicalLiteral>) {
    forall l :: l in known ==> WellTyped(theory, l)
  }

  ghost predicate Occurs(theory: Theory, b: RuleLiteral, i: nat, v: string) {
    i < |b.arguments| && TypedAt(theory, b.pred, i) && b.arguments[i] == VariableTerm(v)
  }

  /** The variable stands at a typed position of the body. */
  ghost predicate Guarded(theory: Theory, r: Rule, v: string) {
    exists b, i: nat :: b in r.body && Occurs(theory, b, i, v)
  }

  function VariableType(r: Rule, v: string): Option<string> {
    var variables := Lookup(r.variables, VARIABLE_NAME);
    if v in variables then variables[v].variableType else None
  }

  ghost predicate SomeEntityOf(theory: Theory, t: Option<string>) {
    exists e :: e in theory.entities && e.entityType == t
  }

  /** Some typed body position can never be filled. */
  ghost predicate NeverMatches(theory: Theory, r: Rule) {
    exists v :: Guarded(theory, r, v) && !SomeEntityOf(theory, VariableType(r, v))
  }

  ghost predicate HeadVariableOk(theory: Theory, r: Rule, i: nat) {
    forall v :: Occurs(theory, r.head, i, v) ==>
      Guarded(theory, r, v) || forall e :: e in theory.entities ==> e.entityType == TypeAt(theory, r.head.pred, i)
  }

  /** Every variable at a typed position of the head is typed by the body, or could not be wrong. */
  ghost predicate HeadGuarded(theory: Theory, r: Rule) {
    forall i: nat :: i < |r.head.arguments| ==> HeadVariableOk(theory, r, i)
  }

  ghost predicate DeclaredLiterals(theory: Theory, known: set<CanonicalLiteral>) {
    forall l :: l in known ==> Declarable(theory, l)
  }

  /** From well-typed declared literals the rule only derives well-typed ones. */
  ghost predicate RulePreserves(theory: Theory, r: Rule) {
    forall known, s :: AllWellTyped(theory, known) && DeclaredLiterals(theory, known) && Matches(r.body, s, known) ==>
      Vars(r.head) <= s.Keys && WellTyped(theory, Ground(r.head, s))
  }

  /** In a valid rule a variable at a typed position has that position's type. */
  lemma OccurrenceType(theory: Theory, r: Rule, b: RuleLiteral, i: nat, v: string)
    requires ValidTheory(theory) && r in theory.rules && (b in r.body || b == r.head) && Occurs(theory, b, i, v)
    ensures VariableType(r, v) == TypeAt(theory, b.pred, i)
  {
    var d, vs := Declared(theory), Lookup(r.variables, VARIABLE_NAME);
    assert RuleValid(r, d);
    assert LiteralValid(b, d, vs);
    assert !HasFault(b, d, vs, TypeMismatch);
    assert !HasFault(b, d, vs, UndeclaredVariable);
    assert b.arguments[i] in b.arguments;
    assert ArgumentType(b.arguments[i], d, vs) == Some(VariableType(r, v));
  }

  lemma ConstantType(theory: Theory, r: Rule, b: RuleLiteral, i: nat)
    requires ValidTheory(theory) && r in theory.rules && (b in r.body || b == r.head)
    requires i < |b.arguments| && TypedAt(theory, b.pred, i) && b.arguments[i].EntityTerm?
    ensures TypeOfEntity(theory, b.arguments[i].id) == TypeAt(theory, b.pred, i)
  {
    var d, vs := Declared(theory), Lookup(r.variables, VARIABLE_NAME);
    assert RuleValid(r, d);
    assert LiteralValid(b, d, vs);
    assert !HasFault(b, d, vs, TypeMismatch);
    assert !HasFault(b, d, vs, UndeclaredEntity);
    assert b.arguments[i] in b.arguments;
    assert ArgumentType(b.arguments[i], d, vs) == Some(TypeOfEntity(theory, b.arguments[i].id));
  }

  /** A guarded variable is bound to an entity of its declared type. */
  lemma GuardedBinding(theory: Theory, r: Rule, s: Subst, known: set<CanonicalLiteral>, v: string)
    requires ValidTheory(theory) && r in theory.rules && Matches(r.body, s, known) && AllWellTyped(theory, known)
    requires Guarded(theory, r, v)
    ensures v in s && TypeOfEntity(theory, s[v]) == VariableType(r, v)
  {
    hide ValidTheory, TypedAt, TypeAt, TypesOf, TypeOfEntity;
    var b, i: nat :| b in r.body && Occurs(theory, b, i, v);
    OccurrenceType(theory, r, b, i, v);
    assert v in Vars(b);
    assert Ground(b, s).arguments[i] == s[v];
    assert WellTyped(theory, Ground(b, s));
  }

  lemma EntityFound(theory: Theory, e: Entity)
    requires ValidTheory(theory) && e in theory.entities
    ensures TypeOfEntity(theory, e.id) == e.entityType && e.id in EntityIds(theory)
  {
    LookupDistinct(theory.entities, ENTITY_ID);
    assert ENTITY_ID(e) == e.id;
  }

  lemma BoundEntityDeclared(theory: Theory, r: Rule, s: Subst, known: set<CanonicalLiteral>, v: string)
    returns (e: Entity)
    requires DeclaredLiterals(theory, known) && Matches(r.body, s, known) && v in s
    ensures e in theory.entities && e.id == s[v]
  {
    var b :| b in r.body && v in Vars(b);
    var j :| 0 <= j < |b.arguments| && b.arguments[j].VariableTerm? && b.arguments[j].name == v;
    assert Ground(b, s).arguments[j] == s[v];
    assert s[v] in Ground(b, s).arguments;
    assert Declarable(theory, Ground(b, s));
    e :| e in theory.entities && e.id == s[v];
  }

  /** A rule that can match only well-typed bodies and types its head derives only well-typed literals. */
  lemma GuardsSuffice(theory: Theory, r: Rule, known: set<CanonicalLiteral>, s: Subst)
    requires ValidTheory(theory) && r in theory.rules && (NeverMatches(theory, r) || HeadGuarded(theory, r))
    requires AllWellTyped(theory, known) && DeclaredLiterals(theory, known) && Matches(r.body, s, known)
    ensures Vars(r.head) <= s.Keys && WellTyped(theory, Ground(r.head, s))
  {
    hide ValidTheory, TypedAt, TypeAt, TypesOf, TypeOfEntity, Matches, AllWellTyped, DeclaredLiterals, VariableType;
    RuleRestricted(theory, r, known, s);
    if NeverMatches(theory, r) {
      MatchContradicts(theory, r, s, known);
    }
    var l := Ground(r.head, s);
    forall i: nat | i < |l.arguments| && TypedAt(theory, l.pred, i)
      ensures TypeOfEntity(theory, l.arguments[i]) == TypeAt(theory, l.pred, i)
    {
      if r.head.arguments[i].EntityTerm? {
        ConstantType(theory, r, r.head, i);
      } else {
        HeadArgumentTyped(theory, r, s, known, i, r.head.arguments[i].name);
      }
    }
  }

  lemma RuleRestricted(theory: Theory, r: Rule, known: set<CanonicalLiteral>, s: Subst)
    requires ValidTheory(theory) && r in theory.rules && Matches(r.body, s, known)
    ensures Vars(r.head) <= s.Keys
  {
    assert RuleValid(r, Declared(theory));
  }

  lemma MatchContradicts(theory: Theory, r: Rule, s: Subst, known: set<CanonicalLiteral>)
    requires ValidTheory(theory) && r in theory.rules && AllWellTyped(theory, known) && DeclaredLiterals(theory, known)
    requires Matches(r.body, s, known)
    ensures !NeverMatches(theory, r)
  {
    hide ValidTheory, Matches, AllWellTyped, DeclaredLiterals, VariableType, Guarded, TypeOfEntity;
    forall v | Guarded(theory, r, v) ensures SomeEntityOf(theory, VariableType(r, v)) {
      GuardedBinding(theory, r, s, known, v);
      var e := BoundEntityDeclared(theory, r, s, known, v);
      EntityFound(theory, e);
    }
  }

  lemma HeadArgumentTyped(theory: Theory, r: Rule, s: Subst, known: set<CanonicalLiteral>, i: nat, v: string)
    requires ValidTheory(theory) && r in theory.rules && HeadGuarded(theory, r)
    requires AllWellTyped(theory, known) && DeclaredLiterals(theory, known) && Matches(r.body, s, known)
    requires Occurs(theory, r.head, i, v) && v in s
    ensures TypeOfEntity(theory, s[v]) == TypeAt(theory, r.head.pred, i)
  {
    hide ValidTheory, Matches, AllWellTyped, DeclaredLiterals, VariableType, Guarded, TypeOfEntity, TypeAt;
    assert HeadVariableOk(theory, r, i);
    OccurrenceType(theory, r, r.head, i, v);
    if Guarded(theory, r, v) {
      GuardedBinding(theory, r, s, known, v);
    } else {
      var e := BoundEntityDeclared(theory, r, s, known, v);
      EntityFound(theory, e);
    }
  }

  // ---- An unguarded head variable breaks the types ----

  ghost function EntityOfType(theory: Theory, t: Option<string>): Entity
    requires SomeEntityOf(theory, t)
    ensures EntityOfType(theory, t) in theory.entities && EntityOfType(theory, t).entityType == t
  {
    var e :| e in theory.entities && e.entityType == t;
    e
  }

  /** Guarded variables get an entity of their type, all others the entity `wrong`. */
  ghost function Breaking(theory: Theory, r: Rule, wrong: Entity): Subst
    requires !NeverMatches(theory, r)
  {
    map v | v in BodyVars(r.body) ::
      if Guarded(theory, r, v) then EntityOfType(theory, VariableType(r, v)).id else wrong.id
  }

  ghost function GroundedBody(body: seq<RuleLiteral>, s: Subst): set<CanonicalLiteral> {
    set b | b in body && Vars(b) <= s.Keys :: Ground(b, s)
  }

  lemma BreakingAt(theory: Theory, r: Rule, wrong: Entity, v: string)
    requires ValidTheory(theory) && !NeverMatches(theory, r) && wrong in theory.entities && v in BodyVars(r.body)
    ensures v in Breaking(theory, r, wrong) && Breaking(theory, r, wrong)[v] in EntityIds(theory)
    ensures TypeOfEntity(theory, Breaking(theory, r, wrong)[v]) ==
              if Guarded(theory, r, v) then VariableType(r, v) else wrong.entityType
  {
    hide ValidTheory, TypeOfEntity, Guarded, VariableType;
    EntityFound(theory, if Guarded(theory, r, v) then EntityOfType(theory, VariableType(r, v)) else wrong);
  }

  lemma BreakingMatches(theory: Theory, r: Rule, wrong: Entity)
    requires ValidTheory(theory) && r in theory.rules && !NeverMatches(theory, r) && wrong in theory.entities
    ensures var s := Breaking(theory, r, wrong); var known := GroundedBody(r.body, s);
            Matches(r.body, s, known) && AllWellTyped(theory, known) && DeclaredLiterals(theory, known)
  {
    hide ValidTheory, NeverMatches, TypeOfEntity, WellTyped, Declarable, Breaking;
    var s := Breaking(theory, r, wrong);
    var known := GroundedBody(r.body, s);
    BreakingKeys(theory, r, wrong);
    forall b | b in r.body ensures Vars(b) <= s.Keys && Ground(b, s) in known {
      assert Vars(b) <= BodyVars(r.body);
    }
    forall l | l in known ensures WellTyped(theory, l) && Declarable(theory, l) {
      var b :| b in r.body && Vars(b) <= s.Keys && Ground(b, s) == l;
      BreakingTyped(theory, r, wrong, b);
      BreakingDeclared(theory, r, wrong, b);
    }
  }

  lemma BreakingKeys(theory: Theory, r: Rule, wrong: Entity)
    requires !NeverMatches(theory, r)
    ensures Breaking(theory, r, wrong).Keys == BodyVars(r.body)
  {
  }

  lemma BreakingTyped(theory: Theory, r: Rule, wrong: Entity, b: RuleLiteral)
    requires ValidTheory(theory) && r in theory.rules && !NeverMatches(theory, r) && wrong in theory.entities
             && b in r.body
    requires Vars(b) <= Breaking(theory, r, wrong).Keys
    ensures WellTyped(theory, Ground(b, Breaking(theory, r, wrong)))
  {
    hide ValidTheory, NeverMatches, TypeOfEntity, TypedAt, TypeAt, TypesOf, VariableType, Breaking;
    var s := Breaking(theory, r, wrong);
    var l := Ground(b, s);
    forall i: nat | i < |l.arguments| && TypedAt(theory, l.pred, i)
      ensures TypeOfEntity(theory, l.arguments[i]) == TypeAt(theory, l.pred, i)
    {
      if b.arguments[i].EntityTerm? {
        ConstantType(theory, r, b, i);
      } else {
        var v := b.arguments[i].name;
        assert Occurs(theory, b, i, v);
        OccurrenceType(theory, r, b, i, v);
        assert v in Vars(b);
        BreakingAt(theory, r, wrong, v);
      }
    }
  }

  lemma BreakingDeclared(theory: Theory, r: Rule, wrong: Entity, b: RuleLiteral)
    requires ValidTheory(theory) && r in theory.rules && !NeverMatches(theory, r) && wrong in theory.entities
             && b in r.body
    requires Vars(b) <= Breaking(theory, r, wrong).Keys
    ensures Declarable(theory, Ground(b, Breaking(theory, r, wrong)))
  {
    hide NeverMatches, Breaking, Declarable;
    var s := Breaking(theory, r, wrong);
    assert RuleValid(r, Declared(theory));
    BreakingKeys(theory, r, wrong);
    forall e | e in s.Values ensures e in EntityIds(theory) {
      var v :| v in s && s[v] == e;
      BreakingAt(theory, r, wrong, v);
    }
    GroundDeclarable(theory, b, Lookup(r.variables, VARIABLE_NAME), s);
  }

  lemma UnguardedBreaks(theory: Theory, r: Rule, i: nat, v: string, wrong: Entity)
    requires ValidTheory(theory) && r in theory.rules && !NeverMatches(theory, r) && wrong in theory.entities
    requires Occurs(theory, r.head, i, v) && !Guarded(theory, r, v)
    requires wrong.entityType != TypeAt(theory, r.head.pred, i)
    ensures !RulePreserves(theory, r)
  {
    hide ValidTheory, NeverMatches, TypeOfEntity, TypeAt, Guarded, Breaking, AllWellTyped, DeclaredLiterals, Matches;
    var s := Breaking(theory, r, wrong);
    var known := GroundedBody(r.body, s);
    BreakingMatches(theory, r, wrong);
    RuleRestricted(theory, r, known, s);
    BreakingKeys(theory, r, wrong);
    assert v in Vars(r.head);
    BreakingAt(theory, r, wrong, v);
    assert Ground(r.head, s).arguments[i] == s[v];
  }

  /** A rule keeps literals well typed exactly when its body can never match well-typed literals, or every
      variable at a typed position of its head also stands at a typed position of its body (or every
      declared entity has the type the head asks for). */
  lemma RulePreservesIff(theory: Theory, r: Rule)
    requires ValidTheory(theory) && r in theory.rules
    ensures RulePreserves(theory, r) <==> NeverMatches(theory, r) || HeadGuarded(theory, r)
  {
    hide ValidTheory, NeverMatches, TypeAt, Guarded, AllWellTyped, DeclaredLiterals, Matches, WellTyped, Occurs;
    if NeverMatches(theory, r) || HeadGuarded(theory, r) {
      forall known, s | AllWellTyped(theory, known) && DeclaredLiterals(theory, known) && Matches(r.body, s, known)
        ensures Vars(r.head) <= s.Keys && WellTyped(theory, Ground(r.head, s))
      {
        GuardsSuffice(theory, r, known, s);
      }
    } else {
      var i: nat :| i < |r.head.arguments| && !HeadVariableOk(theory, r, i);
      var v :| Occurs(theory, r.head, i, v) && !Guarded(theory, r, v)
               && !(forall e :: e in theory.entities ==> e.entityType == TypeAt(theory, r.head.pred, i));
      var wrong :| wrong in theory.entities && wrong.entityType != TypeAt(theory, r.head.pred, i);
      UnguardedBreaks(theory, r, i, v, wrong);
    }
  }

  lemma FactTyped(theory: Theory, f: GroundLiteral)
    requires ValidTheory(theory) && f in theory.facts
    ensures WellTyped(theory, Canonical(f))
  {
    var d, p := Declared(theory), AsPattern(f);
    assert LiteralValid(p, d, map[]);
    assert !HasFault(p, d, map[], TypeMismatch) && !HasFault(p, d, map[], UndeclaredEntity);
    forall i: nat | i < |f.arguments| && TypedAt(theory, f.pred, i)
      ensures TypeOfEntity(theory, f.arguments[i]) == TypeAt(theory, f.pred, i)
    {
      assert p.arguments[i] == EntityTerm(f.arguments[i]) && p.arguments[i] in p.arguments;
      assert ArgumentType(p.arguments[i], d, map[]) == Some(TypeOfEntity(theory, f.arguments[i]));
    }
  }

  lemma HeadsWellTyped(theory: Theory, known: set<CanonicalLiteral>)
    requires ValidTheory(theory) && AllWellTyped(theory, known) && DeclaredLiterals(theory, known)
    requires forall r :: r in theory.rules ==> NeverMatches(theory, r) || HeadGuarded(theory, r)
    ensures AllWellTyped(theory, Heads(Instances(theory.rules, known)))
  {
    hide ValidTheory, NeverMatches, HeadGuarded, WellTyped, Matches, DeclaredLiterals, Instances;
    forall l | l in Heads(Instances(theory.rules, known)) ensures WellTyped(theory, l) {
      var i :| i in Instances(theory.rules, known) && Vars(i.rule.head) <= i.sub.Keys
        && Ground(i.rule.head, i.sub) == l;
      assert i == Instance(i.rule, i.sub);
      InstancesExact(theory.rules, known, i.rule, i.sub);
      GuardsSuffice(theory, i.rule, known, i.sub);
    }
  }

  /** If every rule preserves types, the whole closure is well typed. */
  lemma {:induction false} ClosureWellTyped(theory: Theory, k: nat)
    requires ValidTheory(theory)
    requires forall r :: r in theory.rules ==> NeverMatches(theory, r) || HeadGuarded(theory, r)
    ensures AllWellTyped(theory, Stage(theory, k))
  {
    hide ValidTheory, NeverMatches, HeadGuarded, WellTyped, Heads, Instances, Declarable;
    if k == 0 {
      forall l | l in Stage(theory, 0) ensures WellTyped(theory, l) {
        var f :| f in theory.facts && Canonical(f) == l;
        FactTyped(theory, f);
      }
    } else {
      ClosureWellTyped(theory, k - 1);
      StageDeclarable(theory, k - 1);
      HeadsWellTyped(theory, Stage(theory, k - 1));
    }
  }

  /** In particular when every declared predicate declares its argument types. */
  lemma AllTypedGuards(theory: Theory, r: Rule)
    requires ValidTheory(theory) && SchemaValid(theory) && r in theory.rules
    requires forall p :: p in theory.predicates ==> p.argumentTypes.Some?
    ensures HeadGuarded(theory, r)
  {
    assert RuleValid(r, Declared(theory));
    forall i: nat, v | i < |r.head.arguments| && Occurs(theory, r.head, i, v) ensures Guarded(theory, r, v) {
      assert v in Vars(r.head);
      var b :| b in r.body && v in Vars(b);
      var j :| 0 <= j < |b.arguments| && b.arguments[j].VariableTerm? && b.arguments[j].name == v;
      BodyTyped(theory, r, b, j);
      assert Occurs(theory, b, j, v);
    }
  }

  lemma BodyTyped(theory: Theory, r: Rule, b: RuleLiteral, j: nat)
    requires ValidTheory(theory) && SchemaValid(theory) && r in theory.rules && b in r.body && j < |b.arguments|
    requires forall p :: p in theory.predicates ==> p.argumentTypes.Some?
    ensures TypedAt(theory, b.pred, j)
  {
    var d, vs := Declared(theory), Lookup(r.variables, VARIABLE_NAME);
    assert RuleValid(r, d);
    assert LiteralValid(b, d, vs);
    assert !HasFault(b, d, vs, UndeclaredPredicate) && !HasFault(b, d, vs, WrongArity);
    LookupKeys(theory.predicates, PREDICATE_NAME);
  }

  // ---- A valid theory whose closure is not well typed ----

  /** A dog is near; whoever is near, declared human, is a person. */
  function Example(): Theory {
    var x := VariableTerm("X");
    Theory("example", [SourceStatement("s", "text")], [Entity("rex", "rex", Some("dog"))],
           [PredicateDefinition("near", 1, None), PredicateDefinition("person", 1, Some(["human"]))],
           [GroundLiteral("near", ["rex"], false, "s")],
           [Rule("r", [VariableDefinition("X", Some("human"))], [RuleLiteral("near", [x], false, "s")],
                 RuleLiteral("person", [x], false, "s"), "s")],
           GroundLiteral("near", ["rex"], false, "s"))
  }

  lemma ExampleDeclared()
    ensures var d := Declared(Example());
            && d.predicates == map["near" := Example().predicates[0], "person" := Example().predicates[1]]
            && d.entities == map["rex" := Example().entities[0]] && d.sources == map["s" := Example().sources[0]]
    ensures Lookup(Example().rules[0].variables, VARIABLE_NAME) == map["X" := VariableDefinition("X", Some("human"))]
  {
    var t := Example();
    assert t.predicates[..1] == [t.predicates[0]] && t.predicates[..1][..0] == [];
    assert t.entities[..0] == [] && t.sources[..0] == [];
    assert t.rules[0].variables[..0] == [];
    assert Lookup(t.predicates[..1], PREDICATE_NAME) == map["near" := t.predicates[0]];
  }

  lemma ExampleLiteral(l: RuleLiteral)
    requires l in [AsPattern(Example().query), Example().rules[0].body[0], Example().rules[0].head]
    ensures LiteralValid(l, Declared(Example()), Lookup(Example().rules[0].variables, VARIABLE_NAME))
    ensures l == AsPattern(Example().query) ==> LiteralValid(l, Declared(Example()), map[])
  {
    ExampleDeclared();
    assert l.arguments == [EntityTerm("rex")] || l.arguments == [VariableTerm("X")];
  }

  lemma ExampleRule()
    ensures RuleValid(Example().rules[0], Declared(Example()))
  {
    hide LiteralValid;
    var t := Example();
    var r := t.rules[0];
    ExampleDeclared();
    ExampleLiteral(r.body[0]);
    ExampleLiteral(r.head);
    assert r.body == [r.body[0]];
    assert Vars(r.head) <= BodyVars(r.body) by {
      assert r.body[0].arguments[0].name in Vars(r.body[0]);
    }
  }

  /** The closure need not be well typed: the example is valid, and its first round derives a literal with
      an argument of the wrong type. */
  lemma ValidTheoryIllTypedClosure()
    ensures ValidTheory(Example()) && !AllWellTyped(Example(), Stage(Example(), 1))
  {
    hide LiteralValid, RuleValid, Stage, WellTyped, Lookup;
    var t := Example();
    ExampleLiteral(AsPattern(t.query));
    ExampleRule();
    assert t.facts == [t.query] && t.rules == [t.rules[0]];
    ExampleDerives();
  }

  lemma ExampleDerives()
    ensures CanonicalLiteral("person", ["rex"], false) in Stage(Example(), 1)
    ensures !WellTyped(Example(), CanonicalLiteral("person", ["rex"], false))
  {
    var t := Example();
    var r, s := t.rules[0], map["X" := "rex"];
    var near, person := CanonicalLiteral("near", ["rex"], false), CanonicalLiteral("person", ["rex"], false);
    assert t.facts[0] in t.facts && Canonical(t.facts[0]) == near;
    assert near in Stage(t, 0);
    assert Ground(r.body[0], s) == near && Ground(r.head, s) == person;
    assert Vars(r.body[0]) == {"X"} && Vars(r.head) == {"X"} by {
      assert r.body[0].arguments[0] == VariableTerm("X") && r.head.arguments[0] == VariableTerm("X");
    }
    assert r.body == [r.body[0]] && BodyVars(r.body) == {"X"};
    assert r in t.rules && Matches(r.body, s, Stage(t, 0));
    InstancesExact(t.rules, Stage(t, 0), r, s);
    assert Instance(r, s) in Instances(t.rules, Stage(t, 0));
    assert Stage(t, 1) == Step(t, Stage(t, 0));
    ExampleDeclared();
    assert TypedAt(t, "person", 0) && person.arguments[0] == "rex";
  }
}
