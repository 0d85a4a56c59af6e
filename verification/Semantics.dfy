/** The meaning of a theory, stated without any algorithm: rule instances over a set of literals,
    the immediate-consequence operator and its stages, derivation trees, and the least model. */
module Semantics {
  import opened Keys
  import opened Logic

  type Subst = map<string, string>

  ghost function Restrict(s: Subst, vars: set<string>): Subst {
    map v | v in vars && v in s :: s[v]
  }

  // ---- Grounding and matching ----

  function GroundTerm(t: Term, s: Subst): string
    requires t.VariableTerm? ==> t.name in s
  {
    if t.VariableTerm? then s[t.name] else t.id
  }

  function Ground(p: RuleLiteral, s: Subst): CanonicalLiteral
    requires Vars(p) <= s.Keys
  {
    CanonicalLiteral(p.pred,
                     seq(|p.arguments|, i requires 0 <= i < |p.arguments| => GroundTerm(p.arguments[i], s)),
                     p.negated)
  }

  /** `s` binds exactly the body's variables and grounds every body literal into `known`. */
  ghost predicate Matches(body: seq<RuleLiteral>, s: Subst, known: set<CanonicalLiteral>) {
    && s.Keys == BodyVars(body)
    && forall b | b in body :: Ground(b, s) in known
  }

  lemma MatchesMonotone(body: seq<RuleLiteral>, s: Subst, small: set<CanonicalLiteral>, big: set<CanonicalLiteral>)
    requires small <= big && Matches(body, s, small)
    ensures Matches(body, s, big)
  {
  }

  // ---- The finitely many instances of the rules over a set of literals ----

  datatype Instance = Instance(rule: Rule, sub: Subst)

  ghost function ArgumentsOf(known: set<CanonicalLiteral>): set<string> {
    set l, a | l in known && a in l.arguments :: a
  }

  ghost function Pick<T>(s: set<T>): (x: T)
    requires s != {}
    ensures x in s
  {
    var x :| x in s; x
  }

  ghost function AllSubsts(vars: set<string>, entities: set<string>): set<Subst>
    decreases |vars|
  {
    if vars == {} then {map[]}
    else
      var v := Pick(vars);
      set s, e | s in AllSubsts(vars - {v}, entities) && e in entities :: s[v := e]
  }

  lemma {:induction false} AllSubstsSound(vars: set<string>, entities: set<string>, s: Subst)
    requires s in AllSubsts(vars, entities)
    ensures s.Keys == vars && s.Values <= entities
    decreases |vars|
  {
    if vars != {} {
      var v := Pick(vars);
      var s', e :| s' in AllSubsts(vars - {v}, entities) && e in entities && s == s'[v := e];
      AllSubstsSound(vars - {v}, entities, s');
    }
  }

  lemma {:induction false} AllSubstsComplete(vars: set<string>, entities: set<string>, s: Subst)
    requires s.Keys == vars && forall v :: v in s ==> s[v] in entities
    ensures s in AllSubsts(vars, entities)
    decreases |vars|
  {
    if vars == {} {
      assert s == map[];
    } else {
      var v := Pick(vars);
      AllSubstsComplete(vars - {v}, entities, s - {v});
      assert s == (s - {v})[v := s[v]];
    }
  }

  /** Every pair of a rule and a substitution that matches its body inside `known`. */
  ghost function Instances(rules: seq<Rule>, known: set<CanonicalLiteral>): set<Instance> {
    set r, s | r in rules && s in AllSubsts(BodyVars(r.body), ArgumentsOf(known)) && Matches(r.body, s, known)
      :: Instance(r, s)
  }

  /** Nothing is lost by searching only among the arguments of `known`. */
  lemma InstancesExact(rules: seq<Rule>, known: set<CanonicalLiteral>, r: Rule, s: Subst)
    ensures Instance(r, s) in Instances(rules, known) <==> r in rules && Matches(r.body, s, known)
  {
    if r in rules && Matches(r.body, s, known) {
      forall v | v in s ensures s[v] in ArgumentsOf(known) {
        var b :| b in r.body && v in Vars(b);
        var i :| 0 <= i < |b.arguments| && b.arguments[i].VariableTerm? && b.arguments[i].name == v;
        assert Ground(b, s).arguments[i] == s[v];
        assert Ground(b, s) in known && s[v] in Ground(b, s).arguments;
      }
      AllSubstsComplete(BodyVars(r.body), ArgumentsOf(known), s);
    }
  }

  lemma InstancesMonotone(rules: seq<Rule>, small: set<CanonicalLiteral>, big: set<CanonicalLiteral>)
    requires small <= big
    ensures Instances(rules, small) <= Instances(rules, big)
  {
    forall i | i in Instances(rules, small) ensures i in Instances(rules, big) {
      InstancesExact(rules, small, i.rule, i.sub);
      InstancesExact(rules, big, i.rule, i.sub);
    }
  }

  // ---- The immediate-consequence operator and its stages ----

  /** Every head variable occurs in the body. */
  ghost predicate RangeRestricted(r: Rule) {
    Vars(r.head) <= BodyVars(r.body)
  }

  /** What the engine may assume of the rules it runs. */
  ghost predicate SafeRules(rules: seq<Rule>) {
    forall r | r in rules :: RangeRestricted(r) && r.body != []
  }

  ghost function Heads(instances: set<Instance>): set<CanonicalLiteral>
  {
    set i | i in instances && Vars(i.rule.head) <= i.sub.Keys :: Ground(i.rule.head, i.sub)
  }

  /** One round of forward chaining from `known`. */
  ghost function Step(theory: Theory, known: set<CanonicalLiteral>): set<CanonicalLiteral> {
    known + Heads(Instances(theory.rules, known))
  }

  ghost function Stage(theory: Theory, k: nat): set<CanonicalLiteral> {
    if k == 0 then FactSet(theory) else Step(theory, Stage(theory, k - 1))
  }

  lemma StepExtends(theory: Theory, known: set<CanonicalLiteral>)
    ensures known <= Step(theory, known)
  {
  }

  lemma {:induction false} StageMonotone(theory: Theory, j: nat, k: nat)
    requires j <= k
    ensures Stage(theory, j) <= Stage(theory, k)
    decreases k
  {
    hide Step, FactSet;
    if 0 < k {
      StepExtends(theory, Stage(theory, k - 1));
    }
    if j < k {
      StageMonotone(theory, j, k - 1);
    }
  }

  /** One more round adds a literal. */
  ghost predicate StageGrowsAt(theory: Theory, j: nat) {
    Stage(theory, j + 1) != Stage(theory, j)
  }

  lemma StageGrowsUnfold(theory: Theory, k: nat)
    ensures StageGrowsAt(theory, k) <==> Stage(theory, k + 1) != Stage(theory, k)
  {
  }

  /** Once a stage repeats, every later stage is the same. */
  lemma {:induction false} StageFixed(theory: Theory, k: nat, n: nat)
    requires Stage(theory, k + 1) == Stage(theory, k) && k <= n
    ensures Stage(theory, n) == Stage(theory, k)
    decreases n
  {
    hide Step, FactSet;
    if k < n {
      StageFixed(theory, k, n - 1);
    }
  }

  // ---- The least model ----

  /** Contains the facts and the head of every instance over it. */
  ghost predicate Model(theory: Theory, m: set<CanonicalLiteral>) {
    FactSet(theory) <= m && Heads(Instances(theory.rules, m)) <= m
  }

  ghost predicate LeastModel(theory: Theory, m: set<CanonicalLiteral>) {
    Model(theory, m) && forall n :: Model(theory, n) ==> m <= n
  }

  lemma LeastModelUnique(theory: Theory, m: set<CanonicalLiteral>, n: set<CanonicalLiteral>)
    requires LeastModel(theory, m) && LeastModel(theory, n)
    ensures m == n
  {
    assert m <= n && n <= m;
  }

  lemma {:induction false} StageBelowModel(theory: Theory, k: nat, m: set<CanonicalLiteral>)
    requires Model(theory, m)
    ensures Stage(theory, k) <= m
  {
    if k > 0 {
      StageBelowModel(theory, k - 1, m);
      InstancesMonotone(theory.rules, Stage(theory, k - 1), m);
    }
  }

  /** A stage that one more round leaves unchanged is the least model. */
  lemma FixedStageIsLeastModel(theory: Theory, k: nat)
    requires Stage(theory, k + 1) == Stage(theory, k)
    ensures LeastModel(theory, Stage(theory, k))
  {
    StageMonotone(theory, 0, k);
    forall n | Model(theory, n) ensures Stage(theory, k) <= n {
      StageBelowModel(theory, k, n);
    }
  }

  // ---- Derivation trees ----

  datatype Tree = FactLeaf(literal: CanonicalLiteral) | RuleNode(rule: Rule, sub: Subst, premises: seq<Tree>)

  ghost predicate Proves(theory: Theory, t: Tree, l: CanonicalLiteral)
    decreases t
  {
    match t
    case FactLeaf(fact) => fact == l && l in FactSet(theory)
    case RuleNode(rule, sub, premises) =>
      && rule in theory.rules
      && sub.Keys == BodyVars(rule.body)
      && Vars(rule.head) <= sub.Keys
      && Ground(rule.head, sub) == l
      && |premises| == |rule.body|
      && forall i | 0 <= i < |premises| ::
           Vars(rule.body[i]) <= sub.Keys && Proves(theory, premises[i], Ground(rule.body[i], sub))
  }

  function Height(t: Tree): nat {
    match t
    case FactLeaf(_) => 0
    case RuleNode(_, _, premises) => 1 + MaxHeight(premises)
  }

  function MaxHeight(ts: seq<Tree>): nat {
    if ts == [] then 0
    else
      var h, rest := Height(ts[0]), MaxHeight(ts[1..]);
      if h > rest then h else rest
  }

  lemma {:induction false} MaxHeightBounds(ts: seq<Tree>, i: nat)
    requires i < |ts|
    ensures Height(ts[i]) <= MaxHeight(ts)
  {
    if i > 0 {
      MaxHeightBounds(ts[1..], i - 1);
    }
  }

  lemma {:induction false} MaxHeightLeast(ts: seq<Tree>, bound: nat)
    requires forall t :: t in ts ==> Height(t) <= bound
    ensures MaxHeight(ts) <= bound
  {
    if ts != [] {
      MaxHeightLeast(ts[1..], bound);
    }
  }

  ghost predicate Derivable(theory: Theory, l: CanonicalLiteral) {
    exists t :: Proves(theory, t, l)
  }

  /** A tree of height `h` is found by stage `h`. */
  lemma {:induction false} TreeInStage(theory: Theory, t: Tree, l: CanonicalLiteral)
    requires Proves(theory, t, l)
    ensures l in Stage(theory, Height(t))
    decreases t
  {
    match t
    case FactLeaf(_) =>
    case RuleNode(rule, sub, premises) =>
      var k := MaxHeight(premises);
      forall b | b in rule.body ensures Ground(b, sub) in Stage(theory, k) {
        var i :| 0 <= i < |rule.body| && rule.body[i] == b;
        TreeInStage(theory, premises[i], Ground(b, sub));
        MaxHeightBounds(premises, i);
        StageMonotone(theory, Height(premises[i]), k);
      }
      InstancesExact(theory.rules, Stage(theory, k), rule, sub);
  }

  /** A literal new in stage `k` is the conclusion of an instance over the stage before. */
  lemma EntersByRule(theory: Theory, k: nat, l: CanonicalLiteral) returns (i: Instance)
    requires k > 0 && l in Stage(theory, k) && l !in Stage(theory, k - 1)
    ensures i.rule in theory.rules && Matches(i.rule.body, i.sub, Stage(theory, k - 1))
    ensures Vars(i.rule.head) <= i.sub.Keys && Ground(i.rule.head, i.sub) == l
  {
    i :| i in Instances(theory.rules, Stage(theory, k - 1)) && Vars(i.rule.head) <= i.sub.Keys
         && Ground(i.rule.head, i.sub) == l;
    InstancesExact(theory.rules, Stage(theory, k - 1), i.rule, i.sub);
  }

  /** Everything in stage `k` has a tree of height at most `k`. */
  lemma {:induction false} StageHasTree(theory: Theory, k: nat, l: CanonicalLiteral) returns (t: Tree)
    requires l in Stage(theory, k)
    ensures Proves(theory, t, l) && Height(t) <= k
    decreases k, 0
  {
    hide Step, Height;
    if l in FactSet(theory) {
      t := FactLeaf(l);
      FactHeight(l);
    } else if l in Stage(theory, k - 1) {
      t := StageHasTree(theory, k - 1, l);
    } else {
      var i := EntersByRule(theory, k, l);
      var premises := StageHasTrees(theory, k - 1, i.rule.body, i.sub);
      t := RuleNode(i.rule, i.sub, premises);
      HeightOfNode(t, k - 1);
      assert Proves(theory, t, l);
    }
  }

  lemma FactHeight(l: CanonicalLiteral)
    ensures Height(FactLeaf(l)) == 0
  {
  }

  lemma HeightOfNode(t: Tree, bound: nat)
    requires t.RuleNode? && forall i :: 0 <= i < |t.premises| ==> Height(t.premises[i]) <= bound
    ensures Height(t) <= bound + 1
  {
    forall p | p in t.premises ensures Height(p) <= bound {
      var j :| 0 <= j < |t.premises| && t.premises[j] == p;
    }
    MaxHeightLeast(t.premises, bound);
  }

  lemma {:induction false} StageHasTrees(theory: Theory, k: nat, body: seq<RuleLiteral>, s: Subst)
    returns (ts: seq<Tree>)
    requires forall b | b in body :: Vars(b) <= s.Keys && Ground(b, s) in Stage(theory, k)
    ensures |ts| == |body|
    ensures forall i | 0 <= i < |ts| :: Vars(body[i]) <= s.Keys
    ensures forall i | 0 <= i < |ts| :: Proves(theory, ts[i], Ground(body[i], s)) && Height(ts[i]) <= k
    decreases k, |body| + 1
  {
    ts := [];
    if body != [] {
      var last := body[|body| - 1];
      ts := StageHasTrees(theory, k, body[..|body| - 1], s);
      var t := StageHasTree(theory, k, Ground(last, s));
      ts := ts + [t];
    }
  }

  /** A literal enters at stage `k` or earlier exactly when it has a tree of height at most `k`. */
  lemma StageIsHeight(theory: Theory, k: nat, l: CanonicalLiteral)
    ensures l in Stage(theory, k) <==> exists t :: Proves(theory, t, l) && Height(t) <= k
  {
    if l in Stage(theory, k) {
      var t := StageHasTree(theory, k, l);
    }
    if t :| Proves(theory, t, l) && Height(t) <= k {
      TreeInStage(theory, t, l);
      StageMonotone(theory, Height(t), k);
    }
  }

  /** The least model is what has a derivation tree. */
  lemma LeastModelIsDerivable(theory: Theory, k: nat, l: CanonicalLiteral)
    requires Stage(theory, k + 1) == Stage(theory, k)
    ensures l in Stage(theory, k) <==> Derivable(theory, l)
  {
    if l in Stage(theory, k) {
      var t := StageHasTree(theory, k, l);
    }
    if t :| Proves(theory, t, l) {
      TreeInStage(theory, t, l);
      if Height(t) <= k {
        StageMonotone(theory, Height(t), k);
      } else {
        StageFixed(theory, k, Height(t));
      }
    }
  }

  // ---- The Herbrand base ----

  ghost function Tuples(entities: set<string>, arity: nat): set<seq<string>> {
    if arity == 0 then {[]}
    else set e, rest | e in entities && rest in Tuples(entities, arity - 1) :: [e] + rest
  }

  lemma {:induction false} TuplesExact(entities: set<string>, args: seq<string>)
    requires forall a :: a in args ==> a in entities
    ensures args in Tuples(entities, |args|)
  {
    if args != [] {
      TuplesExact(entities, args[1..]);
      assert args == [args[0]] + args[1..];
    }
  }

  ghost function EntityIds(theory: Theory): set<string> {
    set e | e in theory.entities :: e.id
  }

  /** The signed ground literals over the declared predicates and entities. */
  ghost function HerbrandBase(theory: Theory): set<CanonicalLiteral> {
    set p, args, sign | p in theory.predicates && args in Tuples(EntityIds(theory), p.arity) && sign in {true, false}
      :: CanonicalLiteral(p.name, args, sign)
  }

  /** A literal over a declared predicate, at its arity, with declared entities only. */
  ghost predicate Declarable(theory: Theory, l: CanonicalLiteral) {
    && (exists p :: p in theory.predicates && p.name == l.pred && p.arity == |l.arguments|)
    && (forall a :: a in l.arguments ==> a in EntityIds(theory))
  }

  lemma DeclarableInBase(theory: Theory, l: CanonicalLiteral)
    requires Declarable(theory, l)
    ensures l in HerbrandBase(theory)
  {
    TuplesExact(EntityIds(theory), l.arguments);
    var p :| p in theory.predicates && p.name == l.pred && p.arity == |l.arguments|;
    assert l == CanonicalLiteral(p.name, l.arguments, l.negated);
  }

  /** Grounding a valid pattern with declared entities stays within the declarations. */
  lemma GroundDeclarable(theory: Theory, p: RuleLiteral, vs: map<string, VariableDefinition>, s: Subst)
    requires LiteralValid(p, Declared(theory), vs)
    requires Vars(p) <= s.Keys && s.Values <= EntityIds(theory)
    ensures Declarable(theory, Ground(p, s))
  {
    var decls := Declared(theory);
    assert !HasFault(p, decls, vs, UndeclaredPredicate);
    assert !HasFault(p, decls, vs, WrongArity);
    assert !HasFault(p, decls, vs, UndeclaredEntity);
    LookupKeys(theory.predicates, PREDICATE_NAME);
    LookupKeys(theory.entities, ENTITY_ID);
    var l := Ground(p, s);
    assert decls.predicates[p.pred] in theory.predicates;
    forall a | a in l.arguments ensures a in EntityIds(theory) {
      var i :| 0 <= i < |l.arguments| && l.arguments[i] == a;
      var t := p.arguments[i];
      assert t in p.arguments;
      if t.EntityTerm? {
        assert decls.entities[t.id] in theory.entities;
      } else {
        assert t.name in s && s[t.name] in s.Values;
      }
    }
  }

  lemma GroundPattern(f: GroundLiteral)
    ensures Vars(AsPattern(f)) == {}
    ensures Ground(AsPattern(f), map[]) == Canonical(f)
  {
    assert Ground(AsPattern(f), map[]).arguments == f.arguments;
  }

  /** Firing a valid rule on declared literals derives a declared literal. */
  lemma InstanceDeclarable(theory: Theory, r: Rule, s: Subst, known: set<CanonicalLiteral>)
    requires ValidTheory(theory) && r in theory.rules && Matches(r.body, s, known)
    requires forall l :: l in known ==> Declarable(theory, l)
    ensures Vars(r.head) <= s.Keys && Declarable(theory, Ground(r.head, s))
  {
    assert RuleValid(r, Declared(theory));
    forall e | e in s.Values ensures e in EntityIds(theory) {
      var v :| v in s && s[v] == e;
      var b :| b in r.body && v in Vars(b);
      var j :| 0 <= j < |b.arguments| && b.arguments[j].VariableTerm? && b.arguments[j].name == v;
      assert Ground(b, s).arguments[j] == e;
      assert e in Ground(b, s).arguments;
    }
    GroundDeclarable(theory, r.head, Lookup(r.variables, VARIABLE_NAME), s);
  }

  lemma FactDeclarable(theory: Theory, f: GroundLiteral)
    requires ValidTheory(theory) && f in theory.facts
    ensures Declarable(theory, Canonical(f))
  {
    GroundPattern(f);
    GroundDeclarable(theory, AsPattern(f), map[], map[]);
  }

  /** Every derived literal is declared: the stages of a valid theory stay inside its Herbrand base. */
  lemma {:induction false} StageDeclarable(theory: Theory, k: nat)
    requires ValidTheory(theory)
    ensures forall l :: l in Stage(theory, k) ==> Declarable(theory, l)
  {
    hide ValidTheory, Declarable;
    if k == 0 {
      forall l | l in Stage(theory, k) ensures Declarable(theory, l) {
        var f :| f in theory.facts && Canonical(f) == l;
        FactDeclarable(theory, f);
      }
    } else {
      var known := Stage(theory, k - 1);
      StageDeclarable(theory, k - 1);
      forall l | l in Heads(Instances(theory.rules, known)) ensures Declarable(theory, l) {
        var i :| i in Instances(theory.rules, known) && Vars(i.rule.head) <= i.sub.Keys
                 && Ground(i.rule.head, i.sub) == l;
        InstanceDeclarable(theory, i.rule, i.sub, known);
      }
    }
  }

  lemma StageInBase(theory: Theory, k: nat)
    requires ValidTheory(theory)
    ensures Stage(theory, k) <= HerbrandBase(theory)
  {
    forall l | l in Stage(theory, k) ensures l in HerbrandBase(theory) {
      StageDeclarable(theory, k);
      DeclarableInBase(theory, l);
    }
  }

  /** Forward chaining stops: after `k` rounds there is a later stage that one more round leaves alone. */
  lemma {:induction false} StagesStop(theory: Theory, k: nat) returns (n: nat)
    requires ValidTheory(theory)
    ensures k <= n && Stage(theory, n + 1) == Stage(theory, n)
    decreases |HerbrandBase(theory)| - |Stage(theory, k)|
  {
    hide HerbrandBase, Stage;
    n := k;
    if Stage(theory, k + 1) != Stage(theory, k) {
      StageGrows(theory, k);
      n := StagesStop(theory, k + 1);
    }
  }

  lemma FixedStageExists(theory: Theory)
    requires ValidTheory(theory)
    ensures exists n: nat :: Stage(theory, n + 1) == Stage(theory, n)
  {
    var n := StagesStop(theory, 0);
  }

  /** The least model of a valid theory. */
  ghost function ModelOf(theory: Theory): (m: set<CanonicalLiteral>)
    requires ValidTheory(theory)
    ensures LeastModel(theory, m)
  {
    FixedStageExists(theory);
    var n: nat :| Stage(theory, n + 1) == Stage(theory, n);
    FixedStageIsLeastModel(theory, n);
    Stage(theory, n)
  }

  /** Membership in the least model is derivability. */
  lemma ModelIsDerivable(theory: Theory, l: CanonicalLiteral)
    requires ValidTheory(theory)
    ensures l in ModelOf(theory) <==> Derivable(theory, l)
  {
    var n := StagesStop(theory, 0);
    FixedStageIsLeastModel(theory, n);
    LeastModelUnique(theory, ModelOf(theory), Stage(theory, n));
    LeastModelIsDerivable(theory, n, l);
  }

  lemma FixedStageIsModel(theory: Theory, k: nat)
    requires ValidTheory(theory) && Stage(theory, k + 1) == Stage(theory, k)
    ensures Stage(theory, k) == ModelOf(theory)
  {
    FixedStageIsLeastModel(theory, k);
    LeastModelUnique(theory, ModelOf(theory), Stage(theory, k));
  }

  lemma StageInModel(theory: Theory, k: nat)
    requires ValidTheory(theory)
    ensures Stage(theory, k) <= ModelOf(theory)
  {
    StageBelowModel(theory, k, ModelOf(theory));
  }

  // ---- Conflicts ----

  /** The atoms a set of literals both asserts and denies. */
  ghost function Conflicts(m: set<CanonicalLiteral>): set<CanonicalLiteral> {
    set l | l in m && l.negated && l.Opposite() in m :: l.(negated := false)
  }

  lemma StageGrows(theory: Theory, k: nat)
    requires ValidTheory(theory) && Stage(theory, k + 1) != Stage(theory, k)
    ensures |Stage(theory, k)| < |Stage(theory, k + 1)| <= |HerbrandBase(theory)|
  {
    hide HerbrandBase, Stage;
    StageMonotone(theory, k, k + 1);
    StageInBase(theory, k + 1);
    SubsetSize(Stage(theory, k + 1), HerbrandBase(theory));
    SubsetSize(Stage(theory, k), Stage(theory, k + 1));
  }

  /** While every round is productive, each adds at least one literal of the Herbrand base. */
  lemma {:induction false} RoundsBounded(theory: Theory, k: nat)
    requires ValidTheory(theory)
    requires forall j :: 0 <= j < k ==> Stage(theory, j + 1) != Stage(theory, j)
    ensures |FactSet(theory)| + k <= |Stage(theory, k)| <= |HerbrandBase(theory)|
  {
    hide HerbrandBase, Step, FactSet, ValidTheory;
    if k == 0 {
      StageInBase(theory, 0);
      SubsetSize(Stage(theory, 0), HerbrandBase(theory));
    } else {
      RoundsBounded(theory, k - 1);
      assert Stage(theory, (k - 1) + 1) != Stage(theory, k - 1);
      StageGrows(theory, k - 1);
    }
  }
}
