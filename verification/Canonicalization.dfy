/** Canonical forms of facts and rules, modulo the names of variables and the order of bodies
    (backend/src/verilogic_ns_api/semantic_parsing/canonicalization.py). The JSON text of a shape is a
    parameter; results that need distinct shapes to have distinct texts say so. */
module Canonicalization {
  import opened Keys
  import opened Logic
  import opened Semantics

  /** A literal without its source id. */
  datatype LiteralShape = LiteralShape(pred: string, negated: bool, arguments: seq<Term>)

  datatype Shape = FactShape(literal: LiteralShape) | RuleShape(body: seq<LiteralShape>, head: LiteralShape)

  type Dumps = Shape -> string

  ghost predicate InjectiveDumps(dumps: Dumps) {
    forall a, b :: dumps(a) == dumps(b) ==> a == b
  }

  function ShapeKey(l: LiteralShape): Key {
    Pair(Str(l.pred), Pair(Flag(l.negated), TermsKey(l.arguments)))
  }

  lemma ShapeKeysInjective()
    ensures InjectiveKey(ShapeKey)
  {
    forall a, b | ShapeKey(a) == ShapeKey(b) ensures a == b {
      TermsKeyInjective(a.arguments, b.arguments);
    }
  }

  // ---- Renaming ----

  type Renaming = map<string, string>

  ghost predicate InjectiveRenaming(m: Renaming) {
    forall v, w :: v in m && w in m && m[v] == m[w] ==> v == w
  }

  function MapTerm(t: Term, m: Renaming): Term
    requires t.VariableTerm? ==> t.name in m
  {
    if t.VariableTerm? then VariableTerm(m[t.name]) else t
  }

  /** `_mapped_literal`. */
  function MapLiteral(l: RuleLiteral, m: Renaming): LiteralShape
    requires Vars(l) <= m.Keys
  {
    LiteralShape(l.pred, l.negated,
                 seq(|l.arguments|, i requires 0 <= i < |l.arguments| => MapTerm(l.arguments[i], m)))
  }

  ghost predicate BodyNamed(body: seq<RuleLiteral>, m: Renaming) {
    forall i :: 0 <= i < |body| ==> Vars(body[i]) <= m.Keys
  }

  function MapBody(body: seq<RuleLiteral>, m: Renaming): seq<LiteralShape>
    requires BodyNamed(body, m)
  {
    seq(|body|, i requires 0 <= i < |body| => MapLiteral(body[i], m))
  }

  ghost predicate RuleNamed(rule: Rule, m: Renaming) {
    BodyNamed(rule.body, m) && Vars(rule.head) <= m.Keys
  }

  function MappedRule(rule: Rule, m: Renaming): Shape
    requires RuleNamed(rule, m)
  {
    RuleShape(SortBy(MapBody(rule.body, m), ShapeKey), MapLiteral(rule.head, m))
  }

  // ---- Permutations of the canonical names ----

  function Digit(n: nat): char
    requires n < 10
  {
    "0123456789"[n]
  }

  function Decimal(n: nat): string {
    if n < 10 then [Digit(n)] else Decimal(n / 10) + [Digit(n % 10)]
  }

  lemma {:induction false} DecimalInjective(a: nat, b: nat)
    requires Decimal(a) == Decimal(b)
    ensures a == b
  {
    var x, y := Decimal(a), Decimal(b);
    assert x[|x| - 1] == Digit(a % 10) && y[|y| - 1] == Digit(b % 10);
    assert a % 10 == b % 10;
    DecimalLength(a);
    DecimalLength(b);
    if a >= 10 && b >= 10 {
      assert Decimal(a / 10) == x[..|x| - 1] && Decimal(b / 10) == y[..|y| - 1];
      DecimalInjective(a / 10, b / 10);
    }
  }

  lemma {:induction false} DecimalLength(n: nat)
    ensures |Decimal(n)| >= 1 && (n >= 10 ==> |Decimal(n)| >= 2)
  {
    if n >= 10 {
      DecimalLength(n / 10);
    }
  }

  function CanonicalName(i: nat): string {
    "V" + Decimal(i)
  }

  function CanonicalNames(n: nat): seq<string> {
    seq(n, i requires 0 <= i < n => CanonicalName(i))
  }

  lemma CanonicalNamesDistinct(n: nat)
    ensures NoDuplicates(CanonicalNames(n)) && |CanonicalNames(n)| == n
  {
    var names := CanonicalNames(n);
    forall i, j | 0 <= i < j < n ensures names[i] != names[j] {
      if names[i] == names[j] {
        assert Decimal(i) == names[i][1..] && Decimal(j) == names[j][1..];
        DecimalInjective(i, j);
      }
    }
  }

  function Prepend(x: string, ps: seq<seq<string>>): seq<seq<string>> {
    seq(|ps|, i requires 0 <= i < |ps| => [x] + ps[i])
  }

  /** `itertools.permutations`. */
  function Permutations(xs: seq<string>): seq<seq<string>>
    decreases |xs|, |xs| + 1
  {
    if xs == [] then [[]] else PermutationsFrom(xs, 0)
  }

  function PermutationsFrom(xs: seq<string>, i: nat): seq<seq<string>>
    requires i <= |xs|
    decreases |xs|, |xs| - i
  {
    if i == |xs| then [] else Prepend(xs[i], Permutations(Without(xs, i))) + PermutationsFrom(xs, i + 1)
  }

  lemma InPrepend(x: string, ps: seq<seq<string>>, p: seq<string>)
    ensures p in Prepend(x, ps) <==> p != [] && p[0] == x && p[1..] in ps
  {
    var r := Prepend(x, ps);
    if p in r {
      var i :| 0 <= i < |r| && r[i] == p;
      assert p[1..] == ps[i];
    }
    if p != [] && p[0] == x && p[1..] in ps {
      var i :| 0 <= i < |ps| && ps[i] == p[1..];
      assert r[i] == [x] + p[1..] == p;
    }
  }

  /** A rearrangement of `xs` that starts with its `j`-th element. */
  ghost predicate StartsAt(xs: seq<string>, j: nat, p: seq<string>)
    requires j < |xs|
  {
    p != [] && p[0] == xs[j] && multiset(p[1..]) == multiset(Without(xs, j))
  }

  lemma StartsAtRearranges(xs: seq<string>, j: nat, p: seq<string>)
    requires j < |xs| && StartsAt(xs, j, p)
    ensures multiset(p) == multiset(xs)
  {
    hide Without;
    WithoutMultiset(xs, j);
    assert p == [p[0]] + p[1..];
  }

  lemma RearrangementStarts(xs: seq<string>, p: seq<string>) returns (j: nat)
    requires xs != [] && multiset(p) == multiset(xs)
    ensures j < |xs| && StartsAt(xs, j, p)
  {
    hide Without;
    SameElements(p, xs);
    assert p[0] in xs;
    j :| 0 <= j < |xs| && xs[j] == p[0];
    WithoutMultiset(xs, j);
    assert p == [p[0]] + p[1..];
  }

  lemma StartsSomewhere(xs: seq<string>, p: seq<string>)
    requires xs != []
    ensures multiset(p) == multiset(xs) <==> StartsFrom(xs, 0, p)
  {
    hide StartsAt, Without;
    if multiset(p) == multiset(xs) {
      var j := RearrangementStarts(xs, p);
    }
    if j :| 0 <= j < |xs| && StartsAt(xs, j, p) {
      StartsAtRearranges(xs, j, p);
    }
  }

  /** The permutations are exactly the rearrangements. */
  lemma {:induction false} PermutationsExact(xs: seq<string>, p: seq<string>)
    ensures p in Permutations(xs) <==> multiset(p) == multiset(xs)
    decreases |xs|, |xs| + 1
  {
    hide StartsAt, StartsFrom, Without, Prepend;
    if xs == [] {
      SameSizeEmpty(p);
    } else {
      PermutationsFromExact(xs, 0, p);
      StartsSomewhere(xs, p);
    }
  }

  lemma SameSizeEmpty(p: seq<string>)
    ensures multiset(p) == multiset{} <==> p == []
  {
    if p != [] {
      assert p[0] in multiset(p);
    }
  }

  lemma {:induction false} PermutationsFromExact(xs: seq<string>, i: nat, p: seq<string>)
    requires i <= |xs|
    ensures p in PermutationsFrom(xs, i) <==> StartsFrom(xs, i, p)
    decreases |xs|, |xs| - i
  {
    hide Without, Prepend, Permutations, StartsAt, StartsFrom;
    StartsFromSplit(xs, i, p);
    if i < |xs| {
      PermutationsFromExact(xs, i + 1, p);
      WithoutShorter(xs, i);
      if p != [] {
        PermutationsExact(Without(xs, i), p[1..]);
      }
      PrependExact(xs, i, Permutations(Without(xs, i)), p);
    }
  }

  /** A rearrangement of `xs` that starts with an element at `i` or later. */
  ghost predicate StartsFrom(xs: seq<string>, i: nat, p: seq<string>) {
    exists j :: i <= j < |xs| && StartsAt(xs, j, p)
  }

  lemma StartsFromSplit(xs: seq<string>, i: nat, p: seq<string>)
    requires i <= |xs|
    ensures StartsFrom(xs, i, p) <==> i < |xs| && (StartsAt(xs, i, p) || StartsFrom(xs, i + 1, p))
  {
    hide StartsAt;
  }

  lemma PrependExact(xs: seq<string>, i: nat, ps: seq<seq<string>>, p: seq<string>)
    requires i < |xs|
    requires p != [] ==> (p[1..] in ps <==> multiset(p[1..]) == multiset(Without(xs, i)))
    ensures p in Prepend(xs[i], ps) <==> StartsAt(xs, i, p)
  {
    hide Without, Prepend;
    InPrepend(xs[i], ps, p);
  }

  lemma WithoutShorter(xs: seq<string>, i: nat)
    requires i < |xs|
    ensures |Without(xs, i)| == |xs| - 1
  {
  }

  // ---- Mappings ----

  /** `dict(zip(names, permutation))`. */
  function Zip(names: seq<string>, perm: seq<string>): Renaming
    requires |names| == |perm|
  {
    if names == [] then map[]
    else
      var n := |names| - 1;
      Zip(names[..n], perm[..n])[names[n] := perm[n]]
  }

  lemma {:induction false} ZipExact(names: seq<string>, perm: seq<string>)
    requires |names| == |perm| && NoDuplicates(names)
    ensures Zip(names, perm).Keys == set v | v in names
    ensures forall i :: 0 <= i < |names| ==> names[i] in Zip(names, perm) && Zip(names, perm)[names[i]] == perm[i]
  {
    if names != [] {
      var n := |names| - 1;
      ZipExact(names[..n], perm[..n]);
      assert names == names[..n] + [names[n]];
      forall i | 0 <= i < n ensures names[i] != names[n] && names[..n][i] == names[i] {
      }
    }
  }

  lemma ZipInjective(names: seq<string>, perm: seq<string>)
    requires |names| == |perm| && NoDuplicates(names) && NoDuplicates(perm)
    ensures InjectiveRenaming(Zip(names, perm))
  {
    ZipExact(names, perm);
    var m := Zip(names, perm);
    forall v, w | v in m && w in m && m[v] == m[w] ensures v == w {
      var i :| 0 <= i < |names| && names[i] == v;
      var j :| 0 <= j < |names| && names[j] == w;
      assert perm[i] == perm[j];
      assert !(i < j) && !(j < i);
    }
  }

  function NamesOf(rule: Rule): seq<string> {
    SortBy(seq(|rule.variables|, i requires 0 <= i < |rule.variables| => rule.variables[i].name), STRING_KEY)
  }

  /** The declared names cover the rule and none repeats, as in every valid theory. */
  ghost predicate WellNamed(rule: Rule) {
    && DistinctIds(rule.variables, VARIABLE_NAME)
    && forall v :: v in BodyVars(rule.body) + Vars(rule.head) ==> exists d :: d in rule.variables && d.name == v
  }

  lemma NamesExact(rule: Rule)
    requires WellNamed(rule)
    ensures NoDuplicates(NamesOf(rule)) && |NamesOf(rule)| == |rule.variables|
    ensures forall v :: v in NamesOf(rule) <==> exists d :: d in rule.variables && d.name == v
  {
    hide Leq;
    var raw := seq(|rule.variables|, i requires 0 <= i < |rule.variables| => rule.variables[i].name);
    forall i, j | 0 <= i < j < |raw| ensures raw[i] != raw[j] {
      assert VARIABLE_NAME(rule.variables[i]) != VARIABLE_NAME(rule.variables[j]);
    }
    SortByMultiset(raw, STRING_KEY);
    SortByStrict(raw, STRING_KEY);
    StrictlySortedDistinct(SortBy(raw, STRING_KEY), STRING_KEY);
    forall v | v in NamesOf(rule) ensures exists d :: d in rule.variables && d.name == v {
      var i :| 0 <= i < |raw| && raw[i] == v;
      assert rule.variables[i] in rule.variables;
    }
    forall d | d in rule.variables ensures d.name in NamesOf(rule) {
      var i :| 0 <= i < |rule.variables| && rule.variables[i] == d;
      assert raw[i] == d.name;
    }
  }

  /** The name assignments tried for a rule: all of them up to seven variables, one beyond. */
  function Assignments(rule: Rule): seq<seq<string>> {
    var names := NamesOf(rule);
    if |names| <= 7 then Permutations(CanonicalNames(|names|)) else [CanonicalNames(|names|)]
  }

  lemma AssignmentsExact(rule: Rule)
    ensures forall p :: p in Assignments(rule) ==> |p| == |NamesOf(rule)| && NoDuplicates(p)
    ensures |NamesOf(rule)| <= 7 ==>
              forall p :: p in Assignments(rule) <==> multiset(p) == multiset(CanonicalNames(|NamesOf(rule)|))
    ensures CanonicalNames(|NamesOf(rule)|) in Assignments(rule)
  {
    var names := CanonicalNames(|NamesOf(rule)|);
    CanonicalNamesDistinct(|NamesOf(rule)|);
    PermutationsExact(names, names);
    forall p | p in Assignments(rule) ensures |p| == |names| && NoDuplicates(p) {
      PermutationsExact(names, p);
      SameElements(p, names);
      PermutedDistinct(p, names);
    }
    forall p {
      PermutationsExact(names, p);
    }
  }

  /** The renaming of one assignment names the whole rule injectively. */
  lemma AssignmentNames(rule: Rule, p: seq<string>)
    requires WellNamed(rule) && p in Assignments(rule)
    ensures |p| == |NamesOf(rule)| && RuleNamed(rule, Zip(NamesOf(rule), p))
    ensures InjectiveRenaming(Zip(NamesOf(rule), p))
  {
    hide NamesOf, Assignments;
    AssignmentsExact(rule);
    NamesExact(rule);
    ZipExact(NamesOf(rule), p);
    ZipInjective(NamesOf(rule), p);
    forall v | v in BodyVars(rule.body) + Vars(rule.head) ensures v in NamesOf(rule) {
    }
    forall i | 0 <= i < |rule.body| ensures Vars(rule.body[i]) <= BodyVars(rule.body) {
      assert rule.body[i] in rule.body;
    }
  }

  ghost predicate NamedBy(rule: Rule, p: seq<string>) {
    |p| == |NamesOf(rule)| && RuleNamed(rule, Zip(NamesOf(rule), p))
  }

  ghost function ShapeBy(rule: Rule, p: seq<string>): Shape
    requires NamedBy(rule, p)
  {
    MappedRule(rule, Zip(NamesOf(rule), p))
  }

  /** The shape of the rule under one assignment of canonical names. */
  ghost predicate IsCandidate(rule: Rule, shape: Shape) {
    exists p :: p in Assignments(rule) && NamedBy(rule, p) && shape == ShapeBy(rule, p)
  }

  /** The key is the least text of a candidate shape. */
  ghost predicate IsRuleKey(dumps: Dumps, rule: Rule, key: string) {
    && (exists shape :: IsCandidate(rule, shape) && key == dumps(shape))
    && (forall shape :: IsCandidate(rule, shape) ==> Leq(Str(key), Str(dumps(shape))))
  }

  /** `canonical_rule_key`. */
  method CanonicalRuleKey(dumps: Dumps, rule: Rule) returns (key: string)
    requires WellNamed(rule)
    ensures IsRuleKey(dumps, rule, key)
  {
    hide Leq, NamesOf, Assignments, MappedRule, RuleNamed, Zip, WellNamed;
    var names := NamesOf(rule);
    var assignments := Assignments(rule);
    AssignmentsExact(rule);
    var candidates: seq<string> := [];
    for n := 0 to |assignments|
      invariant |candidates| == n
      invariant forall j :: 0 <= j < n ==>
          NamedBy(rule, assignments[j]) && candidates[j] == dumps(ShapeBy(rule, assignments[j]))
    {
      assert assignments[n] in assignments;
      AssignmentNames(rule, assignments[n]);
      var shape := ShapeUnder(rule, Zip(names, assignments[n]));
      candidates := candidates + [dumps(shape)];
    }
    assert |assignments| > 0;
    assert candidates[0] in candidates;
    var texts := set c | c in candidates;
    assert candidates[0] in texts;
    key := FirstString(texts);
    LeastCandidate(dumps, rule, assignments, candidates, key);
  }

  lemma LeastCandidate(dumps: Dumps, rule: Rule, assignments: seq<seq<string>>, candidates: seq<string>, key: string)
    requires assignments == Assignments(rule) && |candidates| == |assignments|
    requires forall j :: 0 <= j < |candidates| ==>
        NamedBy(rule, assignments[j]) && candidates[j] == dumps(ShapeBy(rule, assignments[j]))
    requires key in candidates && forall c :: c in candidates ==> Leq(Str(key), Str(c))
    ensures IsRuleKey(dumps, rule, key)
  {
    hide Leq, NamedBy, ShapeBy, Assignments;
    var j :| 0 <= j < |candidates| && candidates[j] == key;
    assert IsCandidate(rule, ShapeBy(rule, assignments[j]));
    forall shape | IsCandidate(rule, shape) ensures Leq(Str(key), Str(dumps(shape))) {
      var p :| p in assignments && NamedBy(rule, p) && shape == ShapeBy(rule, p);
      var m :| 0 <= m < |assignments| && assignments[m] == p;
      assert candidates[m] in candidates;
    }
  }

  /** The body and head of one candidate, built literal by literal. */
  method ShapeUnder(rule: Rule, mapping: Renaming) returns (shape: Shape)
    requires RuleNamed(rule, mapping)
    ensures shape == MappedRule(rule, mapping)
  {
    var body: seq<LiteralShape> := [];
    for i := 0 to |rule.body|
      invariant |body| == i && forall j :: 0 <= j < i ==> body[j] == MapLiteral(rule.body[j], mapping)
    {
      body := body + [MapLiteral(rule.body[i], mapping)];
    }
    assert body == MapBody(rule.body, mapping);
    shape := RuleShape(SortBy(body, ShapeKey), MapLiteral(rule.head, mapping));
  }

  // ---- Equal keys mean the same rule up to the names of its variables ----

  /** Two injective renamings onto the same shape. */
  ghost predicate SameShape(r: Rule, q: Rule, m: Renaming, n: Renaming) {
    && InjectiveRenaming(m) && InjectiveRenaming(n) && RuleNamed(r, m) && RuleNamed(q, n)
    && multiset(MapBody(r.body, m)) == multiset(MapBody(q.body, n))
    && MapLiteral(r.head, m) == MapLiteral(q.head, n)
  }

  /** The two rules differ only by the names of their variables and the order of their bodies. */
  ghost predicate AlphaEquivalent(r: Rule, q: Rule) {
    exists m, n :: SameShape(r, q, m, n)
  }

  lemma KeyWitness(dumps: Dumps, rule: Rule, key: string) returns (m: Renaming)
    requires WellNamed(rule) && IsRuleKey(dumps, rule, key)
    ensures InjectiveRenaming(m) && RuleNamed(rule, m) && key == dumps(MappedRule(rule, m))
  {
    hide Leq, NamesOf, Assignments, MappedRule, Zip;
    var shape :| IsCandidate(rule, shape) && key == dumps(shape);
    var p :| p in Assignments(rule) && NamedBy(rule, p) && shape == ShapeBy(rule, p);
    AssignmentNames(rule, p);
    m := Zip(NamesOf(rule), p);
  }

  /** Equal keys come from renamings onto one shape. */
  lemma EqualKeysSameShape(dumps: Dumps, r: Rule, q: Rule, key: string) returns (m: Renaming, n: Renaming)
    requires InjectiveDumps(dumps) && WellNamed(r) && WellNamed(q)
    requires IsRuleKey(dumps, r, key) && IsRuleKey(dumps, q, key)
    ensures SameShape(r, q, m, n)
  {
    hide Leq, IsRuleKey, WellNamed, MapBody, MapLiteral;
    m := KeyWitness(dumps, r, key);
    n := KeyWitness(dumps, q, key);
    assert MappedRule(r, m) == MappedRule(q, n);
    SortByMultiset(MapBody(r.body, m), ShapeKey);
    SortByMultiset(MapBody(q.body, n), ShapeKey);
  }

  /** Rules with equal keys are equivalent up to renaming, however many variables they declare. */
  lemma EqualKeysAlphaEquivalent(dumps: Dumps, r: Rule, q: Rule, key: string)
    requires InjectiveDumps(dumps) && WellNamed(r) && WellNamed(q)
    requires IsRuleKey(dumps, r, key) && IsRuleKey(dumps, q, key)
    ensures AlphaEquivalent(r, q)
  {
    hide IsRuleKey, WellNamed, SameShape, InjectiveDumps;
    var m, n := EqualKeysSameShape(dumps, r, q, key);
  }

  // ---- Renamed rules have equal keys ----

  ghost function Identity(vars: set<string>): Renaming {
    map v | v in vars :: v
  }

  ghost function DeclaredNames(rule: Rule): set<string> {
    set v | v in NamesOf(rule)
  }

  /** `rho` renames the declared variables of `r` one-to-one onto those of `q`, and turns the body of
      `r` into the body of `q` in some order, and the head into the head. */
  ghost predicate Renamed(r: Rule, q: Rule, rho: Renaming) {
    && rho.Keys == DeclaredNames(r) && rho.Values == DeclaredNames(q) && InjectiveRenaming(rho)
    && RuleNamed(r, rho) && RuleNamed(q, Identity(DeclaredNames(q)))
    && multiset(MapBody(r.body, rho)) == multiset(MapBody(q.body, Identity(DeclaredNames(q))))
    && MapLiteral(r.head, rho) == MapLiteral(q.head, Identity(DeclaredNames(q)))
  }

  ghost predicate ShapeNamed(l: LiteralShape, m: Renaming) {
    forall i :: 0 <= i < |l.arguments| && l.arguments[i].VariableTerm? ==> l.arguments[i].name in m
  }

  ghost function MapShape(l: LiteralShape, m: Renaming): LiteralShape
    requires ShapeNamed(l, m)
  {
    LiteralShape(l.pred, l.negated, seq(|l.arguments|, i requires 0 <= i < |l.arguments| => MapTerm(l.arguments[i], m)))
  }

  ghost function Compose(rho: Renaming, m: Renaming): Renaming
    requires rho.Values <= m.Keys
  {
    map v | v in rho :: assert rho[v] in rho.Values; m[rho[v]]
  }

  lemma MapTwice(l: RuleLiteral, rho: Renaming, m: Renaming)
    requires Vars(l) <= rho.Keys && rho.Values <= m.Keys
    ensures ShapeNamed(MapLiteral(l, rho), m) && Vars(l) <= Compose(rho, m).Keys
    ensures MapShape(MapLiteral(l, rho), m) == MapLiteral(l, Compose(rho, m))
  {
    forall i | 0 <= i < |l.arguments| && l.arguments[i].VariableTerm? ensures rho[l.arguments[i].name] in m {
      assert rho[l.arguments[i].name] in rho.Values;
    }
    assert MapShape(MapLiteral(l, rho), m).arguments == MapLiteral(l, Compose(rho, m)).arguments;
  }

  ghost predicate AllNamed(ls: seq<LiteralShape>, m: Renaming) {
    forall i :: 0 <= i < |ls| ==> ShapeNamed(ls[i], m)
  }

  ghost function MapShapes(ls: seq<LiteralShape>, m: Renaming): seq<LiteralShape>
    requires AllNamed(ls, m)
  {
    if ls == [] then [] else assert AllNamed(ls[1..], m); [MapShape(ls[0], m)] + MapShapes(ls[1..], m)
  }

  lemma {:induction false} MapShapesAt(ls: seq<LiteralShape>, m: Renaming)
    requires AllNamed(ls, m)
    ensures |MapShapes(ls, m)| == |ls| && forall i :: 0 <= i < |ls| ==> MapShapes(ls, m)[i] == MapShape(ls[i], m)
  {
    if ls != [] {
      MapShapesAt(ls[1..], m);
    }
  }

  /** Taking one shape out before or after mapping is the same. */
  lemma MapShapesDropped(xs: seq<LiteralShape>, i: nat, m: Renaming)
    requires i < |xs| && AllNamed(xs, m)
    ensures AllNamed(Without(xs, i), m)
    ensures multiset(MapShapes(xs, m)) == multiset(MapShapes(Without(xs, i), m)) + multiset{MapShape(xs[i], m)}
  {
    hide MapShape, ShapeNamed, MapShapes;
    var rest := Without(xs, i);
    MapShapesAt(xs, m);
    MapShapesAt(rest, m);
    assert MapShapes(rest, m) == Without(MapShapes(xs, m), i);
    WithoutMultiset(MapShapes(xs, m), i);
  }

  lemma SameAfterDropping(xs: seq<LiteralShape>, ys: seq<LiteralShape>) returns (i: nat)
    requires multiset(xs) == multiset(ys) && xs != []
    ensures i < |ys| && ys[i] == xs[0] && multiset(xs[1..]) == multiset(Without(ys, i))
  {
    hide Without;
    SameElements(xs, ys);
    assert xs[0] in ys;
    i :| 0 <= i < |ys| && ys[i] == xs[0];
    WithoutMultiset(ys, i);
    assert xs == [xs[0]] + xs[1..];
    assert multiset(xs[1..]) == multiset(xs) - multiset{xs[0]};
    assert multiset(Without(ys, i)) == multiset(ys) - multiset{ys[i]};
  }

  /** Mapping two arrangements of the same shapes gives two arrangements of the same shapes. */
  lemma {:induction false} MapShapesMultiset(xs: seq<LiteralShape>, ys: seq<LiteralShape>, m: Renaming)
    requires multiset(xs) == multiset(ys) && AllNamed(xs, m) && AllNamed(ys, m)
    ensures multiset(MapShapes(xs, m)) == multiset(MapShapes(ys, m))
  {
    hide MapShape, ShapeNamed, Without;
    SameElements(xs, ys);
    if xs != [] {
      var i := SameAfterDropping(xs, ys);
      MapShapesDropped(ys, i, m);
      MapShapesMultiset(xs[1..], Without(ys, i), m);
    }
  }

  lemma MapBodyTwice(body: seq<RuleLiteral>, rho: Renaming, m: Renaming)
    requires BodyNamed(body, rho) && rho.Values <= m.Keys
    ensures AllNamed(MapBody(body, rho), m) && BodyNamed(body, Compose(rho, m))
    ensures MapShapes(MapBody(body, rho), m) == MapBody(body, Compose(rho, m))
  {
    hide MapLiteral, MapShape, Compose;
    var b := MapBody(body, rho);
    forall i | 0 <= i < |b| ensures ShapeNamed(b[i], m) && Vars(body[i]) <= Compose(rho, m).Keys {
      MapTwice(body[i], rho, m);
    }
    MapShapesAt(b, m);
    forall i | 0 <= i < |b| ensures MapShapes(b, m)[i] == MapBody(body, Compose(rho, m))[i] {
      MapTwice(body[i], rho, m);
    }
  }

  /** Renaming through `rho` and then through `m` is renaming through their composition, on both rules. */
  lemma RenamedThenMapped(r: Rule, q: Rule, rho: Renaming, m: Renaming)
    requires Renamed(r, q, rho) && m.Keys == DeclaredNames(q)
    ensures RuleNamed(r, Compose(rho, m)) && RuleNamed(q, m)
    ensures multiset(MapBody(r.body, Compose(rho, m))) == multiset(MapBody(q.body, m))
    ensures MapLiteral(r.head, Compose(rho, m)) == MapLiteral(q.head, m)
  {
    hide MapBody, MapLiteral, MapShape, NamesOf, MapShapes;
    var id := Identity(DeclaredNames(q));
    assert Compose(id, m) == m;
    MapBodyTwice(r.body, rho, m);
    MapBodyTwice(q.body, id, m);
    MapShapesMultiset(MapBody(r.body, rho), MapBody(q.body, id), m);
    MapTwice(r.head, rho, m);
    MapTwice(q.head, id, m);
  }

  /** Each candidate of `q` is a candidate of `r`. */
  lemma CandidateFromRenamed(r: Rule, q: Rule, rho: Renaming, shape: Shape)
    requires WellNamed(r) && WellNamed(q) && Renamed(r, q, rho) && |NamesOf(r)| == |NamesOf(q)| <= 7
    requires IsCandidate(q, shape)
    ensures IsCandidate(r, shape)
  {
    hide MapBody, MapLiteral, NamesOf, Assignments, CanonicalNames, Renamed, WellNamed, Leq, Permutations;
    var p :| p in Assignments(q) && NamedBy(q, p) && shape == ShapeBy(q, p);
    var n := |NamesOf(q)|;
    NamesExact(r);
    NamesExact(q);
    AssignmentsExact(q);
    AssignmentsExact(r);
    var m := Zip(NamesOf(q), p);
    ZipExact(NamesOf(q), p);
    RenamedFacts(r, q, rho);
    RenamedThenMapped(r, q, rho, m);
    var p1 := Pulled(NamesOf(r), rho, m);
    PulledPermutes(NamesOf(r), NamesOf(q), rho, p, m);
    assert Zip(NamesOf(r), p1) == Compose(rho, m) by {
      PulledZip(NamesOf(r), rho, m);
    }
    SortedShapes(MapBody(r.body, Compose(rho, m)), MapBody(q.body, m));
    assert NamedBy(r, p1) && ShapeBy(r, p1) == shape;
  }

  lemma RenamedFacts(r: Rule, q: Rule, rho: Renaming)
    requires Renamed(r, q, rho)
    ensures rho.Keys == DeclaredNames(r) && rho.Values == DeclaredNames(q) && InjectiveRenaming(rho)
  {
    hide MapBody, MapLiteral;
  }

  lemma SortedShapes(a: seq<LiteralShape>, b: seq<LiteralShape>)
    requires multiset(a) == multiset(b)
    ensures SortBy(a, ShapeKey) == SortBy(b, ShapeKey)
  {
    ShapeKeysInjective();
    SortByOrderFree(a, b, ShapeKey);
  }

  /** The assignment of `r`'s names that follows `rho` and then `m`. */
  ghost function Pulled(names: seq<string>, rho: Renaming, m: Renaming): seq<string>
    requires (forall v :: v in names ==> v in rho) && rho.Values <= m.Keys
  {
    seq(|names|, i requires 0 <= i < |names| =>
      assert names[i] in names;
      assert rho[names[i]] in rho.Values;
      m[rho[names[i]]])
  }

  lemma PulledZip(names: seq<string>, rho: Renaming, m: Renaming)
    requires NoDuplicates(names) && rho.Keys == (set v | v in names) && rho.Values <= m.Keys
    ensures Zip(names, Pulled(names, rho, m)) == Compose(rho, m)
  {
    var p := Pulled(names, rho, m);
    ZipExact(names, p);
    forall v | v in rho ensures Zip(names, p)[v] == Compose(rho, m)[v] {
      var i :| 0 <= i < |names| && names[i] == v;
    }
  }

  lemma PulledDistinct(names: seq<string>, rho: Renaming, m: Renaming)
    requires NoDuplicates(names) && rho.Keys == (set v | v in names) && rho.Values <= m.Keys
    requires InjectiveRenaming(rho) && InjectiveRenaming(m)
    ensures NoDuplicates(Pulled(names, rho, m))
  {
    var pulled := Pulled(names, rho, m);
    forall i, j | 0 <= i < j < |pulled| ensures pulled[i] != pulled[j] {
      assert names[i] in names && names[j] in names && names[i] != names[j];
      assert rho[names[i]] in rho.Values && rho[names[j]] in rho.Values;
    }
  }

  lemma PulledWithin(names: seq<string>, others: seq<string>, rho: Renaming, p: seq<string>, m: Renaming, i: nat)
    requires NoDuplicates(others) && |others| == |p| && m == Zip(others, p) && rho.Values <= m.Keys
    requires rho.Keys == (set v | v in names) && rho.Values == (set v | v in others) && i < |names|
    ensures Pulled(names, rho, m)[i] in p
  {
    hide Zip;
    ZipExact(others, p);
    assert names[i] in names;
    assert rho[names[i]] in rho.Values;
    var j :| 0 <= j < |others| && others[j] == rho[names[i]];
    assert p[j] in p;
  }

  lemma PulledPermutes(names: seq<string>, others: seq<string>, rho: Renaming, p: seq<string>, m: Renaming)
    requires NoDuplicates(names) && NoDuplicates(others) && NoDuplicates(p) && |names| == |others| == |p|
    requires rho.Keys == (set v | v in names) && rho.Values == (set v | v in others) && InjectiveRenaming(rho)
    requires m == Zip(others, p)
    ensures rho.Values <= m.Keys && multiset(Pulled(names, rho, m)) == multiset(p)
  {
    hide Zip, Pulled, InjectiveRenaming, NoDuplicates;
    ZipExact(others, p);
    ZipInjective(others, p);
    PulledDistinct(names, rho, m);
    PulledLength(names, rho, m);
    var pulled := Pulled(names, rho, m);
    forall x | x in pulled ensures x in p {
      var i :| 0 <= i < |pulled| && pulled[i] == x;
      PulledWithin(names, others, rho, p, m, i);
    }
    SameSizeSubset(pulled, p);
  }

  lemma PulledLength(names: seq<string>, rho: Renaming, m: Renaming)
    requires (forall v :: v in names ==> v in rho) && rho.Values <= m.Keys
    ensures |Pulled(names, rho, m)| == |names|
  {
  }

  lemma SameSizeSubset(a: seq<string>, b: seq<string>)
    requires NoDuplicates(a) && NoDuplicates(b) && |a| == |b| && forall x :: x in a ==> x in b
    ensures multiset(a) == multiset(b)
  {
    NoDuplicatesSize(a);
    NoDuplicatesSize(b);
    var sa, sb := set x | x in a, set x | x in b;
    SubsetSize(sa, sb);
    assert sa == sb;
    forall x ensures x in a <==> x in b {
      assert x in sa <==> x in sb;
    }
    NoDuplicatesMultiset(a, b);
  }

  ghost function Inverse(rho: Renaming): Renaming
    requires InjectiveRenaming(rho)
  {
    map v | v in rho :: rho[v] := v
  }

  lemma InverseFacts(rho: Renaming)
    requires InjectiveRenaming(rho)
    ensures Inverse(rho).Keys == rho.Values && Inverse(rho).Values == rho.Keys && InjectiveRenaming(Inverse(rho))
    ensures Compose(rho, Inverse(rho)) == Identity(rho.Keys)
  {
    var inv := Inverse(rho);
    forall v | v in rho ensures rho[v] in inv && inv[rho[v]] == v && v in inv.Values {
      assert rho[v] in inv;
    }
    assert inv.Keys == rho.Values;
    assert inv.Values == rho.Keys;
  }

  lemma RenamedBack(r: Rule, q: Rule, rho: Renaming)
    requires Renamed(r, q, rho)
    ensures InjectiveRenaming(rho) && Renamed(q, r, Inverse(rho))
  {
    hide MapBody, MapLiteral, NamesOf;
    InverseFacts(rho);
    RenamedThenMapped(r, q, rho, Inverse(rho));
  }

  /** Up to seven variables, a one-to-one renaming of the declared variables and a reordering of the
      body leave the key unchanged. */
  lemma RenamedRulesEqualKeys(dumps: Dumps, r: Rule, q: Rule, rho: Renaming, kr: string, kq: string)
    requires WellNamed(r) && WellNamed(q) && Renamed(r, q, rho) && |NamesOf(r)| == |NamesOf(q)| <= 7
    requires IsRuleKey(dumps, r, kr) && IsRuleKey(dumps, q, kq)
    ensures kr == kq
  {
    hide Renamed, WellNamed, NamesOf, IsCandidate, Leq;
    var sr :| IsCandidate(r, sr) && kr == dumps(sr);
    var sq :| IsCandidate(q, sq) && kq == dumps(sq);
    RenamedBack(r, q, rho);
    CandidateFromRenamed(r, q, rho, sq);
    CandidateFromRenamed(q, r, Inverse(rho), sr);
    Antisymmetric(Str(kr), Str(kq));
  }

  // ---- Renamed rules derive the same literals ----

  /** Grounding a shape whose variables are the canonical ones. */
  ghost predicate ShapeGrounds(l: LiteralShape, s: Subst, c: CanonicalLiteral) {
    && l.pred == c.pred && l.negated == c.negated && |l.arguments| == |c.arguments|
    && forall i :: 0 <= i < |l.arguments| ==>
         match l.arguments[i]
         case EntityTerm(id) => c.arguments[i] == id
         case VariableTerm(v) => v in s && c.arguments[i] == s[v]
  }

  /** The substitution on canonical names that corresponds to `s` through the renaming. */
  ghost function Push(s: Subst, m: Renaming): Subst
    requires InjectiveRenaming(m)
  {
    map v | v in s.Keys && v in m :: m[v] := s[v]
  }

  lemma PushAt(s: Subst, m: Renaming, v: string)
    requires InjectiveRenaming(m) && v in s && v in m
    ensures m[v] in Push(s, m) && Push(s, m)[m[v]] == s[v]
  {
  }

  lemma MapLiteralGrounds(l: RuleLiteral, m: Renaming, s: Subst)
    requires InjectiveRenaming(m) && Vars(l) <= m.Keys && Vars(l) <= s.Keys
    ensures ShapeGrounds(MapLiteral(l, m), Push(s, m), Ground(l, s))
  {
    var shape, c := MapLiteral(l, m), Ground(l, s);
    forall i | 0 <= i < |shape.arguments|
      ensures match shape.arguments[i]
              case EntityTerm(id) => c.arguments[i] == id
              case VariableTerm(v) => v in Push(s, m) && c.arguments[i] == Push(s, m)[v]
    {
      if l.arguments[i].VariableTerm? {
        PushAt(s, m, l.arguments[i].name);
      }
    }
  }

  lemma ShapeGroundsOnce(l: LiteralShape, s: Subst, c: CanonicalLiteral, d: CanonicalLiteral)
    requires ShapeGrounds(l, s, c) && ShapeGrounds(l, s, d)
    ensures c == d
  {
    assert c.arguments == d.arguments;
  }

  /** The substitution that gives the variables of `q` the values of the variables of `r` they match. */
  ghost function Transfer(s: Subst, m: Renaming, n: Renaming, vars: set<string>): Subst
    requires InjectiveRenaming(m) && forall v :: v in vars ==> v in n && n[v] in Push(s, m)
  {
    map v | v in vars :: Push(s, m)[n[v]]
  }

  lemma ShapeVariables(l: RuleLiteral, n: Renaming, v: string)
    requires Vars(l) <= n.Keys && v in Vars(l)
    ensures exists i :: 0 <= i < |l.arguments| && MapLiteral(l, n).arguments[i] == VariableTerm(n[v])
  {
    var i :| 0 <= i < |l.arguments| && l.arguments[i].VariableTerm? && l.arguments[i].name == v;
    assert MapLiteral(l, n).arguments[i] == VariableTerm(n[v]);
  }

  /** A body literal of `q` has a partner in `r` with the same shape. */
  lemma PartnerLiteral(r: Rule, q: Rule, m: Renaming, n: Renaming, b: RuleLiteral) returns (a: RuleLiteral)
    requires SameShape(r, q, m, n) && b in q.body
    ensures a in r.body && Vars(a) <= m.Keys && Vars(b) <= n.Keys && MapLiteral(a, m) == MapLiteral(b, n)
  {
    hide MapLiteral;
    var j :| 0 <= j < |q.body| && q.body[j] == b;
    SameElements(MapBody(r.body, m), MapBody(q.body, n));
    assert MapBody(q.body, n)[j] in MapBody(q.body, n);
    var i :| 0 <= i < |r.body| && MapBody(r.body, m)[i] == MapBody(q.body, n)[j];
    a := r.body[i];
  }

  /** Every variable of a body literal of `q` gets a value from `s`. */
  lemma VariableCovered(r: Rule, q: Rule, m: Renaming, n: Renaming, s: Subst, b: RuleLiteral, v: string)
    requires SameShape(r, q, m, n) && s.Keys == BodyVars(r.body) && b in q.body && v in Vars(b)
    ensures v in n && n[v] in Push(s, m)
  {
    hide MapBody, SameShape;
    SameShapeInjective(r, q, m, n);
    var a := PartnerLiteral(r, q, m, n, b);
    ShapeVariables(b, n, v);
    var i :| 0 <= i < |b.arguments| && MapLiteral(b, n).arguments[i] == VariableTerm(n[v]);
    assert MapLiteral(a, m).arguments[i] == VariableTerm(n[v]);
    assert a.arguments[i].VariableTerm? && m[a.arguments[i].name] == n[v];
    assert a.arguments[i].name in Vars(a);
    assert a.arguments[i].name in BodyVars(r.body);
    PushAt(s, m, a.arguments[i].name);
  }

  lemma SameShapeInjective(r: Rule, q: Rule, m: Renaming, n: Renaming)
    requires SameShape(r, q, m, n)
    ensures InjectiveRenaming(m) && InjectiveRenaming(n)
  {
  }

  /** A match of `r` becomes a match of `q` with the same conclusion. */
  lemma TransferMatch(r: Rule, q: Rule, m: Renaming, n: Renaming, s: Subst, known: set<CanonicalLiteral>)
    returns (t: Subst)
    requires SameShape(r, q, m, n) && Matches(r.body, s, known) && RangeRestricted(r) && RangeRestricted(q)
    ensures Matches(q.body, t, known)
    ensures Vars(r.head) <= s.Keys && Vars(q.head) <= t.Keys && Ground(q.head, t) == Ground(r.head, s)
  {
    hide MapBody, MapLiteral, SameShape, ShapeGrounds;
    SameShapeInjective(r, q, m, n);
    forall v | v in BodyVars(q.body) ensures v in n && n[v] in Push(s, m) {
      var b :| b in q.body && v in Vars(b);
      VariableCovered(r, q, m, n, s, b, v);
    }
    t := Transfer(s, m, n, BodyVars(q.body));
    forall b | b in q.body ensures Vars(b) <= t.Keys && Ground(b, t) in known {
      var a := PartnerLiteral(r, q, m, n, b);
      SameGround(a, b, m, n, s, t);
    }
    HeadShapes(r, q, m, n);
    SameGround(r.head, q.head, m, n, s, t);
  }

  lemma HeadShapes(r: Rule, q: Rule, m: Renaming, n: Renaming)
    requires SameShape(r, q, m, n)
    ensures Vars(r.head) <= m.Keys && Vars(q.head) <= n.Keys && MapLiteral(r.head, m) == MapLiteral(q.head, n)
  {
  }

  lemma SameGround(a: RuleLiteral, b: RuleLiteral, m: Renaming, n: Renaming, s: Subst, t: Subst)
    requires InjectiveRenaming(m) && InjectiveRenaming(n)
    requires Vars(a) <= m.Keys && Vars(b) <= n.Keys && MapLiteral(a, m) == MapLiteral(b, n)
    requires Vars(a) <= s.Keys && Vars(b) <= t.Keys
    requires forall v :: v in t ==> v in n && n[v] in Push(s, m) && t[v] == Push(s, m)[n[v]]
    ensures Ground(a, s) == Ground(b, t)
  {
    hide MapLiteral, ShapeGrounds;
    MapLiteralGrounds(a, m, s);
    MapLiteralGrounds(b, n, t);
    forall v | v in Push(t, n) ensures v in Push(s, m) && Push(s, m)[v] == Push(t, n)[v] {
      var w :| w in t && w in n && n[w] == v;
      PushAt(t, n, w);
    }
    ShapeGroundsLarger(MapLiteral(b, n), Push(t, n), Push(s, m), Ground(b, t));
    ShapeGroundsOnce(MapLiteral(a, m), Push(s, m), Ground(a, s), Ground(b, t));
  }

  lemma ShapeGroundsLarger(l: LiteralShape, s: Subst, t: Subst, c: CanonicalLiteral)
    requires ShapeGrounds(l, s, c) && forall v :: v in s ==> v in t && t[v] == s[v]
    ensures ShapeGrounds(l, t, c)
  {
  }

  /** Two rules with one shape have the same conclusions over any set of literals. */
  lemma SameShapeSameHeads(r: Rule, q: Rule, m: Renaming, n: Renaming, rules: seq<Rule>,
                           known: set<CanonicalLiteral>, s: Subst)
    requires SameShape(r, q, m, n) && Matches(r.body, s, known) && RangeRestricted(r) && RangeRestricted(q)
             && q in rules
    ensures Vars(r.head) <= s.Keys && Ground(r.head, s) in Heads(Instances(rules, known))
  {
    hide SameShape, Matches;
    var t := TransferMatch(r, q, m, n, s, known);
    InstancesExact(rules, known, q, t);
    assert Instance(q, t) in Instances(rules, known);
  }

  // ---- Equivalent rules are renamings of one another ----

  ghost predicate AgreeOn(m: Renaming, n: Renaming, vars: set<string>) {
    forall v :: v in vars ==> v in m && v in n && m[v] == n[v]
  }

  lemma MapLiteralAgree(l: RuleLiteral, m: Renaming, n: Renaming, vars: set<string>)
    requires AgreeOn(m, n, vars) && Vars(l) <= vars
    ensures Vars(l) <= m.Keys && Vars(l) <= n.Keys && MapLiteral(l, m) == MapLiteral(l, n)
  {
    forall v | v in Vars(l) ensures v in m && v in n && m[v] == n[v] {
    }
    forall i | 0 <= i < |l.arguments| ensures MapLiteral(l, m).arguments[i] == MapLiteral(l, n).arguments[i] {
      if l.arguments[i].VariableTerm? {
        assert l.arguments[i].name in Vars(l);
      }
    }
  }

  lemma MapRuleAgree(r: Rule, m: Renaming, n: Renaming)
    requires AgreeOn(m, n, UsedVars(r))
    ensures RuleNamed(r, m) && RuleNamed(r, n)
    ensures MapBody(r.body, m) == MapBody(r.body, n) && MapLiteral(r.head, m) == MapLiteral(r.head, n)
  {
    hide MapLiteral, AgreeOn;
    MapLiteralAgree(r.head, m, n, UsedVars(r));
    forall i | 0 <= i < |r.body|
      ensures Vars(r.body[i]) <= m.Keys && Vars(r.body[i]) <= n.Keys
      ensures MapLiteral(r.body[i], m) == MapLiteral(r.body[i], n)
    {
      assert r.body[i] in r.body;
      MapLiteralAgree(r.body[i], m, n, UsedVars(r));
    }
  }

  /** The names a literal's variables get occur in its partner too. */
  lemma PartnerNames(a: RuleLiteral, b: RuleLiteral, m: Renaming, n: Renaming, v: string) returns (w: string)
    requires Vars(a) <= m.Keys && Vars(b) <= n.Keys && MapLiteral(a, m) == MapLiteral(b, n) && v in Vars(b)
    ensures w in Vars(a) && m[w] == n[v]
  {
    ShapeVariables(b, n, v);
    var i :| 0 <= i < |b.arguments| && MapLiteral(b, n).arguments[i] == VariableTerm(n[v]);
    assert MapLiteral(a, m).arguments[i] == VariableTerm(n[v]);
    assert a.arguments[i].VariableTerm?;
    w := a.arguments[i].name;
  }

  lemma UsedNamed(r: Rule, m: Renaming)
    requires RuleNamed(r, m)
    ensures UsedVars(r) <= m.Keys && Restrict(m, UsedVars(r)).Keys == UsedVars(r)
    ensures AgreeOn(Restrict(m, UsedVars(r)), m, UsedVars(r))
  {
    forall v | v in BodyVars(r.body) ensures v in m {
      var b :| b in r.body && v in Vars(b);
      var i :| 0 <= i < |r.body| && r.body[i] == b;
    }
  }

  /** Both rules of one shape use the same canonical names. */
  lemma UsedValues(r: Rule, q: Rule, m: Renaming, n: Renaming)
    requires SameShape(r, q, m, n)
    ensures UsedVars(q) <= n.Keys && UsedVars(r) <= m.Keys
    ensures Restrict(n, UsedVars(q)).Values <= Restrict(m, UsedVars(r)).Values
  {
    hide MapLiteral, MapBody, SameShape;
    ShapeNamedBoth(r, q, m, n);
    UsedNamed(r, m);
    UsedNamed(q, n);
    forall x | x in Restrict(n, UsedVars(q)).Values ensures x in Restrict(m, UsedVars(r)).Values {
      var v :| v in n && v in UsedVars(q) && n[v] == x;
      var w := UsedPartner(r, q, m, n, v);
      assert w in Restrict(m, UsedVars(r)) && Restrict(m, UsedVars(r))[w] == x;
    }
  }

  lemma ShapeNamedBoth(r: Rule, q: Rule, m: Renaming, n: Renaming)
    requires SameShape(r, q, m, n)
    ensures RuleNamed(r, m) && RuleNamed(q, n) && SameShape(q, r, n, m)
  {
  }

  lemma UsedPartner(r: Rule, q: Rule, m: Renaming, n: Renaming, v: string) returns (w: string)
    requires SameShape(r, q, m, n) && v in n && v in UsedVars(q)
    ensures w in UsedVars(r) && w in m && m[w] == n[v]
  {
    hide MapLiteral, MapBody, SameShape;
    HeadShapes(r, q, m, n);
    if v in Vars(q.head) {
      w := PartnerNames(r.head, q.head, m, n, v);
    } else {
      var b :| b in q.body && v in Vars(b);
      var a := PartnerLiteral(r, q, m, n, b);
      w := PartnerNames(a, b, m, n, v);
    }
  }

  lemma {:induction false} Bijection(a: set<string>, b: set<string>) returns (rho: Renaming)
    requires |a| == |b|
    ensures rho.Keys == a && rho.Values == b && InjectiveRenaming(rho)
    decreases |a|
  {
    if a == {} {
      rho := map[];
    } else {
      var x :| x in a;
      var y :| y in b;
      var rest := Bijection(a - {x}, b - {y});
      rho := rest[x := y];
      assert rest.Keys == a - {x} && y !in rest.Values;
      BijectionStep(rest, x, y);
    }
  }

  lemma BijectionStep(rest: Renaming, x: string, y: string)
    requires InjectiveRenaming(rest) && x !in rest && y !in rest.Values
    ensures InjectiveRenaming(rest[x := y]) && rest[x := y].Keys == rest.Keys + {x}
    ensures rest[x := y].Values == rest.Values + {y}
  {
    var rho := rest[x := y];
    forall z | z in rest.Values ensures z in rho.Values {
      var v :| v in rest && rest[v] == z;
      assert rho[v] == z;
    }
    assert rho[x] == y;
    forall v, w | v in rho && w in rho && rho[v] == rho[w] ensures v == w {
      assert v != x ==> rest[v] in rest.Values;
      assert w != x ==> rest[w] in rest.Values;
    }
  }

  /** An injective renaming has as many values as keys. */
  lemma {:induction false} ValuesSize(m: Renaming)
    requires InjectiveRenaming(m)
    ensures |m.Values| == |m.Keys|
    decreases |m.Keys|
  {
    if m.Keys == {} {
      assert m.Values == {};
    } else {
      var x :| x in m.Keys;
      ValuesStep(m, x);
      ValuesSize(m - {x});
    }
  }

  lemma ValuesStep(m: Renaming, x: string)
    requires InjectiveRenaming(m) && x in m
    ensures (m - {x}).Keys == m.Keys - {x} && InjectiveRenaming(m - {x})
    ensures m[x] !in (m - {x}).Values && m.Values == (m - {x}).Values + {m[x]}
  {
    var rest := m - {x};
    forall y | y in m.Values ensures y in rest.Values + {m[x]} {
      var v :| v in m && m[v] == y;
      assert v != x ==> rest[v] == y;
    }
  }

  lemma RestrictInjective(m: Renaming, vars: set<string>)
    requires InjectiveRenaming(m)
    ensures InjectiveRenaming(Restrict(m, vars))
  {
  }

  /** The correspondence of the used variables through the common shape. */
  lemma UsedBijection(r: Rule, q: Rule, m: Renaming, n: Renaming) returns (sigma: Renaming)
    requires SameShape(r, q, m, n)
    ensures sigma.Keys == UsedVars(r) && sigma.Values == UsedVars(q) && InjectiveRenaming(sigma)
    ensures RuleNamed(r, sigma) && RuleNamed(q, Identity(UsedVars(q)))
    ensures multiset(MapBody(r.body, sigma)) == multiset(MapBody(q.body, Identity(UsedVars(q))))
    ensures MapLiteral(r.head, sigma) == MapLiteral(q.head, Identity(UsedVars(q)))
  {
    hide MapLiteral, MapBody, SameShape, MapShapes, MapShape, UsedVars;
    ShapeNamedBoth(r, q, m, n);
    SameShapeInjective(r, q, m, n);
    var m1, n1 := Restrict(m, UsedVars(r)), Restrict(n, UsedVars(q));
    UsedNamed(r, m);
    UsedNamed(q, n);
    RestrictInjective(m, UsedVars(r));
    RestrictInjective(n, UsedVars(q));
    UsedValues(r, q, m, n);
    UsedValues(q, r, n, m);
    assert m1.Values == n1.Values;
    MapRuleAgree(r, m1, m);
    MapRuleAgree(q, n1, n);
    InverseFacts(n1);
    sigma := Compose(m1, Inverse(n1));
    MapBodyTwice(r.body, m1, Inverse(n1));
    MapBodyTwice(q.body, n1, Inverse(n1));
    BodiesMatch(r, q, m, n);
    MapShapesMultiset(MapBody(r.body, m1), MapBody(q.body, n1), Inverse(n1));
    MapTwice(r.head, m1, Inverse(n1));
    MapTwice(q.head, n1, Inverse(n1));
    ComposeInverse(m1, n1);
  }

  lemma BodiesMatch(r: Rule, q: Rule, m: Renaming, n: Renaming)
    requires SameShape(r, q, m, n)
    ensures RuleNamed(r, m) && RuleNamed(q, n)
    ensures multiset(MapBody(r.body, m)) == multiset(MapBody(q.body, n))
            && MapLiteral(r.head, m) == MapLiteral(q.head, n)
  {
  }

  lemma ComposeInverse(m: Renaming, n: Renaming)
    requires InjectiveRenaming(m) && InjectiveRenaming(n) && m.Values == n.Values
    ensures Inverse(n).Keys == n.Values
    ensures Compose(m, Inverse(n)).Keys == m.Keys && Compose(m, Inverse(n)).Values == n.Keys
    ensures InjectiveRenaming(Compose(m, Inverse(n)))
  {
    InverseFacts(n);
    var sigma := Compose(m, Inverse(n));
    forall w | w in n.Keys ensures w in sigma.Values {
      assert n[w] in n.Values;
      var v :| v in m && m[v] == n[w];
      assert sigma[v] == Inverse(n)[n[w]] == w;
    }
    forall w | w in sigma.Values ensures w in n.Keys {
      var v :| v in sigma && sigma[v] == w;
      assert m[v] in m.Values;
    }
    forall v, w | v in sigma && w in sigma && sigma[v] == sigma[w] ensures v == w {
      assert m[v] in m.Values && m[w] in m.Values;
    }
  }

  /** Two renamings of disjoint variables onto disjoint names, together. */
  lemma JoinedBijection(a: Renaming, b: Renaming)
    requires InjectiveRenaming(a) && InjectiveRenaming(b) && a.Keys !! b.Keys && a.Values !! b.Values
    ensures InjectiveRenaming(a + b) && (a + b).Keys == a.Keys + b.Keys && (a + b).Values == a.Values + b.Values
    ensures AgreeOn(a + b, a, a.Keys)
  {
    forall x | x in a.Values ensures x in (a + b).Values {
      var v :| v in a && a[v] == x;
      assert (a + b)[v] == x;
    }
    forall x | x in b.Values ensures x in (a + b).Values {
      var v :| v in b && b[v] == x;
      assert (a + b)[v] == x;
    }
    forall v, w | v in a + b && w in a + b && (a + b)[v] == (a + b)[w] ensures v == w {
      assert v in a ==> a[v] in a.Values;
      assert w in a ==> a[w] in a.Values;
      assert v in b ==> b[v] in b.Values;
      assert w in b ==> b[w] in b.Values;
    }
  }

  lemma DeclaredCovers(r: Rule)
    requires WellNamed(r)
    ensures UsedVars(r) <= DeclaredNames(r) && |DeclaredNames(r)| == |NamesOf(r)|
  {
    hide NamesOf;
    NamesExact(r);
    NoDuplicatesSize(NamesOf(r));
  }

  /** A bijection between parts of two equally large sets extends to the sets. */
  lemma ExtendBijection(sigma: Renaming, a: set<string>, b: set<string>) returns (rho: Renaming)
    requires InjectiveRenaming(sigma) && sigma.Keys <= a && sigma.Values <= b && |a| == |b|
    ensures rho.Keys == a && rho.Values == b && InjectiveRenaming(rho) && AgreeOn(rho, sigma, sigma.Keys)
  {
    hide InjectiveRenaming, AgreeOn;
    ValuesSize(sigma);
    RemainingSize(a, sigma.Keys);
    RemainingSize(b, sigma.Values);
    var others := Bijection(a - sigma.Keys, b - sigma.Values);
    JoinedBijection(sigma, others);
    WholeAgain(a, sigma.Keys);
    WholeAgain(b, sigma.Values);
    rho := sigma + others;
  }

  lemma WholeAgain(all: set<string>, part: set<string>)
    requires part <= all
    ensures part + (all - part) == all
  {
  }

  /** Equivalent rules with as many declared variables are renamings of one another. */
  lemma AlphaIsRenaming(r: Rule, q: Rule) returns (rho: Renaming)
    requires WellNamed(r) && WellNamed(q) && AlphaEquivalent(r, q) && |NamesOf(r)| == |NamesOf(q)|
    ensures Renamed(r, q, rho)
  {
    hide MapLiteral, MapBody, SameShape, WellNamed, NamesOf, DeclaredNames, UsedVars, InjectiveRenaming, AgreeOn,
      Renamed, RuleNamed, Identity;
    var m, n :| SameShape(r, q, m, n);
    var sigma := UsedBijection(r, q, m, n);
    DeclaredCovers(r);
    DeclaredCovers(q);
    rho := ExtendBijection(sigma, DeclaredNames(r), DeclaredNames(q));
    ExtendedRenaming(r, q, sigma, rho);
  }

  lemma ExtendedRenaming(r: Rule, q: Rule, sigma: Renaming, rho: Renaming)
    requires sigma.Keys == UsedVars(r) && RuleNamed(r, sigma) && RuleNamed(q, Identity(UsedVars(q)))
    requires multiset(MapBody(r.body, sigma)) == multiset(MapBody(q.body, Identity(UsedVars(q))))
    requires MapLiteral(r.head, sigma) == MapLiteral(q.head, Identity(UsedVars(q)))
    requires rho.Keys == DeclaredNames(r) && rho.Values == DeclaredNames(q) && InjectiveRenaming(rho)
    requires AgreeOn(rho, sigma, sigma.Keys) && UsedVars(q) <= DeclaredNames(q)
    ensures Renamed(r, q, rho)
  {
    hide MapLiteral, MapBody, DeclaredNames, UsedVars, InjectiveRenaming, AgreeOn, RuleNamed, Identity;
    MapRuleAgree(r, rho, sigma);
    IdentityAgrees(UsedVars(q), DeclaredNames(q));
    MapRuleAgree(q, Identity(DeclaredNames(q)), Identity(UsedVars(q)));
  }

  lemma RemainingSize(all: set<string>, part: set<string>)
    requires part <= all
    ensures |all - part| == |all| - |part|
  {
    assert all == part + (all - part);
  }

  lemma IdentityAgrees(small: set<string>, big: set<string>)
    requires small <= big
    ensures AgreeOn(Identity(big), Identity(small), small)
  {
  }

  // ---- Equal statement sets mean equal closures ----

  function FactLiteral(f: GroundLiteral): LiteralShape {
    LiteralShape(f.pred, f.negated, seq(|f.arguments|, i requires 0 <= i < |f.arguments| => EntityTerm(f.arguments[i])))
  }

  /** The first half of `canonical_statement_sets`. */
  ghost function FactKeys(dumps: Dumps, theory: Theory): set<string> {
    set f | f in theory.facts :: dumps(FactShape(FactLiteral(f)))
  }

  ghost predicate HasKeyIn(dumps: Dumps, r: Rule, keys: set<string>) {
    exists k :: k in keys && IsRuleKey(dumps, r, k)
  }

  ghost predicate IsKeyOfOne(dumps: Dumps, rules: seq<Rule>, k: string) {
    exists r :: r in rules && IsRuleKey(dumps, r, k)
  }

  /** A set of keys is the second half of `canonical_statement_sets`. */
  ghost predicate AreRuleKeys(dumps: Dumps, theory: Theory, keys: set<string>) {
    && (forall r :: r in theory.rules ==> HasKeyIn(dumps, r, keys))
    && (forall k :: k in keys ==> IsKeyOfOne(dumps, theory.rules, k))
  }

  /** `canonical_statement_sets`. */
  method CanonicalStatementSets(dumps: Dumps, theory: Theory) returns (facts: set<string>, rules: set<string>)
    requires ValidTheory(theory)
    ensures facts == FactKeys(dumps, theory) && AreRuleKeys(dumps, theory, rules)
  {
    hide ValidTheory, IsRuleKey, WellNamed;
    facts := set f | f in theory.facts :: dumps(FactShape(FactLiteral(f)));
    rules := {};
    for n := 0 to |theory.rules|
      invariant forall j :: 0 <= j < n ==> HasKeyIn(dumps, theory.rules[j], rules)
      invariant forall k :: k in rules ==> IsKeyOfOne(dumps, theory.rules, k)
    {
      assert theory.rules[n] in theory.rules;
      ValidRuleNamed(theory, theory.rules[n]);
      var key := CanonicalRuleKey(dumps, theory.rules[n]);
      ghost var before := rules;
      rules := rules + {key};
      forall j | 0 <= j < n + 1 ensures HasKeyIn(dumps, theory.rules[j], rules) {
        if j < n {
          var k :| k in before && IsRuleKey(dumps, theory.rules[j], k);
          assert k in rules;
        } else {
          assert key in rules;
        }
      }
    }
  }

  lemma ValidRuleNamed(theory: Theory, r: Rule)
    requires ValidTheory(theory) && r in theory.rules
    ensures WellNamed(r) && RangeRestricted(r)
  {
    assert RuleValid(r, Declared(theory));
    var vs := Lookup(r.variables, VARIABLE_NAME);
    LookupKeys(r.variables, VARIABLE_NAME);
    forall v | v in BodyVars(r.body) + Vars(r.head) ensures exists d :: d in r.variables && d.name == v {
      var l: RuleLiteral :| (l in r.body || l == r.head) && v in Vars(l);
      assert LiteralValid(l, Declared(theory), vs);
      assert !HasFault(l, Declared(theory), vs, UndeclaredVariable);
      var i :| 0 <= i < |l.arguments| && l.arguments[i].VariableTerm? && l.arguments[i].name == v;
      assert l.arguments[i] in l.arguments;
      assert vs[v] in r.variables && VARIABLE_NAME(vs[v]) == v;
    }
  }

  lemma FactKeysCover(dumps: Dumps, a: Theory, b: Theory)
    requires InjectiveDumps(dumps) && FactKeys(dumps, a) <= FactKeys(dumps, b)
    ensures FactSet(a) <= FactSet(b)
  {
    forall l | l in FactSet(a) ensures l in FactSet(b) {
      var f :| f in a.facts && Canonical(f) == l;
      var key := dumps(FactShape(FactLiteral(f)));
      assert key in FactKeys(dumps, a);
      var g :| g in b.facts && dumps(FactShape(FactLiteral(g))) == key;
      SameFact(f, g);
    }
  }

  lemma SameFact(f: GroundLiteral, g: GroundLiteral)
    requires FactLiteral(f) == FactLiteral(g)
    ensures Canonical(f) == Canonical(g)
  {
    assert f.arguments == g.arguments by {
      assert |f.arguments| == |FactLiteral(f).arguments| == |g.arguments|;
      forall i | 0 <= i < |f.arguments| ensures f.arguments[i] == g.arguments[i] {
        assert FactLiteral(f).arguments[i] == FactLiteral(g).arguments[i];
      }
    }
  }

  lemma HeadsFollowKeys(dumps: Dumps, a: Theory, b: Theory, keys: set<string>, known: set<CanonicalLiteral>)
    requires InjectiveDumps(dumps) && ValidTheory(a) && ValidTheory(b)
    requires AreRuleKeys(dumps, a, keys) && AreRuleKeys(dumps, b, keys)
    ensures Heads(Instances(a.rules, known)) <= Heads(Instances(b.rules, known))
  {
    hide ValidTheory, AreRuleKeys, InjectiveDumps, Instances;
    forall l | l in Heads(Instances(a.rules, known)) ensures l in Heads(Instances(b.rules, known)) {
      var i :| i in Instances(a.rules, known) && Vars(i.rule.head) <= i.sub.Keys && Ground(i.rule.head, i.sub) == l;
      HeadFollowsKey(dumps, a, b, keys, known, i);
    }
  }

  /** A rule has a partner with the same key in any theory with the same keys. */
  lemma PartnerRule(dumps: Dumps, a: Theory, b: Theory, keys: set<string>, r: Rule) returns (q: Rule, key: string)
    requires AreRuleKeys(dumps, a, keys) && AreRuleKeys(dumps, b, keys) && r in a.rules
    ensures q in b.rules && IsRuleKey(dumps, r, key) && IsRuleKey(dumps, q, key)
  {
    hide IsRuleKey;
    assert HasKeyIn(dumps, r, keys);
    key :| key in keys && IsRuleKey(dumps, r, key);
    assert IsKeyOfOne(dumps, b.rules, key);
    q :| q in b.rules && IsRuleKey(dumps, q, key);
  }

  lemma HeadFollowsKey(dumps: Dumps, a: Theory, b: Theory, keys: set<string>, known: set<CanonicalLiteral>, i: Instance)
    requires InjectiveDumps(dumps) && ValidTheory(a) && ValidTheory(b)
    requires AreRuleKeys(dumps, a, keys) && AreRuleKeys(dumps, b, keys)
    requires i in Instances(a.rules, known)
    ensures Vars(i.rule.head) <= i.sub.Keys && Ground(i.rule.head, i.sub) in Heads(Instances(b.rules, known))
  {
    hide ValidTheory, AreRuleKeys, IsRuleKey, WellNamed, Matches, SameShape, InjectiveDumps, RangeRestricted,
      Instances, Heads;
    assert i == Instance(i.rule, i.sub);
    InstancesExact(a.rules, known, i.rule, i.sub);
    var q, key := PartnerRule(dumps, a, b, keys, i.rule);
    ValidRuleNamed(a, i.rule);
    ValidRuleNamed(b, q);
    var m, n := EqualKeysSameShape(dumps, i.rule, q, key);
    SameShapeSameHeads(i.rule, q, m, n, b.rules, known, i.sub);
  }

  /** Canonical forms preserve meaning: theories with equal canonical statement sets derive the same
      literals round by round, so they have the same closure. */
  lemma {:induction false} EqualSetsEqualStages(dumps: Dumps, a: Theory, b: Theory, keys: set<string>, k: nat)
    requires InjectiveDumps(dumps) && ValidTheory(a) && ValidTheory(b)
    requires FactKeys(dumps, a) == FactKeys(dumps, b)
    requires AreRuleKeys(dumps, a, keys) && AreRuleKeys(dumps, b, keys)
    ensures Stage(a, k) == Stage(b, k)
  {
    hide ValidTheory, AreRuleKeys, InjectiveDumps, FactKeys, FactSet, Heads, Instances;
    if k == 0 {
      FactKeysCover(dumps, a, b);
      FactKeysCover(dumps, b, a);
    } else {
      EqualSetsEqualStages(dumps, a, b, keys, k - 1);
      HeadsFollowKeys(dumps, a, b, keys, Stage(a, k - 1));
      HeadsFollowKeys(dumps, b, a, keys, Stage(a, k - 1));
    }
  }

  lemma EqualSetsEqualClosures(dumps: Dumps, a: Theory, b: Theory, keys: set<string>)
    requires InjectiveDumps(dumps) && ValidTheory(a) && ValidTheory(b)
    requires FactKeys(dumps, a) == FactKeys(dumps, b)
    requires AreRuleKeys(dumps, a, keys) && AreRuleKeys(dumps, b, keys)
    ensures ModelOf(a) == ModelOf(b)
  {
    hide ValidTheory, AreRuleKeys, InjectiveDumps, FactKeys, Stage;
    var k := StagesStop(a, 0);
    EqualSetsEqualStages(dumps, a, b, keys, k);
    EqualSetsEqualStages(dumps, a, b, keys, k + 1);
    FixedStageIsModel(a, k);
    FixedStageIsModel(b, k);
  }
}
