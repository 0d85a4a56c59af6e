/** When two rules have the same canonical key: up to seven variables exactly when they are the same rule
    up to variable names and body order; beyond seven exactly when the sorted order of their variable names
    already matches them (backend/src/verilogic_ns_api/semantic_parsing/canonicalization.py). */
module CanonicalKeys {
  import opened Keys
  import opened Logic
  import opened Semantics
  import opened Orders
  import opened Canonicalization

  // ---- Texts that follow the canonical names ----

  /** The same term, or a lower canonical name; up to ten names all have one digit. */
  ghost predicate LowerTerm(s: Term, t: Term) {
    s == t
    || exists i, j :: 0 <= i <= j < 10 && s == VariableTerm(CanonicalName(i)) && t == VariableTerm(CanonicalName(j))
  }

  ghost predicate LowerLiteral(a: LiteralShape, b: LiteralShape) {
    && a.pred == b.pred && a.negated == b.negated && |a.arguments| == |b.arguments|
    && forall i :: 0 <= i < |a.arguments| ==> LowerTerm(a.arguments[i], b.arguments[i])
  }

  ghost predicate LowerBody(a: seq<LiteralShape>, b: seq<LiteralShape>) {
    |a| == |b| && forall i :: 0 <= i < |a| ==> LowerLiteral(a[i], b[i])
  }

  ghost predicate LowerShape(a: Shape, b: Shape) {
    a.RuleShape? && b.RuleShape? && LowerBody(a.body, b.body) && LowerLiteral(a.head, b.head)
  }

  /** Lowering canonical names in place never raises the text. */
  ghost predicate LowersTexts(dumps: Dumps) {
    forall a, b :: LowerShape(a, b) ==> Leq(Str(dumps(a)), Str(dumps(b)))
  }

  // ---- Lowering the names in use to the first ones ----

  ghost predicate Monotone(m: Renaming) {
    forall v, w :: v in m && w in m && Leq(Str(v), Str(w)) ==> Leq(Str(m[v]), Str(m[w]))
  }

  lemma NameOrder(i: nat, j: nat)
    requires i < 10 && j < 10
    ensures Leq(Str(CanonicalName(i)), Str(CanonicalName(j))) <==> i <= j
    ensures CanonicalName(i) == CanonicalName(j) <==> i == j
  {
    var a, b := CanonicalName(i), CanonicalName(j);
    assert a[1..] == [Digit(i)] && b[1..] == [Digit(j)];
    DigitOrder(i, j);
    assert StrLeq(a[1..], b[1..]) <==> i <= j;
  }

  lemma DigitOrder(i: nat, j: nat)
    requires i < 10 && j < 10
    ensures Digit(i) <= Digit(j) <==> i <= j
    ensures StrLeq([Digit(i)], [Digit(j)]) <==> i <= j
  {
  }

  /** How many members of the set are smaller. */
  ghost function Below(used: set<nat>, i: nat): set<nat> {
    set j | j in used && j < i
  }

  lemma {:induction false} BelowAtMost(used: set<nat>, i: nat)
    ensures |Below(used, i)| <= i
  {
    if i == 0 {
      assert Below(used, i) == {};
    } else {
      BelowAtMost(used, i - 1);
      SubsetSize(Below(used, i), Below(used, i - 1) + {i - 1});
    }
  }

  lemma BelowGrows(used: set<nat>, i: nat, j: nat)
    requires i < j && i in used
    ensures |Below(used, i)| < |Below(used, j)|
  {
    assert i in Below(used, j) && i !in Below(used, i);
    SubsetSize(Below(used, i), Below(used, j));
  }

  lemma BelowInside(used: set<nat>, i: nat)
    requires i in used
    ensures |Below(used, i)| < |used|
  {
    SubsetSize(Below(used, i), used);
  }

  /** The indices of the canonical names in a set. */
  ghost function Indices(names: set<string>): set<nat> {
    set i: nat | i < 10 && CanonicalName(i) in names
  }

  ghost predicate AllCanonical(names: set<string>) {
    forall v :: v in names ==> exists i: nat :: i < 10 && v == CanonicalName(i)
  }

  ghost function NumberOf(v: string): nat
    requires exists i: nat :: i < 10 && v == CanonicalName(i)
  {
    var i: nat :| i < 10 && v == CanonicalName(i);
    i
  }

  /** Gives the names in use, in order, the first canonical names. */
  ghost function Lowering(names: set<string>): Renaming
    requires AllCanonical(names)
  {
    map v | v in names :: CanonicalName(|Below(Indices(names), NumberOf(v))|)
  }

  lemma LoweringAt(names: set<string>, i: nat)
    requires AllCanonical(names) && i in Indices(names)
    ensures CanonicalName(i) in names && Lowering(names)[CanonicalName(i)] == CanonicalName(|Below(Indices(names), i)|)
    ensures |Below(Indices(names), i)| <= i && |Below(Indices(names), i)| < |Indices(names)|
  {
    hide CanonicalName;
    NameOrder(i, NumberOf(CanonicalName(i)));
    BelowAtMost(Indices(names), i);
    BelowInside(Indices(names), i);
  }

  lemma LoweringOrder(names: set<string>, i: nat, j: nat)
    requires AllCanonical(names) && i in Indices(names) && j in Indices(names)
    ensures CanonicalName(i) in names && CanonicalName(j) in names
    ensures var low := Lowering(names);
            && (low[CanonicalName(i)] == low[CanonicalName(j)] ==> i == j)
            && (i <= j ==> Leq(Str(low[CanonicalName(i)]), Str(low[CanonicalName(j)])))
  {
    hide CanonicalName, Lowering, Leq, Indices;
    LoweringAt(names, i);
    LoweringAt(names, j);
    assert i < 10 && j < 10 by {
      IndicesBelow(names, i);
      IndicesBelow(names, j);
    }
    var a, b := |Below(Indices(names), i)|, |Below(Indices(names), j)|;
    NameOrder(a, b);
    if i < j {
      BelowGrows(Indices(names), i, j);
    }
    if j < i {
      BelowGrows(Indices(names), j, i);
    }
  }

  lemma IndicesBelow(names: set<string>, i: nat)
    requires i in Indices(names)
    ensures i < 10
  {
  }

  lemma LoweringFacts(names: set<string>)
    requires AllCanonical(names)
    ensures var low := Lowering(names);
            && low.Keys == names && InjectiveRenaming(low) && Monotone(low)
            && forall v :: v in low ==> LowerTerm(VariableTerm(low[v]), VariableTerm(v))
  {
    hide CanonicalName, Leq, Below;
    var low, used := Lowering(names), Indices(names);
    forall v | v in names ensures LowerTerm(VariableTerm(low[v]), VariableTerm(v)) {
      var i: nat :| i < 10 && v == CanonicalName(i);
      LoweringAt(names, i);
    }
    forall v, w | v in names && w in names
      ensures low[v] == low[w] ==> v == w
      ensures Leq(Str(v), Str(w)) ==> Leq(Str(low[v]), Str(low[w]))
    {
      var i: nat :| i < 10 && v == CanonicalName(i);
      var j: nat :| j < 10 && w == CanonicalName(j);
      NameOrder(i, j);
      LoweringOrder(names, i, j);
    }
  }

  /** The lowered names are among the first ones. */
  lemma LoweringFirst(names: set<string>, n: nat)
    requires AllCanonical(names) && |names| <= n
    ensures forall v :: v in Lowering(names).Values ==> v in CanonicalNames(n)
  {
    hide CanonicalName, Below;
    IndicesSize(names);
    forall v | v in Lowering(names).Values ensures v in CanonicalNames(n) {
      var w :| w in names && Lowering(names)[w] == v;
      var i: nat :| i < 10 && w == CanonicalName(i);
      LoweringAt(names, i);
      assert CanonicalNames(n)[|Below(Indices(names), i)|] == v;
    }
  }

  lemma {:induction false} IndicesSize(names: set<string>)
    requires AllCanonical(names)
    ensures |Indices(names)| == |names|
    decreases |names|
  {
    hide CanonicalName;
    if names == {} {
      assert Indices(names) == {};
    } else {
      var v :| v in names;
      var i: nat :| i < 10 && v == CanonicalName(i);
      IndicesSize(names - {v});
      forall j: nat | j < 10 ensures CanonicalName(j) == v <==> j == i {
        NameOrder(i, j);
      }
      assert Indices(names) == Indices(names - {v}) + {i};
    }
  }

  // ---- A monotone renaming keeps a body sorted ----

  lemma TermKeyMonotone(s: Term, t: Term, m: Renaming)
    requires InjectiveRenaming(m) && Monotone(m)
    requires (s.VariableTerm? ==> s.name in m) && (t.VariableTerm? ==> t.name in m)
    ensures TermKey(s) == TermKey(t) <==> TermKey(MapTerm(s, m)) == TermKey(MapTerm(t, m))
    ensures Leq(TermKey(s), TermKey(t)) ==> Leq(TermKey(MapTerm(s, m)), TermKey(MapTerm(t, m)))
  {
  }

  ghost function MapTerms(ts: seq<Term>, m: Renaming): seq<Term>
    requires forall i :: 0 <= i < |ts| && ts[i].VariableTerm? ==> ts[i].name in m
  {
    seq(|ts|, i requires 0 <= i < |ts| => MapTerm(ts[i], m))
  }

  lemma {:induction false} TermsKeyMonotone(a: seq<Term>, b: seq<Term>, m: Renaming)
    requires InjectiveRenaming(m) && Monotone(m)
    requires forall i :: 0 <= i < |a| && a[i].VariableTerm? ==> a[i].name in m
    requires forall i :: 0 <= i < |b| && b[i].VariableTerm? ==> b[i].name in m
    requires Leq(TermsKey(a), TermsKey(b))
    ensures Leq(TermsKey(MapTerms(a, m)), TermsKey(MapTerms(b, m)))
  {
    hide TermKey, MapTerm, Monotone, InjectiveRenaming;
    var x, y := MapTerms(a, m), MapTerms(b, m);
    if a != [] && b != [] {
      TermKeyMonotone(a[0], b[0], m);
      assert x[1..] == MapTerms(a[1..], m) && y[1..] == MapTerms(b[1..], m);
      if TermKey(a[0]) == TermKey(b[0]) {
        TermsKeyMonotone(a[1..], b[1..], m);
      }
    }
  }

  lemma ShapeKeyMonotone(a: LiteralShape, b: LiteralShape, m: Renaming)
    requires InjectiveRenaming(m) && Monotone(m) && ShapeNamed(a, m) && ShapeNamed(b, m)
    requires Leq(ShapeKey(a), ShapeKey(b))
    ensures Leq(ShapeKey(MapShape(a, m)), ShapeKey(MapShape(b, m)))
  {
    hide TermKey, MapTerm, Monotone, InjectiveRenaming, TermsKey;
    assert MapShape(a, m).arguments == MapTerms(a.arguments, m);
    assert MapShape(b, m).arguments == MapTerms(b.arguments, m);
    if a.pred == b.pred && a.negated == b.negated {
      TermsKeyMonotone(a.arguments, b.arguments, m);
    }
  }

  /** Sorting and then lowering is lowering and then sorting. */
  lemma SortThenMap(xs: seq<LiteralShape>, m: Renaming)
    requires InjectiveRenaming(m) && Monotone(m) && AllNamed(xs, m)
    ensures AllNamed(SortBy(xs, ShapeKey), m)
    ensures SortBy(MapShapes(xs, m), ShapeKey) == MapShapes(SortBy(xs, ShapeKey), m)
  {
    hide Leq, SortBy, MapShape, MapShapes, ShapeKey, ShapeNamed, Monotone, InjectiveRenaming, KeyTellsApart;
    var sorted := SortBy(xs, ShapeKey);
    SortByMultiset(xs, ShapeKey);
    SortBySorted(xs, ShapeKey);
    forall i | 0 <= i < |sorted| ensures ShapeNamed(sorted[i], m) {
      assert sorted[i] in xs;
    }
    MapShapesAt(sorted, m);
    MapShapesMultiset(sorted, xs, m);
    var mapped := MapShapes(sorted, m);
    forall i, j | 0 <= i < j < |mapped| ensures Leq(ShapeKey(mapped[i]), ShapeKey(mapped[j])) {
      ShapeKeyMonotone(sorted[i], sorted[j], m);
    }
    SortByMultiset(MapShapes(xs, m), ShapeKey);
    SortBySorted(MapShapes(xs, m), ShapeKey);
    ShapesToldApart(mapped);
    SortedUnique(mapped, SortBy(MapShapes(xs, m), ShapeKey), ShapeKey);
  }

  lemma ShapesToldApart(xs: seq<LiteralShape>)
    ensures KeyTellsApart(xs, ShapeKey)
  {
    ShapeKeysInjective();
  }

  // ---- Every candidate of a rule has a lower one in each equivalent rule ----

  /** Renaming two bodies of the same shapes further keeps them the same shapes. */
  lemma MappedFurther(r: Rule, q: Rule, m: Renaming, n: Renaming, further: Renaming)
    requires RuleNamed(r, m) && RuleNamed(q, n) && m.Values <= further.Keys && n.Values <= further.Keys
    requires multiset(MapBody(r.body, m)) == multiset(MapBody(q.body, n))
    requires MapLiteral(r.head, m) == MapLiteral(q.head, n)
    ensures RuleNamed(r, Compose(m, further)) && RuleNamed(q, Compose(n, further))
    ensures multiset(MapBody(r.body, Compose(m, further))) == multiset(MapBody(q.body, Compose(n, further)))
    ensures MapLiteral(r.head, Compose(m, further)) == MapLiteral(q.head, Compose(n, further))
  {
    hide MapBody, MapLiteral, MapShape, MapShapes;
    MapBodyTwice(r.body, m, further);
    MapBodyTwice(q.body, n, further);
    MapShapesMultiset(MapBody(r.body, m), MapBody(q.body, n), further);
    MapTwice(r.head, m, further);
    MapTwice(q.head, n, further);
  }

  /** Renaming the sorted body literal by literal. */
  lemma MappedInPlace(q: Rule, n: Renaming, low: Renaming)
    requires RuleNamed(q, n) && n.Values <= low.Keys && InjectiveRenaming(low) && Monotone(low)
    requires forall v :: v in low ==> LowerTerm(VariableTerm(low[v]), VariableTerm(v))
    ensures RuleNamed(q, Compose(n, low)) && LowerShape(MappedRule(q, Compose(n, low)), MappedRule(q, n))
  {
    hide MapBody, MapLiteral, MapShape, MapShapes, SortBy, LowerLiteral, InjectiveRenaming, Monotone;
    MapBodyTwice(q.body, n, low);
    MapTwice(q.head, n, low);
    SortThenMap(MapBody(q.body, n), low);
    var sorted := SortBy(MapBody(q.body, n), ShapeKey);
    MapShapesAt(sorted, low);
    forall i | 0 <= i < |sorted| ensures LowerLiteral(MapShapes(sorted, low)[i], sorted[i]) {
      MapLowers(sorted[i], low);
    }
    MapLowers(MapLiteral(q.head, n), low);
  }

  lemma MapLowers(l: LiteralShape, low: Renaming)
    requires ShapeNamed(l, low) && forall v :: v in low ==> LowerTerm(VariableTerm(low[v]), VariableTerm(v))
    ensures LowerLiteral(MapShape(l, low), l)
  {
    hide LowerTerm;
    forall i | 0 <= i < |l.arguments| ensures LowerTerm(MapShape(l, low).arguments[i], l.arguments[i]) {
      SameTerm(l.arguments[i]);
    }
  }

  lemma SameTerm(t: Term)
    ensures LowerTerm(t, t)
  {
  }

  /** A one-to-one choice of names for the used variables among the first canonical names is part of an
      assignment that is tried. */
  lemma ChoiceIsTried(r: Rule, t: Renaming)
    requires WellNamed(r) && |NamesOf(r)| <= 7 && t.Keys == UsedVars(r) && InjectiveRenaming(t)
    requires forall v :: v in t.Values ==> v in CanonicalNames(|NamesOf(r)|)
    ensures RuleNamed(r, t) && IsCandidate(r, MappedRule(r, t))
  {
    hide NamesOf, Assignments, WellNamed, InjectiveRenaming, AgreeOn, MapBody, MapLiteral, CanonicalNames, UsedVars,
      Zip;
    var names := NamesOf(r);
    var targets := CanonicalNames(|names|);
    NamesExact(r);
    DeclaredCovers(r);
    CanonicalNamesDistinct(|names|);
    NoDuplicatesSize(targets);
    var rho := ExtendBijection(t, DeclaredNames(r), set v | v in targets);
    var keep := Zip(targets, targets);
    ZipExact(targets, targets);
    PulledPermutes(names, targets, rho, targets, keep);
    PulledZip(names, rho, keep);
    KeepsAll(rho, targets);
    AssignmentsExact(r);
    var p := Pulled(names, rho, keep);
    assert p in Assignments(r);
    MapRuleAgree(r, rho, t);
    PulledLength(names, rho, keep);
    assert NamedBy(r, p) && ShapeBy(r, p) == MappedRule(r, t);
  }

  lemma KeepsAll(rho: Renaming, targets: seq<string>)
    requires NoDuplicates(targets) && rho.Values <= Zip(targets, targets).Keys
    ensures Compose(rho, Zip(targets, targets)) == rho
  {
    ZipExact(targets, targets);
    forall v | v in rho ensures Compose(rho, Zip(targets, targets))[v] == rho[v] {
      assert rho[v] in rho.Values;
      var i :| 0 <= i < |targets| && targets[i] == rho[v];
    }
  }

  /** The names a candidate gives to the used variables. */
  lemma CandidateNames(q: Rule, shape: Shape) returns (m: Renaming)
    requires WellNamed(q) && |NamesOf(q)| <= 7 && IsCandidate(q, shape)
    ensures m.Keys == UsedVars(q) && InjectiveRenaming(m) && AllCanonical(m.Values)
    ensures RuleNamed(q, m) && shape == MappedRule(q, m)
  {
    hide NamesOf, Assignments, WellNamed, MapBody, MapLiteral, CanonicalName, UsedVars, Zip, InjectiveRenaming, AgreeOn;
    var p :| p in Assignments(q) && NamedBy(q, p) && shape == ShapeBy(q, p);
    AssignmentNames(q, p);
    var whole := Zip(NamesOf(q), p);
    m := Restrict(whole, UsedVars(q));
    UsedNamed(q, whole);
    RestrictInjective(whole, UsedVars(q));
    MapRuleAgree(q, m, whole);
    forall x | x in m.Values ensures exists i: nat :: i < 10 && x == CanonicalName(i) {
      var v :| v in m && m[v] == x;
      NamesExact(q);
      ZipExact(NamesOf(q), p);
      var j :| 0 <= j < |NamesOf(q)| && NamesOf(q)[j] == v;
      AssignmentsExact(q);
      SameElements(p, CanonicalNames(|NamesOf(q)|));
      assert p[j] in p;
      var i :| 0 <= i < |NamesOf(q)| && CanonicalNames(|NamesOf(q)|)[i] == x;
    }
  }

  lemma ComposedFacts(m: Renaming, n: Renaming)
    requires InjectiveRenaming(m) && InjectiveRenaming(n) && m.Values == n.Keys
    ensures var c := Compose(m, n); c.Keys == m.Keys && c.Values == n.Values && InjectiveRenaming(c)
  {
    var c := Compose(m, n);
    forall v, w | v in c && w in c && c[v] == c[w] ensures v == w {
      assert m[v] in m.Values && m[w] in m.Values;
    }
    forall x | x in n.Values ensures x in c.Values {
      var w :| w in n && n[w] == x;
      assert w in m.Values;
      var v :| v in m && m[v] == w;
      assert c[v] == x;
    }
    forall x | x in c.Values ensures x in n.Values {
      var v :| v in c && c[v] == x;
      assert m[v] in m.Values;
    }
  }

  lemma IdentityFirst(m: Renaming)
    ensures Identity(m.Keys).Values == m.Keys && Compose(Identity(m.Keys), m) == m
  {
    assert forall v :: v in m.Keys ==> Identity(m.Keys)[v] == v;
  }

  lemma SameMapped(r: Rule, q: Rule, m: Renaming, n: Renaming)
    requires RuleNamed(r, m) && RuleNamed(q, n) && MapLiteral(r.head, m) == MapLiteral(q.head, n)
    requires multiset(MapBody(r.body, m)) == multiset(MapBody(q.body, n))
    ensures MappedRule(r, m) == MappedRule(q, n)
  {
    hide MapBody, MapLiteral;
    SortedShapes(MapBody(r.body, m), MapBody(q.body, n));
  }

  /** With at most seven variables each, every candidate of a rule has a candidate of an equivalent rule
      that is the same or lower: the one that uses the first names. */
  lemma LowerCandidate(r: Rule, q: Rule, shape: Shape) returns (lower: Shape)
    requires WellNamed(r) && WellNamed(q) && AlphaEquivalent(r, q) && |NamesOf(r)| <= 7 && |NamesOf(q)| <= 7
    requires IsCandidate(q, shape)
    ensures IsCandidate(r, lower) && LowerShape(lower, shape)
  {
    hide NamesOf, WellNamed, MapBody, MapLiteral, UsedVars, InjectiveRenaming, SameShape, IsCandidate, Lowering,
      Identity, MappedRule, Compose, AllCanonical, Monotone, LowerShape, LowerTerm, CanonicalNames, RuleNamed;
    var m, n :| SameShape(r, q, m, n);
    var sigma := UsedBijection(r, q, m, n);
    var names := CandidateNames(q, shape);
    var id := Identity(UsedVars(q));
    IdentityFirst(names);
    MappedFurther(r, q, sigma, id, names);
    var low := Lowering(names.Values);
    LoweringFacts(names.Values);
    MappedInPlace(q, names, low);
    var across := Compose(sigma, names);
    ComposedFacts(sigma, names);
    MappedFurther(r, q, across, names, low);
    ComposedFacts(across, low);
    var t := Compose(across, low);
    DeclaredCovers(r);
    SubsetSize(UsedVars(r), DeclaredNames(r));
    ValuesSize(sigma);
    ValuesSize(names);
    LoweringFirst(names.Values, |NamesOf(r)|);
    ChoiceIsTried(r, t);
    SameMapped(r, q, t, Compose(names, low));
    lower := MappedRule(r, t);
  }

  // ---- Up to seven variables ----

  lemma EquivalentKeysAtMost(dumps: Dumps, r: Rule, q: Rule, kr: string, kq: string)
    requires LowersTexts(dumps) && WellNamed(r) && WellNamed(q) && AlphaEquivalent(r, q)
    requires |NamesOf(r)| <= 7 && |NamesOf(q)| <= 7 && IsRuleKey(dumps, r, kr) && IsRuleKey(dumps, q, kq)
    ensures Leq(Str(kr), Str(kq))
  {
    hide Leq, WellNamed, NamesOf, IsCandidate, AlphaEquivalent, LowerShape;
    var shape :| IsCandidate(q, shape) && kq == dumps(shape);
    var lower := LowerCandidate(r, q, shape);
    Transitive(Str(kr), Str(dumps(lower)), Str(kq));
  }

  lemma AlphaSymmetric(r: Rule, q: Rule)
    requires AlphaEquivalent(r, q)
    ensures AlphaEquivalent(q, r)
  {
    hide SameShape;
    var m, n :| SameShape(r, q, m, n);
    ShapeNamedBoth(r, q, m, n);
  }

  /** With at most seven variables each, two rules have equal keys exactly when they differ only by the names
      of their variables and the order of their bodies. When they declare different numbers of variables,
      some of which then are unused, this needs texts that follow the canonical names. */
  lemma KeyEqualityIsAlphaEquivalence(dumps: Dumps, r: Rule, q: Rule, kr: string, kq: string)
    requires InjectiveDumps(dumps) && WellNamed(r) && WellNamed(q) && |NamesOf(r)| <= 7 && |NamesOf(q)| <= 7
    requires |NamesOf(r)| == |NamesOf(q)| || LowersTexts(dumps)
    requires IsRuleKey(dumps, r, kr) && IsRuleKey(dumps, q, kq)
    ensures kr == kq <==> AlphaEquivalent(r, q)
  {
    hide IsRuleKey, WellNamed, AlphaEquivalent, InjectiveDumps, Renamed, NamesOf, LowersTexts;
    if kr == kq {
      EqualKeysAlphaEquivalent(dumps, r, q, kr);
    }
    if AlphaEquivalent(r, q) {
      if |NamesOf(r)| == |NamesOf(q)| {
        var rho := AlphaIsRenaming(r, q);
        RenamedRulesEqualKeys(dumps, r, q, rho, kr, kq);
      } else {
        AlphaSymmetric(r, q);
        EquivalentKeysAtMost(dumps, r, q, kr, kq);
        EquivalentKeysAtMost(dumps, q, r, kq, kr);
        Antisymmetric(Str(kr), Str(kq));
      }
    }
  }

  // ---- Beyond seven variables ----

  lemma OneCandidate(r: Rule)
    requires WellNamed(r) && |NamesOf(r)| > 7
    ensures NamedBy(r, CanonicalNames(|NamesOf(r)|))
    ensures forall shape :: IsCandidate(r, shape) <==> shape == ShapeBy(r, CanonicalNames(|NamesOf(r)|))
  {
    hide WellNamed, NamesOf, CanonicalNames, RuleNamed, ShapeBy, Zip;
    var p := CanonicalNames(|NamesOf(r)|);
    assert Assignments(r) == [p];
    AssignmentNames(r, p);
  }

  /** The one key of a rule with more than seven variables is the text under the sorted order of its names. */
  lemma KeyBeyondSeven(dumps: Dumps, r: Rule, key: string)
    requires WellNamed(r) && |NamesOf(r)| > 7
    ensures NamedBy(r, CanonicalNames(|NamesOf(r)|))
    ensures IsRuleKey(dumps, r, key) <==> key == dumps(ShapeBy(r, CanonicalNames(|NamesOf(r)|)))
  {
    hide WellNamed, NamesOf, CanonicalNames, NamedBy, ShapeBy, IsCandidate, Leq;
    OneCandidate(r);
    LeqReflexive(Str(key));
  }

  /** Beyond seven variables the keys agree exactly when giving each rule the canonical names in the sorted
      order of its own names already makes the rules equal up to the order of their bodies. */
  lemma KeysBeyondSevenAgree(dumps: Dumps, r: Rule, q: Rule, kr: string, kq: string)
    requires InjectiveDumps(dumps) && WellNamed(r) && WellNamed(q) && |NamesOf(r)| > 7 && |NamesOf(q)| > 7
    requires IsRuleKey(dumps, r, kr) && IsRuleKey(dumps, q, kq)
    ensures NamedBy(r, CanonicalNames(|NamesOf(r)|)) && NamedBy(q, CanonicalNames(|NamesOf(q)|))
    ensures kr == kq <==> ShapeBy(r, CanonicalNames(|NamesOf(r)|)) == ShapeBy(q, CanonicalNames(|NamesOf(q)|))
  {
    hide WellNamed, NamesOf, CanonicalNames, NamedBy, ShapeBy, IsRuleKey;
    KeyBeyondSeven(dumps, r, kr);
    KeyBeyondSeven(dumps, q, kq);
  }

  /** Against a rule with more than seven variables, another rule has the same key exactly when that one
      shape is a candidate of it with the least text. */
  lemma KeyAcrossSeven(dumps: Dumps, r: Rule, q: Rule, kr: string, kq: string)
    requires InjectiveDumps(dumps) && WellNamed(r) && WellNamed(q) && |NamesOf(q)| > 7
    requires IsRuleKey(dumps, r, kr) && IsRuleKey(dumps, q, kq)
    ensures NamedBy(q, CanonicalNames(|NamesOf(q)|))
    ensures var only := ShapeBy(q, CanonicalNames(|NamesOf(q)|));
            kr == kq <==>
              && IsCandidate(r, only)
              && forall shape :: IsCandidate(r, shape) ==> Leq(Str(dumps(only)), Str(dumps(shape)))
  {
    hide WellNamed, NamesOf, CanonicalNames, NamedBy, ShapeBy, IsCandidate, Leq;
    KeyBeyondSeven(dumps, q, kq);
    var only := ShapeBy(q, CanonicalNames(|NamesOf(q)|));
    var least :| IsCandidate(r, least) && kr == dumps(least);
    if IsCandidate(r, only) && forall shape :: IsCandidate(r, shape) ==> Leq(Str(dumps(only)), Str(dumps(shape))) {
      Antisymmetric(Str(kr), Str(kq));
    }
  }

  // ---- Which name is which ----

  /** The declared names are taken in the order of their code points. */
  lemma NamesInOrder(rule: Rule)
    requires WellNamed(rule)
    ensures forall i, j :: 0 <= i < j < |NamesOf(rule)| ==> Before(NamesOf(rule)[i], NamesOf(rule)[j])
  {
    hide Leq, Before;
    NamesExact(rule);
    var raw := seq(|rule.variables|, i requires 0 <= i < |rule.variables| => rule.variables[i].name);
    SortBySorted(raw, STRING_KEY);
    var names := NamesOf(rule);
    forall i, j | 0 <= i < j < |names| ensures Before(names[i], names[j]) {
      assert Leq(STRING_KEY(names[i]), STRING_KEY(names[j]));
      StringOrder(names[i], names[j]);
    }
  }

  ghost function NamesBefore(names: seq<string>, v: string): set<string> {
    set w | w in names && Before(w, v)
  }

  /** Beyond seven variables a variable gets the canonical name numbered by how many declared names come before
      its own. */
  lemma NameByRank(rule: Rule, v: string)
    requires WellNamed(rule) && v in NamesOf(rule)
    ensures var names := NamesOf(rule);
            && v in Zip(names, CanonicalNames(|names|))
            && Zip(names, CanonicalNames(|names|))[v] == CanonicalName(|NamesBefore(names, v)|)
  {
    hide Before, NamesOf, CanonicalName;
    var names := NamesOf(rule);
    NamesExact(rule);
    NamesInOrder(rule);
    ZipExact(names, CanonicalNames(|names|));
    var i :| 0 <= i < |names| && names[i] == v;
    EarlierNames(names, i);
  }

  lemma EarlierNames(names: seq<string>, i: nat)
    requires i < |names| && forall j, k :: 0 <= j < k < |names| ==> Before(names[j], names[k])
    ensures |NamesBefore(names, names[i])| == i
  {
    hide Before;
    var front := names[..i];
    forall j, k | 0 <= j < k < |front| ensures front[j] != front[k] {
      NotBeforeSelf(front[j]);
    }
    NoDuplicatesSize(front);
    forall w ensures w in NamesBefore(names, names[i]) <==> w in front {
      if w in front {
        var j :| 0 <= j < i && front[j] == w;
        assert names[j] == w;
      }
      if w in NamesBefore(names, names[i]) {
        var j :| 0 <= j < |names| && names[j] == w;
        if j == i {
          NotBeforeSelf(w);
        } else if i < j {
          BeforeAsymmetric(names[i], names[j]);
        }
        assert front[j] == w;
      }
    }
    assert NamesBefore(names, names[i]) == set w | w in front;
  }

  // ---- Two equivalent rules of eight variables with different keys ----

  function Variable(name: string): VariableDefinition {
    VariableDefinition(name, None)
  }

  const EIGHT: seq<VariableDefinition> :=
    [Variable("A"), Variable("B"), Variable("C"), Variable("D"), Variable("E"), Variable("F"), Variable("G"),
     Variable("H")]

  /** `p(x, y) -> q(x)` with eight declared variables. */
  function Projection(x: string, y: string): Rule {
    Rule("r", EIGHT, [RuleLiteral("p", [VariableTerm(x), VariableTerm(y)], false, "s")],
         RuleLiteral("q", [VariableTerm(x)], false, "s"), "s")
  }

  lemma ProjectionVars(x: string, y: string)
    ensures Vars(Projection(x, y).body[0]) == {x, y} && Vars(Projection(x, y).head) == {x}
    ensures BodyVars(Projection(x, y).body) == {x, y}
  {
    var r := Projection(x, y);
    assert r.body[0].arguments[0] == VariableTerm(x) && r.body[0].arguments[1] == VariableTerm(y);
    assert r.head.arguments[0] == VariableTerm(x);
    assert r.body[0] in r.body;
  }

  lemma EightDistinct()
    ensures DistinctIds(EIGHT, VARIABLE_NAME)
  {
    forall i, j | 0 <= i < j < |EIGHT| ensures EIGHT[i].name[0] != EIGHT[j].name[0] {
    }
  }

  lemma ProjectionNamed(x: string, y: string)
    requires x in {"A", "B"} && y in {"A", "B"}
    ensures WellNamed(Projection(x, y)) && |NamesOf(Projection(x, y))| == 8
  {
    hide NamesOf;
    var r := Projection(x, y);
    ProjectionVars(x, y);
    assert EIGHT[0].name == "A" && EIGHT[1].name == "B" && EIGHT[0] in EIGHT && EIGHT[1] in EIGHT;
    EightDistinct();
    NamesExact(r);
  }

  /** `p(A, B) -> q(A)` and `p(B, A) -> q(B)` are one rule up to renaming, but with eight declared variables
      their keys differ whatever the text of a shape is. */
  lemma EquivalentRulesDifferentKeys(dumps: Dumps, kr: string, kq: string)
    requires InjectiveDumps(dumps)
    requires IsRuleKey(dumps, Projection("A", "B"), kr) && IsRuleKey(dumps, Projection("B", "A"), kq)
    ensures AlphaEquivalent(Projection("A", "B"), Projection("B", "A")) && kr != kq
  {
    hide NamesOf, WellNamed, IsRuleKey, CanonicalNames, Zip, InjectiveDumps;
    var r, q := Projection("A", "B"), Projection("B", "A");
    ProjectionNamed("A", "B");
    ProjectionNamed("B", "A");
    ProjectionsEquivalent();
    KeysBeyondSevenAgree(dumps, r, q, kr, kq);
    assert NamesOf(r) == NamesOf(q) by {
      SameNames(r, q);
    }
    AssignmentsExact(r);
    AssignmentNames(r, CanonicalNames(8));
    HeadsDiffer(Zip(NamesOf(r), CanonicalNames(8)));
  }

  lemma SameNames(r: Rule, q: Rule)
    requires r.variables == q.variables
    ensures NamesOf(r) == NamesOf(q)
  {
  }

  lemma HeadsDiffer(m: Renaming)
    requires InjectiveRenaming(m) && "A" in m && "B" in m
    ensures Vars(Projection("A", "B").head) <= m.Keys && Vars(Projection("B", "A").head) <= m.Keys
    ensures MapLiteral(Projection("A", "B").head, m) != MapLiteral(Projection("B", "A").head, m)
  {
    ProjectionVars("A", "B");
    ProjectionVars("B", "A");
    assert MapLiteral(Projection("A", "B").head, m).arguments[0] == VariableTerm(m["A"]);
    assert MapLiteral(Projection("B", "A").head, m).arguments[0] == VariableTerm(m["B"]);
  }

  lemma ProjectionMapped(x: string, y: string, m: Renaming)
    requires x in m && y in m
    ensures RuleNamed(Projection(x, y), m)
    ensures MapBody(Projection(x, y).body, m) ==
              [LiteralShape("p", false, [VariableTerm(m[x]), VariableTerm(m[y])])]
    ensures MapLiteral(Projection(x, y).head, m) == LiteralShape("q", false, [VariableTerm(m[x])])
  {
    ProjectionVars(x, y);
    var r := Projection(x, y);
    assert BodyNamed(r.body, m);
    assert MapLiteral(r.body[0], m).arguments == [VariableTerm(m[x]), VariableTerm(m[y])];
    assert MapLiteral(r.head, m).arguments == [VariableTerm(m[x])];
    assert MapBody(r.body, m) == [MapLiteral(r.body[0], m)];
  }

  lemma ProjectionsEquivalent()
    ensures AlphaEquivalent(Projection("A", "B"), Projection("B", "A"))
  {
    hide RuleNamed, MapBody, MapLiteral;
    var m: Renaming := map["A" := "A", "B" := "B"];
    var n: Renaming := map["B" := "A", "A" := "B"];
    ProjectionMapped("A", "B", m);
    ProjectionMapped("B", "A", n);
    assert SameShape(Projection("A", "B"), Projection("B", "A"), m, n);
  }
}
