/** The orders of the sort keys, in the plain terms of their parts: strings by code points, literals by
    predicate, arity or sign, and arguments (`sort_key` in backend/src/verilogic_ns_api/reasoning/models.py,
    `rule_literal_sort_key` in backend/src/verilogic_ns_api/reasoning/unification.py). */
module Orders {
  import opened Keys
  import opened Logic
  import opened Semantics
  import opened Unification

  // ---- Strings ----

  /** Equal up to place `k`, where `s` ends or has the smaller character. */
  ghost predicate Parts(s: string, t: string, k: nat) {
    k <= |s| && k < |t| && s[..k] == t[..k] && (k == |s| || s[k] < t[k])
  }

  /** `s` comes strictly before `t` in the order of code points, a proper prefix first. */
  ghost predicate Before(s: string, t: string) {
    exists k: nat :: Parts(s, t, k)
  }

  lemma PartsShift(s: string, t: string, k: nat)
    requires s != [] && t != [] && s[0] == t[0]
    ensures Parts(s, t, k + 1) <==> Parts(s[1..], t[1..], k)
  {
    if k < |s| && k < |t| {
      assert s[..k + 1] == [s[0]] + s[1..][..k] && t[..k + 1] == [t[0]] + t[1..][..k];
      assert s[1..][..k] == s[..k + 1][1..] && t[1..][..k] == t[..k + 1][1..];
    }
  }

  lemma PartsFirst(s: string, t: string, k: nat)
    requires Parts(s, t, k) && s != []
    ensures t != [] && (k > 0 ==> s[0] == t[0])
  {
    if k > 0 {
      assert s[..k][0] == t[..k][0];
    }
  }

  lemma NotBeforeSelf(s: string)
    ensures !Before(s, s)
  {
  }

  /** Python's `<=` on strings. */
  lemma {:induction false} StringOrder(s: string, t: string)
    ensures Leq(Str(s), Str(t)) <==> s == t || Before(s, t)
  {
    if s == [] {
      if t != [] {
        assert Parts(s, t, 0);
      }
    } else if t != [] {
      if s[0] == t[0] {
        StringOrder(s[1..], t[1..]);
        assert s == t <==> s[1..] == t[1..] by {
          assert s == [s[0]] + s[1..] && t == [t[0]] + t[1..];
        }
        BeforeShift(s, t);
      } else if s[0] < t[0] {
        assert Parts(s, t, 0);
      } else if Before(s, t) {
        var k: nat :| Parts(s, t, k);
        PartsFirst(s, t, k);
      }
    }
  }

  lemma BeforeShift(s: string, t: string)
    requires s != [] && t != [] && s[0] == t[0]
    ensures Before(s, t) <==> Before(s[1..], t[1..])
  {
    if k: nat :| Parts(s, t, k) {
      assert k > 0;
      PartsShift(s, t, k - 1);
    }
    if k: nat :| Parts(s[1..], t[1..], k) {
      PartsShift(s, t, k);
    }
  }

  lemma StrictStringOrder(s: string, t: string)
    ensures Less(Str(s), Str(t)) <==> Before(s, t)
  {
    hide Before, Leq;
    StringOrder(s, t);
    NotBeforeSelf(s);
  }

  // ---- Argument tuples ----

  ghost predicate TuplePart(a: seq<string>, b: seq<string>, k: nat) {
    k <= |a| && k < |b| && a[..k] == b[..k] && (k == |a| || Before(a[k], b[k]))
  }

  ghost predicate TupleBefore(a: seq<string>, b: seq<string>) {
    exists k: nat :: TuplePart(a, b, k)
  }

  lemma TupleShift(a: seq<string>, b: seq<string>)
    requires a != [] && b != [] && a[0] == b[0]
    ensures TupleBefore(a, b) <==> TupleBefore(a[1..], b[1..])
  {
    hide Before;
    NotBeforeSelf(a[0]);
    if k: nat :| TuplePart(a, b, k) {
      assert k > 0;
      assert a[1..][..k - 1] == a[..k][1..] && b[1..][..k - 1] == b[..k][1..];
      assert TuplePart(a[1..], b[1..], k - 1);
    }
    if k: nat :| TuplePart(a[1..], b[1..], k) {
      assert a[..k + 1] == [a[0]] + a[1..][..k] && b[..k + 1] == [b[0]] + b[1..][..k];
      assert TuplePart(a, b, k + 1);
    }
  }

  lemma TuplePrefix(a: seq<string>, b: seq<string>, k: nat)
    requires TuplePart(a, b, k) && k > 0
    ensures a[0] == b[0]
  {
    assert a[..k][0] == b[..k][0];
  }

  lemma TupleDiffers(a: seq<string>, b: seq<string>)
    requires a != [] && b != [] && a[0] != b[0]
    ensures TupleBefore(a, b) <==> Before(a[0], b[0])
  {
    hide Before;
    if Before(a[0], b[0]) {
      assert TuplePart(a, b, 0);
    }
    if k: nat :| TuplePart(a, b, k) {
      if k > 0 {
        TuplePrefix(a, b, k);
      }
    }
  }

  lemma {:induction false} TupleOrder(a: seq<string>, b: seq<string>)
    ensures Leq(StrTuple(a), StrTuple(b)) <==> a == b || TupleBefore(a, b)
  {
    hide Before, TupleBefore;
    if a == [] || b == [] {
      EmptyTuples(a, b);
    } else if a[0] == b[0] {
      TupleShift(a, b);
      TupleOrder(a[1..], b[1..]);
      assert a == [a[0]] + a[1..] && b == [b[0]] + b[1..];
    } else {
      TupleDiffers(a, b);
      StringOrder(a[0], b[0]);
    }
  }

  lemma EmptyTuples(a: seq<string>, b: seq<string>)
    requires a == [] || b == []
    ensures TupleBefore(a, b) <==> a == [] && b != []
  {
    if a == [] && b != [] {
      assert TuplePart(a, b, 0);
    }
  }

  // ---- Terms ----

  /** An entity before any variable, and by name otherwise. */
  ghost predicate TermBefore(s: Term, t: Term) {
    match (s, t)
    case (EntityTerm(a), EntityTerm(b)) => Before(a, b)
    case (EntityTerm(_), VariableTerm(_)) => true
    case (VariableTerm(_), EntityTerm(_)) => false
    case (VariableTerm(a), VariableTerm(b)) => Before(a, b)
  }

  lemma KindOrder()
    ensures Before("entity", "variable") && !Before("variable", "entity")
  {
    assert Parts("entity", "variable", 0);
    if Before("variable", "entity") {
      var k: nat :| Parts("variable", "entity", k);
      PartsFirst("variable", "entity", k);
    }
  }

  lemma TermOrder(s: Term, t: Term)
    ensures Leq(TermKey(s), TermKey(t)) <==> s == t || TermBefore(s, t)
  {
    hide Before;
    KindOrder();
    StringOrder("entity", "variable");
    StringOrder("variable", "entity");
    StringOrder(NameOf(s), NameOf(t));
    assert |"entity"| != |"variable"|;
  }

  function NameOf(t: Term): string {
    if t.EntityTerm? then t.id else t.name
  }

  ghost predicate TermsPart(a: seq<Term>, b: seq<Term>, k: nat) {
    k <= |a| && k < |b| && a[..k] == b[..k] && (k == |a| || TermBefore(a[k], b[k]))
  }

  ghost predicate TermsBefore(a: seq<Term>, b: seq<Term>) {
    exists k: nat :: TermsPart(a, b, k)
  }

  lemma TermNotBeforeSelf(t: Term)
    ensures !TermBefore(t, t)
  {
    NotBeforeSelf(NameOf(t));
  }

  lemma TermsShift(a: seq<Term>, b: seq<Term>)
    requires a != [] && b != [] && a[0] == b[0]
    ensures TermsBefore(a, b) <==> TermsBefore(a[1..], b[1..])
  {
    hide TermBefore;
    TermNotBeforeSelf(a[0]);
    if k: nat :| TermsPart(a, b, k) {
      assert k > 0;
      assert a[1..][..k - 1] == a[..k][1..] && b[1..][..k - 1] == b[..k][1..];
      assert TermsPart(a[1..], b[1..], k - 1);
    }
    if k: nat :| TermsPart(a[1..], b[1..], k) {
      assert a[..k + 1] == [a[0]] + a[1..][..k] && b[..k + 1] == [b[0]] + b[1..][..k];
      assert TermsPart(a, b, k + 1);
    }
  }

  lemma TermsPrefix(a: seq<Term>, b: seq<Term>, k: nat)
    requires TermsPart(a, b, k) && k > 0
    ensures a[0] == b[0]
  {
    assert a[..k][0] == b[..k][0];
  }

  lemma TermsDiffer(a: seq<Term>, b: seq<Term>)
    requires a != [] && b != [] && a[0] != b[0]
    ensures TermsBefore(a, b) <==> TermBefore(a[0], b[0])
  {
    hide TermBefore;
    if TermBefore(a[0], b[0]) {
      assert TermsPart(a, b, 0);
    }
    if k: nat :| TermsPart(a, b, k) {
      if k > 0 {
        TermsPrefix(a, b, k);
      }
    }
  }

  lemma EmptyTerms(a: seq<Term>, b: seq<Term>)
    requires a == [] || b == []
    ensures TermsBefore(a, b) <==> a == [] && b != []
  {
    if a == [] && b != [] {
      assert TermsPart(a, b, 0);
    }
  }

  lemma TermKeySame(s: Term, t: Term)
    ensures TermKey(s) == TermKey(t) <==> s == t
  {
    assert |"entity"| != |"variable"|;
  }

  lemma {:induction false} TermsOrder(a: seq<Term>, b: seq<Term>)
    ensures Leq(TermsKey(a), TermsKey(b)) <==> a == b || TermsBefore(a, b)
  {
    hide TermBefore, TermsBefore, TermKey;
    if a == [] || b == [] {
      EmptyTerms(a, b);
    } else {
      TermKeySame(a[0], b[0]);
      if a[0] == b[0] {
        TermsShift(a, b);
        TermsOrder(a[1..], b[1..]);
        assert a == [a[0]] + a[1..] && b == [b[0]] + b[1..];
      } else {
        TermsDiffer(a, b);
        TermOrder(a[0], b[0]);
      }
    }
  }

  // ---- Literals ----

  lemma PairOrder(x: Key, xs: Key, y: Key, ys: Key)
    ensures Leq(Pair(x, xs), Pair(y, ys)) <==> if x == y then Leq(xs, ys) else Leq(x, y)
  {
  }

  lemma NumberOrder(m: int, n: int)
    ensures Leq(Num(m), Num(n)) <==> m <= n
  {
  }

  /** False before true. */
  lemma FlagOrder(a: bool, b: bool)
    ensures Leq(Flag(a), Flag(b)) <==> a == b || b
    ensures Flag(a) == Flag(b) <==> a == b
  {
  }

  /** By predicate, then arity, then positive before negative, then the arguments. */
  ghost predicate LiteralBefore(a: CanonicalLiteral, b: CanonicalLiteral) {
    if a.pred != b.pred then Before(a.pred, b.pred)
    else if |a.arguments| != |b.arguments| then |a.arguments| < |b.arguments|
    else if a.negated != b.negated then b.negated
    else TupleBefore(a.arguments, b.arguments)
  }

  lemma LiteralOrder(a: CanonicalLiteral, b: CanonicalLiteral)
    ensures Leq(LiteralKey(a), LiteralKey(b)) <==> a == b || LiteralBefore(a, b)
  {
    hide Before, TupleBefore, StrTuple, Leq;
    var x, y := Pair(Flag(a.negated), StrTuple(a.arguments)), Pair(Flag(b.negated), StrTuple(b.arguments));
    PairOrder(Str(a.pred), Pair(Num(|a.arguments|), x), Str(b.pred), Pair(Num(|b.arguments|), y));
    PairOrder(Num(|a.arguments|), x, Num(|b.arguments|), y);
    PairOrder(Flag(a.negated), StrTuple(a.arguments), Flag(b.negated), StrTuple(b.arguments));
    NumberOrder(|a.arguments|, |b.arguments|);
    FlagOrder(a.negated, b.negated);
    StringOrder(a.pred, b.pred);
    TupleOrder(a.arguments, b.arguments);
    if StrTuple(a.arguments) == StrTuple(b.arguments) {
      StrTupleInjective(a.arguments, b.arguments);
    }
  }

  /** By predicate, then positive before negative, then the arguments, then the source. */
  ghost predicate FactBefore(f: GroundLiteral, g: GroundLiteral) {
    if f.pred != g.pred then Before(f.pred, g.pred)
    else if f.negated != g.negated then g.negated
    else if f.arguments != g.arguments then TupleBefore(f.arguments, g.arguments)
    else Before(f.sourceId, g.sourceId)
  }

  lemma FactOrder(f: GroundLiteral, g: GroundLiteral)
    ensures Leq(FactKey(f), FactKey(g)) <==> f == g || FactBefore(f, g)
  {
    hide Before, TupleBefore, StrTuple, Leq;
    var x, y := Pair(StrTuple(f.arguments), Str(f.sourceId)), Pair(StrTuple(g.arguments), Str(g.sourceId));
    PairOrder(Str(f.pred), Pair(Flag(f.negated), x), Str(g.pred), Pair(Flag(g.negated), y));
    PairOrder(Flag(f.negated), x, Flag(g.negated), y);
    PairOrder(StrTuple(f.arguments), Str(f.sourceId), StrTuple(g.arguments), Str(g.sourceId));
    FlagOrder(f.negated, g.negated);
    StringOrder(f.pred, g.pred);
    TupleOrder(f.arguments, g.arguments);
    StringOrder(f.sourceId, g.sourceId);
    if StrTuple(f.arguments) == StrTuple(g.arguments) {
      StrTupleInjective(f.arguments, g.arguments);
    }
  }

  ghost predicate RuleLiteralBefore(a: RuleLiteral, b: RuleLiteral) {
    if a.pred != b.pred then Before(a.pred, b.pred)
    else if a.negated != b.negated then b.negated
    else if a.arguments != b.arguments then TermsBefore(a.arguments, b.arguments)
    else Before(a.sourceId, b.sourceId)
  }

  lemma RuleLiteralOrder(a: RuleLiteral, b: RuleLiteral)
    ensures Leq(RuleLiteralKey(a), RuleLiteralKey(b)) <==> a == b || RuleLiteralBefore(a, b)
  {
    hide Before, TermsBefore, TermsKey, Leq;
    var x, y := Pair(TermsKey(a.arguments), Str(a.sourceId)), Pair(TermsKey(b.arguments), Str(b.sourceId));
    PairOrder(Str(a.pred), Pair(Flag(a.negated), x), Str(b.pred), Pair(Flag(b.negated), y));
    PairOrder(Flag(a.negated), x, Flag(b.negated), y);
    PairOrder(TermsKey(a.arguments), Str(a.sourceId), TermsKey(b.arguments), Str(b.sourceId));
    FlagOrder(a.negated, b.negated);
    StringOrder(a.pred, b.pred);
    TermsOrder(a.arguments, b.arguments);
    StringOrder(a.sourceId, b.sourceId);
    if TermsKey(a.arguments) == TermsKey(b.arguments) {
      TermsKeyInjective(a.arguments, b.arguments);
    }
  }

  /** The strict order of a list, spelled out for literals. */
  lemma LiteralsInOrder(xs: seq<CanonicalLiteral>)
    ensures StrictlySorted(xs, LiteralKey) <==> forall i, j :: 0 <= i < j < |xs| ==> LiteralBefore(xs[i], xs[j])
  {
    hide LiteralKey, LiteralBefore, Leq;
    forall i, j | 0 <= i < j < |xs|
      ensures Less(LiteralKey(xs[i]), LiteralKey(xs[j])) <==> LiteralBefore(xs[i], xs[j])
    {
      StrictLiteralOrder(xs[i], xs[j]);
    }
  }

  lemma StrictLiteralOrder(a: CanonicalLiteral, b: CanonicalLiteral)
    ensures Less(LiteralKey(a), LiteralKey(b)) <==> LiteralBefore(a, b)
  {
    hide LiteralKey, Leq, Before, TupleBefore;
    LiteralOrder(a, b);
    LiteralKeysInjective();
    TupleNotBeforeSelf(a.arguments);
  }

  lemma TupleNotBeforeSelf(a: seq<string>)
    ensures !TupleBefore(a, a)
  {
    hide Before;
    if k: nat :| TuplePart(a, a, k) {
      NotBeforeSelf(a[k]);
    }
  }

  /** The body of a rule in the order in which the engine and the verifier take it. */
  lemma BodyInOrder(body: seq<RuleLiteral>)
    ensures multiset(SortedBody(body)) == multiset(body)
    ensures forall i, j :: 0 <= i < j < |SortedBody(body)| ==>
              SortedBody(body)[i] == SortedBody(body)[j] || RuleLiteralBefore(SortedBody(body)[i], SortedBody(body)[j])
  {
    hide RuleLiteralKey, RuleLiteralBefore, Leq;
    SortByMultiset(body, RuleLiteralKey);
    SortBySorted(body, RuleLiteralKey);
    var sorted := SortedBody(body);
    forall i, j | 0 <= i < j < |sorted| ensures sorted[i] == sorted[j] || RuleLiteralBefore(sorted[i], sorted[j]) {
      RuleLiteralOrder(sorted[i], sorted[j]);
    }
  }

  // ---- Substitutions ----

  /** The first variable, in order, at which the two differ, has the smaller entity in `s`. */
  ghost predicate SmallerAt(s: Subst, t: Subst, v: string) {
    && v in s && v in t && Before(s[v], t[v])
    && forall w :: w in s && w in t && Before(w, v) ==> s[w] == t[w]
  }

  ghost predicate SubstBefore(s: Subst, t: Subst) {
    exists v :: SmallerAt(s, t, v)
  }

  lemma FirstOf(s: Subst) returns (v: string)
    requires s != map[]
    ensures v in s && SortedItems(s) == [Binding(v, s[v])] + SortedItems(s - {v})
    ensures forall w :: w in s && w != v ==> Before(v, w)
  {
    hide Leq, Before;
    v := FirstString(s.Keys);
    forall w | w in s && w != v ensures Before(v, w) {
      StringOrder(v, w);
    }
  }

  lemma FirstAgrees(s: Subst, t: Subst, v: string, w: string)
    requires s.Keys == t.Keys && v in s && w in s
    requires forall u :: u in s && u != v ==> Before(v, u)
    requires forall u :: u in s && u != w ==> Before(w, u)
    ensures v == w
  {
    hide Before;
    if v != w {
      BeforeAsymmetric(v, w);
    }
  }

  lemma BeforeAsymmetric(s: string, t: string)
    requires Before(s, t)
    ensures !Before(t, s)
  {
    hide Before, Leq;
    StringOrder(s, t);
    StringOrder(t, s);
    if Before(t, s) {
      Antisymmetric(Str(s), Str(t));
      NotBeforeSelf(s);
    }
  }

  lemma SmallerRest(s: Subst, t: Subst, v: string)
    requires s.Keys == t.Keys && v in s && s[v] == t[v]
    requires forall w :: w in s && w != v ==> Before(v, w)
    ensures SubstBefore(s, t) <==> SubstBefore(s - {v}, t - {v})
  {
    hide Before;
    if u :| SmallerAt(s, t, u) {
      NotBeforeSelf(s[v]);
      assert SmallerAt(s - {v}, t - {v}, u);
    }
    if u :| SmallerAt(s - {v}, t - {v}, u) {
      assert SmallerAt(s, t, u);
    }
  }

  lemma NothingBeforeFirst(s: Subst, v: string)
    requires v in s && forall w :: w in s && w != v ==> Before(v, w)
    ensures forall w :: w in s ==> !Before(w, v)
  {
    hide Before;
    NotBeforeSelf(v);
    forall w | w in s ensures !Before(w, v) {
      if w != v {
        BeforeAsymmetric(v, w);
      }
    }
  }

  lemma SmallerFirst(s: Subst, t: Subst, v: string)
    requires s.Keys == t.Keys && v in s && s[v] != t[v]
    requires forall w :: w in s && w != v ==> Before(v, w)
    ensures SubstBefore(s, t) <==> Before(s[v], t[v])
  {
    hide Before;
    NotBeforeSelf(v);
    if Before(s[v], t[v]) {
      NothingBeforeFirst(s, v);
      assert SmallerAt(s, t, v);
    }
  }

  /** Sorted bindings of the same variables compare at the first variable that differs. */
  lemma {:induction false} SubstOrder(s: Subst, t: Subst)
    requires s.Keys == t.Keys
    ensures Leq(BindingsKey(SortedItems(s)), BindingsKey(SortedItems(t))) <==> s == t || SubstBefore(s, t)
    decreases |s|
  {
    hide Before, SubstBefore, SortedItems, Leq, BindingsKey;
    if s == map[] {
      EmptySubsts(s, t);
    } else {
      var v := SameFirst(s, t);
      FirstBindings(s, t, v);
      StringOrder(s[v], t[v]);
      if s[v] == t[v] {
        SmallerRest(s, t, v);
        SubstOrder(s - {v}, t - {v});
        assert s == (s - {v})[v := s[v]] && t == (t - {v})[v := t[v]];
      } else {
        SmallerFirst(s, t, v);
      }
    }
  }

  /** Substitutions of the same variables have the same first one. */
  lemma SameFirst(s: Subst, t: Subst) returns (v: string)
    requires s.Keys == t.Keys && s != map[]
    ensures v in s && forall w :: w in s && w != v ==> Before(v, w)
    ensures SortedItems(s) == [Binding(v, s[v])] + SortedItems(s - {v})
    ensures SortedItems(t) == [Binding(v, t[v])] + SortedItems(t - {v})
  {
    hide Before, SortedItems;
    v := FirstOf(s);
    assert t != map[] by {
      assert v in t;
    }
    var w := FirstOf(t);
    FirstAgrees(s, t, v, w);
  }

  lemma EmptySubsts(s: Subst, t: Subst)
    requires s == map[] && s.Keys == t.Keys
    ensures s == t && Leq(BindingsKey(SortedItems(s)), BindingsKey(SortedItems(t)))
  {
  }

  lemma FirstBindings(s: Subst, t: Subst, v: string)
    requires v in s && SortedItems(s) == [Binding(v, s[v])] + SortedItems(s - {v})
    requires v in t && SortedItems(t) == [Binding(v, t[v])] + SortedItems(t - {v})
    ensures Leq(BindingsKey(SortedItems(s)), BindingsKey(SortedItems(t))) <==>
              if s[v] == t[v] then Leq(BindingsKey(SortedItems(s - {v})), BindingsKey(SortedItems(t - {v})))
              else Leq(Str(s[v]), Str(t[v]))
  {
    hide SortedItems, Leq;
    var x, y := SortedItems(s - {v}), SortedItems(t - {v});
    assert SortedItems(s)[1..] == x && SortedItems(t)[1..] == y;
    PairOrder(Pair(Str(v), Str(s[v])), BindingsKey(x), Pair(Str(v), Str(t[v])), BindingsKey(y));
    PairOrder(Str(v), Str(s[v]), Str(v), Str(t[v]));
  }

  /** The states of a join over one body come in the order of their bindings. */
  lemma StateOrder(a: JoinState, b: JoinState)
    requires a.sub.Keys == b.sub.Keys && a.sub != b.sub
    ensures Less(StateKey(a), StateKey(b)) <==> SubstBefore(a.sub, b.sub)
  {
    hide Leq, SortedItems, BindingsKey, SubstBefore, PremisesKey;
    SubstOrder(a.sub, b.sub);
    PairOrder(BindingsKey(SortedItems(a.sub)), PremisesKey(a.premises),
              BindingsKey(SortedItems(b.sub)), PremisesKey(b.premises));
    if BindingsKey(SortedItems(a.sub)) == BindingsKey(SortedItems(b.sub)) {
      SubstKeyInjective(a.sub, b.sub);
    }
  }
}
