/** Matching and the indexed multi-way join
    (backend/src/verilogic_ns_api/reasoning/unification.py). */
module Unification {
  import opened Keys
  import opened Logic
  import opened Semantics

  // ---- Substitutions as sorted bindings ----

  datatype Binding = Binding(variable: string, entity: string)

  function BindingKey(b: Binding): Key {
    Pair(Str(b.variable), Str(b.entity))
  }

  /** `tuple(sorted(substitution.items()))`. */
  function SortedItems(s: Subst): seq<Binding>
    decreases |s|
  {
    if s == map[] then []
    else
      var v := FirstString(s.Keys);
      [Binding(v, s[v])] + SortedItems(s - {v})
  }

  /** `dict(items)`; a later item wins. */
  function DictOf(items: seq<Binding>): Subst {
    if items == [] then map[]
    else DictOf(items[..|items| - 1])[items[|items| - 1].variable := items[|items| - 1].entity]
  }

  ghost predicate DistinctVariables(items: seq<Binding>) {
    forall i, j :: 0 <= i < j < |items| ==> items[i].variable != items[j].variable
  }

  lemma {:induction false} SortedItemsExact(s: Subst)
    ensures forall b :: b in SortedItems(s) <==> b.variable in s && s[b.variable] == b.entity
    ensures DistinctVariables(SortedItems(s))
    ensures Sorted(SortedItems(s), BindingKey)
    ensures |SortedItems(s)| == |s|
    decreases |s|
  {
    if s != map[] {
      var v := FirstString(s.Keys);
      var rest := SortedItems(s - {v});
      SortedItemsExact(s - {v});
      assert (s - {v}).Keys == s.Keys - {v};
      assert SortedItems(s) == [Binding(v, s[v])] + rest;
      SortedItemsStep(Binding(v, s[v]), rest);
    }
  }

  lemma SortedItemsStep(first: Binding, rest: seq<Binding>)
    requires Sorted(rest, BindingKey) && DistinctVariables(rest)
    requires forall b :: b in rest ==> b.variable != first.variable && Leq(Str(first.variable), Str(b.variable))
    ensures Sorted([first] + rest, BindingKey) && DistinctVariables([first] + rest)
  {
    forall j | 0 <= j < |rest|
      ensures rest[j].variable != first.variable && Leq(BindingKey(first), BindingKey(rest[j]))
    {
      assert rest[j] in rest;
    }
  }

  lemma {:induction false} DictOfExact(items: seq<Binding>)
    requires DistinctVariables(items)
    ensures forall b :: b in items <==> b.variable in DictOf(items) && DictOf(items)[b.variable] == b.entity
    ensures |DictOf(items)| == |items|
  {
    if items != [] {
      var front, last := items[..|items| - 1], items[|items| - 1];
      DictOfExact(front);
      assert items == front + [last];
      var shadowed := if last.variable in DictOf(front) then DictOf(front)[last.variable] else "";
      assert Binding(last.variable, shadowed) !in front;
    }
  }

  /** Reading the sorted items back gives the substitution they came from. */
  lemma SortedItemsRoundTrip(s: Subst)
    ensures DictOf(SortedItems(s)) == s
  {
    hide Leq;
    var items := SortedItems(s);
    SortedItemsExact(s);
    DictOfExact(items);
    var d := DictOf(items);
    forall v ensures v in d <==> v in s {
      if v in d {
        assert Binding(v, d[v]) in items;
      }
      if v in s {
        assert Binding(v, s[v]) in items;
      }
    }
    forall v | v in d ensures d[v] == s[v] {
      assert Binding(v, d[v]) in items;
    }
  }

  /** Sorted items pass the verifier's check that a substitution is listed in order. */
  lemma SortedItemsInOrder(s: Subst)
    ensures SortBy(SortedItems(s), BindingKey) == SortedItems(s)
  {
    hide Leq;
    var items := SortedItems(s);
    SortedItemsExact(s);
    SortBySorted(items, BindingKey);
    SortByMultiset(items, BindingKey);
    SortedUnique(items, SortBy(items, BindingKey), BindingKey);
  }

  function BindingsKey(items: seq<Binding>): Key {
    if items == [] then Nil else Pair(BindingKey(items[0]), BindingsKey(items[1..]))
  }

  lemma {:induction false} BindingsKeyInjective(a: seq<Binding>, b: seq<Binding>)
    requires BindingsKey(a) == BindingsKey(b)
    ensures a == b
  {
    if a != [] && b != [] {
      BindingsKeyInjective(a[1..], b[1..]);
      assert a == [a[0]] + a[1..] && b == [b[0]] + b[1..];
    }
  }

  /** The sort key of a substitution determines it. */
  lemma SubstKeyInjective(s: Subst, t: Subst)
    requires BindingsKey(SortedItems(s)) == BindingsKey(SortedItems(t))
    ensures s == t
  {
    hide SortedItems, DictOf;
    BindingsKeyInjective(SortedItems(s), SortedItems(t));
    SortedItemsRoundTrip(s);
    SortedItemsRoundTrip(t);
  }

  // ---- One pattern against one literal ----

  ghost predicate Extends(s: Subst, base: Subst) {
    base.Keys <= s.Keys && forall v :: v in base ==> s[v] == base[v]
  }

  /** `match_literal`: the least extension of the substitution that grounds the pattern to the
      candidate, or nothing when no extension does. */
  method MatchLiteral(pattern: RuleLiteral, candidate: CanonicalLiteral, substitution: Subst)
    returns (r: Option<Subst>)
    ensures r.Some? ==>
              && r.value.Keys == substitution.Keys + Vars(pattern)
              && Extends(r.value, substitution)
              && Ground(pattern, r.value) == candidate
    ensures r.None? ==>
        forall s | Extends(s, substitution) && Vars(pattern) <= s.Keys :: Ground(pattern, s) != candidate
  {
    hide MatchedTo;
    if pattern.pred != candidate.pred || |pattern.arguments| != |candidate.arguments|
      || pattern.negated != candidate.negated {
      return None;
    }
    var result := substitution;
    MatchStart(pattern, candidate, substitution);
    for i := 0 to |pattern.arguments|
      invariant MatchedTo(pattern, candidate, substitution, i, result)
    {
      var term, entity := pattern.arguments[i], candidate.arguments[i];
      MatchNext(pattern, candidate, substitution, i, result);
      if term.EntityTerm? {
        if term.id != entity {
          return None;
        }
      } else {
        if term.name in result && result[term.name] != entity {
          return None;
        }
        result := result[term.name := entity];
      }
    }
    MatchEnd(pattern, candidate, substitution, result);
    return Some(result);
  }

  ghost predicate Grounded(pattern: RuleLiteral, candidate: CanonicalLiteral, s: Subst) {
    Vars(pattern) <= s.Keys && Ground(pattern, s) == candidate
  }

  /** The least extension that matches the first `n` arguments. */
  ghost predicate MatchedTo(pattern: RuleLiteral, candidate: CanonicalLiteral, base: Subst, n: nat, s: Subst) {
    && n <= |pattern.arguments| == |candidate.arguments|
    && pattern.pred == candidate.pred && pattern.negated == candidate.negated
    && s.Keys == base.Keys + VarsBefore(pattern, n) && Extends(s, base)
    && (forall j :: 0 <= j < n ==> AgreesAt(pattern, candidate, s, j))
    && forall t :: Extends(t, base) && Grounded(pattern, candidate, t) ==> Extends(t, s)
  }

  lemma MatchStart(pattern: RuleLiteral, candidate: CanonicalLiteral, base: Subst)
    requires |pattern.arguments| == |candidate.arguments|
    requires pattern.pred == candidate.pred && pattern.negated == candidate.negated
    ensures MatchedTo(pattern, candidate, base, 0, base)
  {
    assert VarsBefore(pattern, 0) == {};
  }

  lemma GroundedAt(pattern: RuleLiteral, candidate: CanonicalLiteral, s: Subst, i: nat)
    requires Grounded(pattern, candidate, s) && i < |pattern.arguments| == |candidate.arguments|
    ensures pattern.arguments[i].VariableTerm? ==> pattern.arguments[i].name in s
    ensures GroundTerm(pattern.arguments[i], s) == candidate.arguments[i]
  {
    assert Ground(pattern, s).arguments[i] == candidate.arguments[i];
  }

  /** The argument cannot stand for the entity. */
  predicate Clashes(term: Term, entity: string, s: Subst) {
    if term.EntityTerm? then term.id != entity else term.name in s && s[term.name] != entity
  }

  /** What one argument adds to the match, or why it cannot. */
  lemma MatchNext(pattern: RuleLiteral, candidate: CanonicalLiteral, base: Subst, i: nat, s: Subst)
    requires MatchedTo(pattern, candidate, base, i, s) && i < |pattern.arguments|
    ensures var term, entity := pattern.arguments[i], candidate.arguments[i];
            if Clashes(term, entity, s)
            then forall t | Extends(t, base) && Vars(pattern) <= t.Keys :: Ground(pattern, t) != candidate
            else MatchedTo(pattern, candidate, base, i + 1, if term.EntityTerm? then s else s[term.name := entity])
  {
    hide Grounded, Ground;
    var term, entity := pattern.arguments[i], candidate.arguments[i];
    forall t | Extends(t, base) && Grounded(pattern, candidate, t)
      ensures term.VariableTerm? ==> term.name in t
      ensures GroundTerm(term, t) == entity
    {
      GroundedAt(pattern, candidate, t, i);
    }
    VarsBeforeNext(pattern, i);
    if Clashes(term, entity, s) {
      forall t | Extends(t, base) && Vars(pattern) <= t.Keys ensures Ground(pattern, t) != candidate {
        GroundedUnfold(pattern, candidate, t);
      }
    } else {
      var more := if term.EntityTerm? then s else s[term.name := entity];
      forall j | 0 <= j < i + 1 ensures AgreesAt(pattern, candidate, more, j) {
        assert j < i ==> AgreesAt(pattern, candidate, s, j);
      }
    }
  }

  lemma GroundedUnfold(pattern: RuleLiteral, candidate: CanonicalLiteral, t: Subst)
    requires Vars(pattern) <= t.Keys
    ensures Grounded(pattern, candidate, t) <==> Ground(pattern, t) == candidate
  {
  }

  lemma VarsBeforeNext(pattern: RuleLiteral, i: nat)
    requires i < |pattern.arguments|
    ensures VarsBefore(pattern, i + 1) ==
              VarsBefore(pattern, i) + (if pattern.arguments[i].VariableTerm? then {pattern.arguments[i].name} else {})
  {
  }

  lemma MatchEnd(pattern: RuleLiteral, candidate: CanonicalLiteral, base: Subst, s: Subst)
    requires MatchedTo(pattern, candidate, base, |pattern.arguments|, s)
    ensures s.Keys == base.Keys + Vars(pattern) && Extends(s, base) && Ground(pattern, s) == candidate
  {
    assert VarsBefore(pattern, |pattern.arguments|) == Vars(pattern);
    assert Ground(pattern, s).arguments == candidate.arguments by {
      forall j | 0 <= j < |pattern.arguments|
        ensures Ground(pattern, s).arguments[j] == candidate.arguments[j]
      {
        assert AgreesAt(pattern, candidate, s, j);
      }
    }
  }

  ghost function VarsBefore(pattern: RuleLiteral, n: nat): set<string>
    requires n <= |pattern.arguments|
  {
    set i | 0 <= i < n && pattern.arguments[i].VariableTerm? :: pattern.arguments[i].name
  }

  ghost predicate AgreesAt(pattern: RuleLiteral, candidate: CanonicalLiteral, s: Subst, j: nat)
    requires j < |pattern.arguments| == |candidate.arguments|
  {
    && (pattern.arguments[j].VariableTerm? ==> pattern.arguments[j].name in s)
    && GroundTerm(pattern.arguments[j], s) == candidate.arguments[j]
  }

  /** `ground_literal`: fails exactly when a variable of the pattern is not bound. */
  method GroundLiteralOf(pattern: RuleLiteral, substitution: Subst) returns (r: Option<CanonicalLiteral>)
    ensures r.Some? <==> Vars(pattern) <= substitution.Keys
    ensures r.Some? ==> r.value == Ground(pattern, substitution)
  {
    var arguments: seq<string> := [];
    for i := 0 to |pattern.arguments|
      invariant |arguments| == i
      invariant forall j :: 0 <= j < i ==>
                  && (pattern.arguments[j].VariableTerm? ==> pattern.arguments[j].name in substitution)
                  && arguments[j] == GroundTerm(pattern.arguments[j], substitution)
    {
      var term := pattern.arguments[i];
      if term.EntityTerm? {
        arguments := arguments + [term.id];
      } else {
        if term.name !in substitution {
          assert term.name in Vars(pattern);
          return None;
        }
        arguments := arguments + [substitution[term.name]];
      }
    }
    return Some(CanonicalLiteral(pattern.pred, arguments, pattern.negated));
  }

  // ---- The index ----

  datatype IndexKey = IndexKey(pred: string, arity: nat, negated: bool)

  function IndexKeyOf(l: CanonicalLiteral): IndexKey {
    IndexKey(l.pred, |l.arguments|, l.negated)
  }

  function PatternKey(p: RuleLiteral): IndexKey {
    IndexKey(p.pred, |p.arguments|, p.negated)
  }

  type Index = map<IndexKey, seq<CanonicalLiteral>>

  /** The index lists every known literal once, in order, under its own key and nothing else. */
  ghost predicate IndexesExactly(index: Index, known: set<CanonicalLiteral>) {
    && (forall l :: l in known ==> IndexKeyOf(l) in index && l in index[IndexKeyOf(l)])
    && (forall k, l :: k in index && l in index[k] ==> l in known && IndexKeyOf(l) == k)
    && (forall k :: k in index ==> StrictlySorted(index[k], LiteralKey))
  }

  // ---- The join ----

  datatype JoinState = JoinState(sub: Subst, premises: seq<CanonicalLiteral>)

  function PremisesKey(ps: seq<CanonicalLiteral>): Key {
    if ps == [] then Nil else Pair(LiteralKey(ps[0]), PremisesKey(ps[1..]))
  }

  function StateKey(st: JoinState): Key {
    Pair(BindingsKey(SortedItems(st.sub)), PremisesKey(st.premises))
  }

  lemma {:induction false} PremisesKeyInjective(a: seq<CanonicalLiteral>, b: seq<CanonicalLiteral>)
    requires PremisesKey(a) == PremisesKey(b)
    ensures a == b
  {
    if a != [] && b != [] {
      LiteralKeysInjective();
      PremisesKeyInjective(a[1..], b[1..]);
      assert a == [a[0]] + a[1..] && b == [b[0]] + b[1..];
    }
  }

  lemma StateKeyInjective(a: JoinState, b: JoinState)
    requires StateKey(a) == StateKey(b)
    ensures a == b
  {
    SubstKeyInjective(a.sub, b.sub);
    PremisesKeyInjective(a.premises, b.premises);
  }

  /** `_deduplicate_states`: the same states, each once, in key order. */
  method DeduplicateStates(states: seq<JoinState>) returns (r: seq<JoinState>)
    ensures forall st :: st in r <==> st in states
    ensures StrictlySorted(r, StateKey)
  {
    forall i, j | 0 <= i < |states| && 0 <= j < |states| && StateKey(states[i]) == StateKey(states[j])
      ensures states[i] == states[j]
    {
      StateKeyInjective(states[i], states[j]);
    }
    r := Deduplicate(states, StateKey);
  }

  /** The states of the join after `patterns`: a substitution for exactly their variables, with the
      premises it grounds them to. */
  ghost predicate PartialMatch(patterns: seq<RuleLiteral>, known: set<CanonicalLiteral>, st: JoinState) {
    && st.sub.Keys == BodyVars(patterns)
    && |st.premises| == |patterns|
    && forall i | 0 <= i < |patterns| ::
         && Vars(patterns[i]) <= st.sub.Keys
         && st.premises[i] == Ground(patterns[i], st.sub)
         && st.premises[i] in known
  }

  lemma GroundRestrict(p: RuleLiteral, s: Subst, t: Subst)
    requires Vars(p) <= t.Keys && Extends(s, t)
    ensures Vars(p) <= s.Keys && Ground(p, s) == Ground(p, t)
  {
    assert Vars(p) <= s.Keys;
    assert Ground(p, s).arguments == Ground(p, t).arguments;
  }

  /** Extending a partial match by a matching literal gives a partial match of one more pattern. */
  lemma PartialMatchExtend(patterns: seq<RuleLiteral>, p: RuleLiteral, known: set<CanonicalLiteral>, st: JoinState,
                           s: Subst, l: CanonicalLiteral)
    requires PartialMatch(patterns, known, st) && l in known
    requires s.Keys == st.sub.Keys + Vars(p) && Extends(s, st.sub) && Ground(p, s) == l
    ensures PartialMatch(patterns + [p], known, JoinState(s, st.premises + [l]))
  {
    BodyVarsAppend(patterns, p);
    forall i | 0 <= i < |patterns| ensures Vars(patterns[i]) <= s.Keys && Ground(patterns[i], s) == st.premises[i] {
      GroundRestrict(patterns[i], s, st.sub);
    }
  }

  /** Every partial match of one more pattern comes from a partial match of the earlier ones. */
  lemma PartialMatchShrink(patterns: seq<RuleLiteral>, p: RuleLiteral, known: set<CanonicalLiteral>, st: JoinState)
    returns (before: JoinState)
    requires PartialMatch(patterns + [p], known, st)
    ensures PartialMatch(patterns, known, before)
    ensures st.premises == before.premises + [st.premises[|patterns|]]
    ensures st.premises[|patterns|] in known && Vars(p) <= st.sub.Keys && Ground(p, st.sub) == st.premises[|patterns|]
    ensures Extends(st.sub, before.sub) && st.sub.Keys == before.sub.Keys + Vars(p)
  {
    BodyVarsAppend(patterns, p);
    var n := |patterns|;
    before := JoinState(Restrict(st.sub, BodyVars(patterns)), st.premises[..n]);
    assert (patterns + [p])[n] == p;
    forall i | 0 <= i < n
      ensures Vars(patterns[i]) <= before.sub.Keys && Ground(patterns[i], before.sub) == st.premises[i]
    {
      assert (patterns + [p])[i] == patterns[i] && patterns[i] in patterns;
      GroundRestrict(patterns[i], st.sub, before.sub);
    }
  }

  lemma SubstDetermined(p: RuleLiteral, s: Subst, t: Subst, base: Subst)
    requires Extends(s, base) && Extends(t, base) && s.Keys == t.Keys == base.Keys + Vars(p)
    requires Ground(p, s) == Ground(p, t)
    ensures s == t
  {
    forall v | v in s ensures s[v] == t[v] {
      if v !in base {
        var i :| 0 <= i < |p.arguments| && p.arguments[i].VariableTerm? && p.arguments[i].name == v;
        assert Ground(p, s).arguments[i] == s[v] && Ground(p, t).arguments[i] == t[v];
      }
    }
  }

  /** One state against every candidate of the pattern. */
  method ExtendState(pattern: RuleLiteral, state: JoinState, candidates: seq<CanonicalLiteral>)
    returns (next: seq<JoinState>)
    ensures forall st :: st in next <==> Continues(state, pattern, candidates, st)
  {
    next := [];
    for j := 0 to |candidates|
      invariant forall st :: st in next <==> Continues(state, pattern, candidates[..j], st)
    {
      var matched := MatchLiteral(pattern, candidates[j], state.sub);
      assert candidates[..j + 1] == candidates[..j] + [candidates[j]];
      ghost var before := next;
      if matched.Some? {
        var found := JoinState(matched.value, state.premises + [candidates[j]]);
        next := next + [found];
        forall st | Continues(state, pattern, candidates[..j + 1], st) && Last(st) == candidates[j]
          ensures st == found
        {
          SubstDetermined(pattern, st.sub, matched.value, state.sub);
        }
        assert Continues(state, pattern, candidates[..j + 1], found);
      }
      forall st | Continues(state, pattern, candidates[..j + 1], st) && Last(st) != candidates[j]
        ensures Continues(state, pattern, candidates[..j], st)
      {
      }
    }
    assert candidates[..|candidates|] == candidates;
  }

  /** One step of the join: every state against every candidate of the pattern. */
  method JoinPattern(ghost patterns: seq<RuleLiteral>, pattern: RuleLiteral, ghost known: set<CanonicalLiteral>,
                     states: seq<JoinState>, candidates: seq<CanonicalLiteral>)
    returns (next: seq<JoinState>)
    requires forall st :: st in states <==> PartialMatch(patterns, known, st)
    requires forall l :: l in candidates <==> l in known && IndexKeyOf(l) == PatternKey(pattern)
    ensures forall st :: st in next <==> PartialMatch(patterns + [pattern], known, st)
    ensures StrictlySorted(next, StateKey)
  {
    var nextStates: seq<JoinState> := [];
    for i := 0 to |states|
      invariant forall st :: st in nextStates <==> ContinuesOne(states[..i], pattern, candidates, st)
    {
      var found := ExtendState(pattern, states[i], candidates);
      assert states[..i + 1] == states[..i] + [states[i]];
      nextStates := nextStates + found;
    }
    assert states[..|states|] == states;
    next := DeduplicateStates(nextStates);
    forall st ensures ContinuesOne(states, pattern, candidates, st) <==> PartialMatch(patterns + [pattern], known, st) {
      if ContinuesOne(states, pattern, candidates, st) {
        var before :| before in states && Continues(before, pattern, candidates, st);
        PartialMatchExtend(patterns, pattern, known, before, st.sub, Last(st));
      }
      if PartialMatch(patterns + [pattern], known, st) {
        var before := PartialMatchShrink(patterns, pattern, known, st);
        assert before in states;
        assert IndexKeyOf(Last(st)) == PatternKey(pattern);
        assert Last(st) in candidates;
        assert Continues(before, pattern, candidates, st);
      }
    }
  }

  ghost predicate ContinuesOne(states: seq<JoinState>, p: RuleLiteral, candidates: seq<CanonicalLiteral>,
                               st: JoinState) {
    exists before :: before in states && Continues(before, p, candidates, st)
  }

  function Last(st: JoinState): CanonicalLiteral {
    if st.premises == [] then CanonicalLiteral("", [], false) else st.premises[|st.premises| - 1]
  }

  ghost predicate Continues(before: JoinState, p: RuleLiteral, candidates: seq<CanonicalLiteral>, st: JoinState) {
    && |st.premises| == |before.premises| + 1
    && st.premises == before.premises + [Last(st)]
    && Last(st) in candidates
    && Extends(st.sub, before.sub) && st.sub.Keys == before.sub.Keys + Vars(p)
    && Ground(p, st.sub) == Last(st)
  }

  function SortedBody(body: seq<RuleLiteral>): seq<RuleLiteral> {
    SortBy(body, RuleLiteralKey)
  }

  lemma SortedBodySame(body: seq<RuleLiteral>)
    ensures |SortedBody(body)| == |body|
    ensures forall b :: b in SortedBody(body) <==> b in body
    ensures BodyVars(SortedBody(body)) == BodyVars(body)
  {
    SortByMultiset(body, RuleLiteralKey);
  }

  /** The premises of an instance: its sorted body, grounded. */
  ghost function PremisesOf(body: seq<RuleLiteral>, s: Subst): seq<CanonicalLiteral>
    requires BodyVars(body) <= s.Keys
  {
    SortedBodySame(body);
    seq(|body|, i requires 0 <= i < |body| => Ground(SortedBodyAt(body, i, s), s))
  }

  ghost function SortedBodyAt(body: seq<RuleLiteral>, i: nat, s: Subst): (b: RuleLiteral)
    requires i < |body| && BodyVars(body) <= s.Keys
    ensures b in body && Vars(b) <= s.Keys && |SortedBody(body)| == |body| && b == SortedBody(body)[i]
  {
    SortedBodySame(body);
    assert SortedBody(body)[i] in SortedBody(body);
    SortedBody(body)[i]
  }

  /** A full match of the sorted body is a match of the body, with the premises it determines. */
  lemma FullMatch(body: seq<RuleLiteral>, known: set<CanonicalLiteral>, st: JoinState)
    ensures PartialMatch(SortedBody(body), known, st) <==>
              Matches(body, st.sub, known) && st.premises == PremisesOf(body, st.sub)
  {
    SortedBodySame(body);
    var sorted := SortedBody(body);
    if PartialMatch(sorted, known, st) {
      forall b | b in body ensures Ground(b, st.sub) in known {
        assert b in sorted;
        var i :| 0 <= i < |sorted| && sorted[i] == b;
      }
      assert st.premises == PremisesOf(body, st.sub);
    }
    if Matches(body, st.sub, known) && st.premises == PremisesOf(body, st.sub) {
      forall i | 0 <= i < |sorted|
        ensures Vars(sorted[i]) <= st.sub.Keys && st.premises[i] == Ground(sorted[i], st.sub) && st.premises[i] in known
      {
        assert sorted[i] in sorted;
      }
    }
  }

  ghost predicate Touches(premises: seq<CanonicalLiteral>, delta: set<CanonicalLiteral>) {
    exists p :: p in premises && p in delta
  }

  /** `iter_body_matches`: each match of the body once, with its premises, keeping those with a
      premise in `delta` when a delta is given; the order of the result is the order of the keys. */
  method IterBodyMatches(body: seq<RuleLiteral>, index: Index, ghost known: set<CanonicalLiteral>,
                         delta: Option<set<CanonicalLiteral>>)
    returns (r: seq<JoinState>)
    requires IndexesExactly(index, known)
    ensures forall st :: st in r <==>
              && Matches(body, st.sub, known)
              && st.premises == PremisesOf(body, st.sub)
              && (delta.Some? ==> Touches(st.premises, delta.value))
    ensures StrictlySorted(r, StateKey)
  {
    hide Leq, StateKey, SortBy, PremisesOf;
    var orderedBody := SortedBody(body);
    var states := [JoinState(map[], [])];
    assert forall st :: st in states <==> PartialMatch(orderedBody[..0], known, st);
    var i := 0;
    while i < |orderedBody|
      invariant 0 <= i <= |orderedBody|
      invariant forall st :: st in states <==> PartialMatch(orderedBody[..i], known, st)
      invariant StrictlySorted(states, StateKey)
    {
      var pattern := orderedBody[i];
      var candidates := if PatternKey(pattern) in index then index[PatternKey(pattern)] else [];
      states := JoinPattern(orderedBody[..i], pattern, known, states, candidates);
      assert orderedBody[..i] + [pattern] == orderedBody[..i + 1];
      i := i + 1;
      if states == [] {
        NoMatchStaysEmpty(orderedBody, i, known);
        forall st { FullMatch(body, known, st); }
        return [];
      }
    }
    assert orderedBody[..i] == orderedBody;
    r := [];
    for k := 0 to |states|
      invariant forall st :: st in r <==> st in states[..k] && (delta.Some? ==> Touches(st.premises, delta.value))
      invariant StrictlySorted(r, StateKey)
    {
      var st := states[k];
      if delta.None? || exists p | p in st.premises :: p in delta.value {
        forall j | 0 <= j < |r| ensures Less(StateKey(r[j]), StateKey(st)) {
          assert r[j] in r;
          var m :| 0 <= m < k && states[m] == r[j];
        }
        r := r + [st];
      }
    }
    assert states[..|states|] == states;
    forall st { FullMatch(body, known, st); }
  }

  /** When no state survives a prefix of the patterns, none matches all of them. */
  lemma {:induction false} NoMatchStaysEmpty(patterns: seq<RuleLiteral>, i: nat, known: set<CanonicalLiteral>)
    requires i <= |patterns| && forall st :: !PartialMatch(patterns[..i], known, st)
    ensures forall st :: !PartialMatch(patterns, known, st)
    decreases |patterns| - i
  {
    if i == |patterns| {
      assert patterns[..i] == patterns;
    } else {
      var next := patterns[..i + 1];
      assert next == patterns[..i] + [patterns[i]];
      forall st ensures !PartialMatch(next, known, st) {
        if PartialMatch(next, known, st) {
          var before := PartialMatchShrink(patterns[..i], patterns[i], known, st);
        }
      }
      NoMatchStaysEmpty(patterns, i + 1, known);
    }
  }
}
