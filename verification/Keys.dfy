/** The order Python gives to the tuples used as sort keys, and `sorted` over such keys.
    A key is a number (a bool counts as 0 or 1), a string, or a tuple written as a chain of pairs;
    tuples and strings compare lexicographically, and a proper prefix comes first. */
module Keys {

  datatype Key = Nil | Num(n: int) | Str(s: string) | Pair(head: Key, tail: Key)

  /** Lexicographic order on strings, by code point. */
  predicate StrLeq(s: string, t: string) {
    if s == [] then true
    else if t == [] then false
    else if s[0] == t[0] then StrLeq(s[1..], t[1..])
    else s[0] < t[0]
  }

  lemma {:induction false} StrTotal(s: string, t: string)
    ensures StrLeq(s, t) || StrLeq(t, s)
  {
    if s != [] && t != [] {
      StrTotal(s[1..], t[1..]);
    }
  }

  lemma {:induction false} StrAntisymmetric(s: string, t: string)
    requires StrLeq(s, t) && StrLeq(t, s)
    ensures s == t
  {
    if s != [] && t != [] {
      StrAntisymmetric(s[1..], t[1..]);
      assert s == [s[0]] + s[1..] && t == [t[0]] + t[1..];
    }
  }

  lemma {:induction false} StrTransitive(s: string, t: string, u: string)
    requires StrLeq(s, t) && StrLeq(t, u)
    ensures StrLeq(s, u)
  {
    if s != [] && s[0] == t[0] && t[0] == u[0] {
      StrTransitive(s[1..], t[1..], u[1..]);
    }
  }

  /** Python's `<=` on keys; keys of different shapes, which Python never compares here, are
      ordered by shape. */
  predicate Leq(a: Key, b: Key) {
    match (a, b)
    case (Nil, _) => true
    case (_, Nil) => false
    case (Num(m), Num(n)) => m <= n
    case (Num(_), _) => true
    case (_, Num(_)) => false
    case (Str(s), Str(t)) => StrLeq(s, t)
    case (Str(_), _) => true
    case (_, Str(_)) => false
    case (Pair(x, xs), Pair(y, ys)) => if x == y then Leq(xs, ys) else Leq(x, y)
  }

  predicate Less(a: Key, b: Key) {
    Leq(a, b) && a != b
  }

  lemma {:induction false} Total(a: Key, b: Key)
    ensures Leq(a, b) || Leq(b, a)
  {
    match (a, b)
    case (Str(s), Str(t)) => StrTotal(s, t);
    case (Pair(x, xs), Pair(y, ys)) => Total(x, y); Total(xs, ys);
    case _ =>
  }

  lemma {:induction false} Antisymmetric(a: Key, b: Key)
    requires Leq(a, b) && Leq(b, a)
    ensures a == b
  {
    match (a, b)
    case (Str(s), Str(t)) => StrAntisymmetric(s, t);
    case (Pair(x, xs), Pair(y, ys)) =>
      if x == y {
        Antisymmetric(xs, ys);
      } else {
        Antisymmetric(x, y);
      }
    case _ =>
  }

  lemma {:induction false} Transitive(a: Key, b: Key, c: Key)
    requires Leq(a, b) && Leq(b, c)
    ensures Leq(a, c)
  {
    if a.Str? && b.Str? && c.Str? {
      StrTransitive(a.s, b.s, c.s);
    } else if a.Pair? && b.Pair? && c.Pair? {
      if a.head == b.head && b.head == c.head {
        Transitive(a.tail, b.tail, c.tail);
      } else if a.head != b.head && b.head != c.head {
        Transitive(a.head, b.head, c.head);
        if a.head == c.head {
          Antisymmetric(a.head, b.head);
        }
      }
    }
  }

  // ---- sorted(xs, key=...) ----

  function Insert<T>(x: T, xs: seq<T>, key: T -> Key): seq<T> {
    if xs == [] then [x]
    else if Less(key(xs[0]), key(x)) then [xs[0]] + Insert(x, xs[1..], key)
    else [x] + xs
  }

  /** Python's `sorted(xs, key=key)`: stable, equal keys keep their input order. */
  function SortBy<T>(xs: seq<T>, key: T -> Key): seq<T> {
    if xs == [] then [] else Insert(xs[0], SortBy(xs[1..], key), key)
  }

  ghost predicate Sorted<T>(xs: seq<T>, key: T -> Key) {
    forall i, j :: 0 <= i < j < |xs| ==> Leq(key(xs[i]), key(xs[j]))
  }

  ghost predicate StrictlySorted<T>(xs: seq<T>, key: T -> Key) {
    forall i, j :: 0 <= i < j < |xs| ==> Less(key(xs[i]), key(xs[j]))
  }

  /** Distinct values have distinct keys. */
  ghost predicate InjectiveKey<T(!new)>(key: T -> Key) {
    forall x, y :: key(x) == key(y) ==> x == y
  }

  lemma {:induction false} InsertMultiset<T>(x: T, xs: seq<T>, key: T -> Key)
    ensures multiset(Insert(x, xs, key)) == multiset(xs) + multiset{x}
  {
    if xs != [] {
      assert xs == [xs[0]] + xs[1..];
      if Less(key(xs[0]), key(x)) {
        InsertMultiset(x, xs[1..], key);
      }
    }
  }

  lemma {:induction false} SortByMultiset<T>(xs: seq<T>, key: T -> Key)
    ensures multiset(SortBy(xs, key)) == multiset(xs)
    ensures |SortBy(xs, key)| == |xs|
    ensures forall x :: x in SortBy(xs, key) <==> x in xs
  {
    if xs != [] {
      SortByMultiset(xs[1..], key);
      InsertMultiset(xs[0], SortBy(xs[1..], key), key);
      assert xs == [xs[0]] + xs[1..];
    }
    assert |SortBy(xs, key)| == |multiset(SortBy(xs, key))| == |multiset(xs)|;
    forall x ensures x in SortBy(xs, key) <==> x in xs {
      assert x in SortBy(xs, key) <==> x in multiset(SortBy(xs, key));
      assert x in xs <==> x in multiset(xs);
    }
  }

  lemma {:induction false} InsertSorted<T>(x: T, xs: seq<T>, key: T -> Key)
    requires Sorted(xs, key)
    ensures Sorted(Insert(x, xs, key), key)
  {
    if xs != [] {
      var r := Insert(x, xs, key);
      if Less(key(xs[0]), key(x)) {
        var rest := Insert(x, xs[1..], key);
        InsertSorted(x, xs[1..], key);
        InsertMultiset(x, xs[1..], key);
        forall j | 0 < j < |r| ensures Leq(key(r[0]), key(r[j])) {
          assert r[j] in multiset(rest);
          assert r[j] == x || r[j] in xs[1..];
        }
      } else {
        Total(key(xs[0]), key(x));
        forall j | 0 < j < |r| ensures Leq(key(r[0]), key(r[j])) {
          if j > 1 {
            Transitive(key(x), key(xs[0]), key(xs[j - 1]));
          }
        }
      }
    }
  }

  lemma {:induction false} SortBySorted<T>(xs: seq<T>, key: T -> Key)
    ensures Sorted(SortBy(xs, key), key)
  {
    if xs != [] {
      SortBySorted(xs[1..], key);
      InsertSorted(xs[0], SortBy(xs[1..], key), key);
    }
  }

  /** Distinct elements of `xs` have distinct keys. */
  ghost predicate KeyTellsApart<T>(xs: seq<T>, key: T -> Key) {
    forall i, j :: 0 <= i < |xs| && 0 <= j < |xs| && key(xs[i]) == key(xs[j]) ==> xs[i] == xs[j]
  }

  lemma LeqReflexive(a: Key)
    ensures Leq(a, a)
  {
    Total(a, a);
  }

  lemma SortedFirst<T>(xs: seq<T>, ys: seq<T>, key: T -> Key)
    requires Sorted(xs, key) && Sorted(ys, key) && xs != [] && ys != [] && ys[0] in xs && xs[0] in ys
    requires KeyTellsApart(xs, key)
    ensures xs[0] == ys[0]
  {
    var i :| 0 <= i < |ys| && ys[i] == xs[0];
    var j :| 0 <= j < |xs| && xs[j] == ys[0];
    LeqReflexive(key(xs[0]));
    LeqReflexive(key(ys[0]));
    Antisymmetric(key(xs[0]), key(ys[0]));
  }

  lemma SameElements<T>(xs: seq<T>, ys: seq<T>)
    requires multiset(xs) == multiset(ys)
    ensures |xs| == |ys|
    ensures forall x :: x in xs <==> x in ys
  {
    assert |xs| == |multiset(xs)| && |ys| == |multiset(ys)|;
    forall x ensures x in xs <==> x in ys {
      assert x in xs <==> x in multiset(xs);
      assert x in ys <==> x in multiset(ys);
    }
  }

  lemma RemoveFirst<T>(xs: seq<T>, ys: seq<T>)
    requires multiset(xs) == multiset(ys) && xs != [] && ys != [] && xs[0] == ys[0]
    ensures multiset(xs[1..]) == multiset(ys[1..])
  {
    assert xs == [xs[0]] + xs[1..] && ys == [ys[0]] + ys[1..];
    assert multiset(xs[1..]) == multiset(xs) - multiset{xs[0]};
    assert multiset(ys[1..]) == multiset(ys) - multiset{ys[0]};
  }

  /** All but the element at place `i`. */
  function Without<T>(xs: seq<T>, i: nat): seq<T>
    requires i < |xs|
  {
    xs[..i] + xs[i + 1..]
  }

  lemma WithoutMultiset<T>(xs: seq<T>, i: nat)
    requires i < |xs|
    ensures multiset(Without(xs, i)) == multiset(xs) - multiset{xs[i]}
    ensures multiset(xs) == multiset(Without(xs, i)) + multiset{xs[i]}
  {
    assert xs == xs[..i] + [xs[i]] + xs[i + 1..];
  }

  /** Two sorted arrangements of the same elements are the same sequence when the key tells the
      elements apart. */
  lemma {:induction false} SortedUnique<T>(xs: seq<T>, ys: seq<T>, key: T -> Key)
    requires Sorted(xs, key) && Sorted(ys, key) && multiset(xs) == multiset(ys)
    requires KeyTellsApart(xs, key)
    ensures xs == ys
  {
    hide Leq;
    SameElements(xs, ys);
    if xs != [] {
      SortedFirst(xs, ys, key);
      RemoveFirst(xs, ys);
      SortedUnique(xs[1..], ys[1..], key);
      assert xs == [xs[0]] + xs[1..] && ys == [ys[0]] + ys[1..];
    }
  }

  lemma SortByTellsApart<T>(xs: seq<T>, key: T -> Key)
    requires KeyTellsApart(xs, key)
    ensures KeyTellsApart(SortBy(xs, key), key)
  {
    var r := SortBy(xs, key);
    SortByMultiset(xs, key);
    forall i, j | 0 <= i < |r| && 0 <= j < |r| && key(r[i]) == key(r[j]) ensures r[i] == r[j] {
      assert r[i] in multiset(r) && r[j] in multiset(r);
      var m :| 0 <= m < |xs| && xs[m] == r[i];
      var n :| 0 <= n < |xs| && xs[n] == r[j];
    }
  }

  /** `sorted` forgets the input order when the key tells elements apart. */
  lemma SortByOrderFree<T>(xs: seq<T>, ys: seq<T>, key: T -> Key)
    requires multiset(xs) == multiset(ys) && KeyTellsApart(xs, key)
    ensures SortBy(xs, key) == SortBy(ys, key)
  {
    SortByMultiset(xs, key);
    SortByMultiset(ys, key);
    SortBySorted(xs, key);
    SortBySorted(ys, key);
    SortByTellsApart(xs, key);
    SortedUnique(SortBy(xs, key), SortBy(ys, key), key);
  }

  // ---- sorted(set) ----

  ghost predicate NoDuplicates<T>(xs: seq<T>) {
    forall i, j :: 0 <= i < j < |xs| ==> xs[i] != xs[j]
  }

  lemma {:induction false} NoDuplicatesMultiset<T>(xs: seq<T>, ys: seq<T>)
    requires NoDuplicates(xs) && NoDuplicates(ys)
    requires forall x :: x in xs <==> x in ys
    ensures multiset(xs) == multiset(ys)
  {
    forall x ensures multiset(xs)[x] == multiset(ys)[x] {
      NoDuplicatesCount(xs, x);
      NoDuplicatesCount(ys, x);
    }
  }

  lemma {:induction false} NoDuplicatesCount<T>(xs: seq<T>, x: T)
    requires NoDuplicates(xs)
    ensures multiset(xs)[x] == if x in xs then 1 else 0
  {
    if xs != [] {
      NoDuplicatesCount(xs[1..], x);
      assert xs == [xs[0]] + xs[1..];
    }
  }

  lemma {:induction false} NoDuplicatesSize<T>(xs: seq<T>)
    requires NoDuplicates(xs)
    ensures |set x | x in xs| == |xs|
  {
    if xs == [] {
      assert (set x | x in xs) == {};
    } else {
      NoDuplicatesSize(xs[1..]);
      assert xs == [xs[0]] + xs[1..];
      assert (set x | x in xs) == {xs[0]} + (set x | x in xs[1..]);
    }
  }

  ghost predicate IsMinimum(m: Key, s: set<Key>) {
    m in s && forall k :: k in s ==> Leq(m, k)
  }

  lemma MinimumExists(s: set<Key>) returns (m: Key)
    requires s != {}
    ensures IsMinimum(m, s)
  {
    hide Leq;
    var x :| x in s;
    m := x;
    LeqReflexive(x);
    var rest := s - {x};
    assert forall k :: k in s ==> k == x || k in rest;
    if rest != {} {
      var n := MinimumExists(rest);
      Total(x, n);
      if Leq(n, x) {
        m := n;
      } else {
        forall k | k in rest ensures Leq(x, k) {
          Transitive(x, n, k);
        }
      }
    }
  }

  lemma MinimumUnique(s: set<Key>)
    requires s != {}
    ensures exists m :: IsMinimum(m, s)
    ensures forall a, b :: IsMinimum(a, s) && IsMinimum(b, s) ==> a == b
  {
    hide Leq;
    var m := MinimumExists(s);
    assert IsMinimum(m, s);
    forall a, b | IsMinimum(a, s) && IsMinimum(b, s) ensures a == b {
      assert Leq(a, b) && Leq(b, a);
      Antisymmetric(a, b);
    }
  }

  function Minimum(s: set<Key>): (m: Key)
    requires s != {}
    ensures m in s && forall k :: k in s ==> Leq(m, k)
  {
    MinimumUnique(s);
    assert forall a :: a in s && (forall k | k in s :: Leq(a, k)) ==> IsMinimum(a, s);
    var m :| m in s && forall k | k in s :: Leq(m, k);
    m
  }

  /** Python's `sorted(s)` for a set (or the keys of a dict). */
  function SortedSet(s: set<Key>): (r: seq<Key>)
    ensures forall k :: k in r <==> k in s
    ensures StrictlySorted(r, (k: Key) => k)
    ensures |r| == |s|
    decreases |s|
  {
    if s == {} then []
    else
      var m := Minimum(s);
      [m] + SortedSet(s - {m})
  }

  /** A strictly sorted sequence is determined by the set of its elements. */
  lemma StrictlySortedUnique<T>(xs: seq<T>, ys: seq<T>, key: T -> Key)
    requires StrictlySorted(xs, key) && StrictlySorted(ys, key)
    requires forall x :: x in xs <==> x in ys
    ensures xs == ys
  {
    StrictlySortedDistinct(xs, key);
    StrictlySortedDistinct(ys, key);
    NoDuplicatesMultiset(xs, ys);
    SortedUnique(xs, ys, key);
  }

  lemma StrictlySortedDistinct<T>(xs: seq<T>, key: T -> Key)
    requires StrictlySorted(xs, key)
    ensures NoDuplicates(xs) && KeyTellsApart(xs, key)
  {
    forall i, j | 0 <= i < |xs| && 0 <= j < |xs| && key(xs[i]) == key(xs[j]) ensures xs[i] == xs[j] {
      assert !(i < j) && !(j < i);
    }
  }

  /** Elements with pairwise distinct keys come out strictly sorted. */
  lemma SortByStrict<T>(xs: seq<T>, key: T -> Key)
    requires NoDuplicates(xs)
    requires KeyTellsApart(xs, key)
    ensures StrictlySorted(SortBy(xs, key), key)
  {
    hide Leq;
    var r := SortBy(xs, key);
    SortByTellsApart(xs, key);
    SortBySorted(xs, key);
    SortByMultiset(xs, key);
    forall i, j | 0 <= i < j < |r| ensures key(r[i]) != key(r[j]) {
      if r[i] == r[j] {
        TwiceCounted(r, i, j);
        NoDuplicatesCount(xs, r[j]);
      }
    }
  }

  lemma TwiceCounted<T>(r: seq<T>, i: nat, j: nat)
    requires i < j < |r| && r[i] == r[j]
    ensures multiset(r)[r[j]] >= 2
  {
    assert r == r[..j] + [r[j]] + r[j + 1..];
    assert r[..j][i] in multiset(r[..j]);
    assert multiset(r) == multiset(r[..j]) + multiset{r[j]} + multiset(r[j + 1..]);
  }

  /** A rearrangement of distinct elements has distinct elements. */
  lemma PermutedDistinct<T>(p: seq<T>, xs: seq<T>)
    requires multiset(p) == multiset(xs) && NoDuplicates(xs)
    ensures NoDuplicates(p)
  {
    forall i, j | 0 <= i < j < |p| ensures p[i] != p[j] {
      if p[i] == p[j] {
        TwiceCounted(p, i, j);
        NoDuplicatesCount(xs, p[j]);
      }
    }
  }

  lemma SubsetSize<T>(a: set<T>, b: set<T>)
    requires a <= b
    ensures |a| <= |b|
    ensures a != b ==> |a| < |b|
  {
    var d := b - a;
    assert b == a + d;
    if a != b {
      assert d != {};
    }
  }

  /** `unique = {key(x): x for x in xs}` followed by `[unique[k] for k in sorted(unique)]`: the same
      elements, each once, in key order. */
  method Deduplicate<T>(xs: seq<T>, key: T -> Key) returns (r: seq<T>)
    requires KeyTellsApart(xs, key)
    ensures forall x :: x in r <==> x in xs
    ensures StrictlySorted(r, key)
  {
    hide Leq;
    var unique: map<Key, T> := map[];
    for i := 0 to |xs|
      invariant forall k :: k in unique ==> key(unique[k]) == k && unique[k] in xs
      invariant forall j :: 0 <= j < i ==> key(xs[j]) in unique && unique[key(xs[j])] == xs[j]
    {
      unique := unique[key(xs[i]) := xs[i]];
    }
    var order := SortedSet(unique.Keys);
    r := seq(|order|, i requires 0 <= i < |order| => assert order[i] in order; unique[order[i]]);
    forall j | 0 <= j < |xs| ensures xs[j] in r {
      assert key(xs[j]) in order;
      var m :| 0 <= m < |order| && order[m] == key(xs[j]);
      assert r[m] == xs[j];
    }
    forall i | 0 <= i < |r| ensures key(r[i]) == order[i] {
      assert order[i] in order;
    }
    SortedByKeys(r, order, key);
  }

  lemma SortedByKeys<T>(xs: seq<T>, keys: seq<Key>, key: T -> Key)
    requires |xs| == |keys| && StrictlySorted(keys, (k: Key) => k)
    requires forall i :: 0 <= i < |xs| ==> key(xs[i]) == keys[i]
    ensures StrictlySorted(xs, key)
  {
  }

  /** The elements of a set, in some order. */
  method Elements<T(==)>(s: set<T>) returns (xs: seq<T>)
    ensures NoDuplicates(xs) && |xs| == |s|
    ensures forall x :: x in xs <==> x in s
  {
    xs := [];
    var rest := s;
    while rest != {}
      invariant rest <= s && NoDuplicates(xs) && |xs| + |rest| == |s|
      invariant forall x :: x in xs <==> x in s - rest
    {
      var x :| x in rest;
      forall i | 0 <= i < |xs| ensures xs[i] != x {
        assert xs[i] in xs;
      }
      rest := rest - {x};
      xs := xs + [x];
    }
  }

  const STRING_KEY := (s: string) => Str(s)

  /** The least of a set of strings. */
  function FirstString(s: set<string>): (v: string)
    requires s != {}
    ensures v in s && forall w :: w in s ==> Leq(Str(v), Str(w))
  {
    var keys := set w | w in s :: Str(w);
    assert keys != {} by {
      var w :| w in s;
      assert Str(w) in keys;
    }
    var m := Minimum(keys);
    assert forall w :: w in s ==> Str(w) in keys;
    m.s
  }

  /** `sorted` on a set of strings, or on the keys of a dict. */
  function SortedStrings(s: set<string>): (r: seq<string>)
    ensures forall x :: x in r <==> x in s
    ensures StrictlySorted(r, STRING_KEY)
    ensures |r| == |s|
    decreases |s|
  {
    if s == {} then []
    else
      var v := FirstString(s);
      var rest := SortedStrings(s - {v});
      SortedStringsStep(v, rest);
      [v] + rest
  }

  lemma SortedStringsStep(v: string, rest: seq<string>)
    requires StrictlySorted(rest, STRING_KEY) && v !in rest
    requires forall w :: w in rest ==> Leq(Str(v), Str(w))
    ensures StrictlySorted([v] + rest, STRING_KEY)
  {
    hide Leq;
    forall j | 0 <= j < |rest| ensures Less(Str(v), Str(rest[j])) {
      assert rest[j] in rest;
    }
  }

  /** A tuple of strings. */
  function StrTuple(ss: seq<string>): Key {
    if ss == [] then Nil else Pair(Str(ss[0]), StrTuple(ss[1..]))
  }

  lemma {:induction false} StrTupleInjective(a: seq<string>, b: seq<string>)
    requires StrTuple(a) == StrTuple(b)
    ensures a == b
  {
    if a != [] && b != [] {
      StrTupleInjective(a[1..], b[1..]);
      assert a == [a[0]] + a[1..] && b == [b[0]] + b[1..];
    }
  }

  function Flag(b: bool): Key {
    Num(if b then 1 else 0)
  }
}
