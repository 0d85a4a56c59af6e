/** What a stable sort preserves: `sorted` is determined by the order of its elements within each key
    class, so sorting, filtering and cutting can be exchanged. */
module StableSort {
  import opened Keys

  function Filter<T>(xs: seq<T>, p: T -> bool): seq<T> {
    if xs == [] then []
    else if p(xs[0]) then [xs[0]] + Filter(xs[1..], p)
    else Filter(xs[1..], p)
  }

  function HasKey<T>(key: T -> Key, k: Key): T -> bool {
    x => key(x) == k
  }

  lemma {:induction false} FilterExact<T>(xs: seq<T>, p: T -> bool)
    ensures forall x :: x in Filter(xs, p) <==> x in xs && p(x)
    ensures |Filter(xs, p)| <= |xs|
  {
    if xs != [] {
      FilterExact(xs[1..], p);
      assert forall x :: x in xs <==> x == xs[0] || x in xs[1..];
    }
  }

  lemma {:induction false} FilterSame<T>(xs: seq<T>, p: T -> bool, q: T -> bool)
    requires forall x :: x in xs ==> p(x) == q(x)
    ensures Filter(xs, p) == Filter(xs, q)
  {
    if xs != [] {
      FilterSame(xs[1..], p, q);
    }
  }

  lemma {:induction false} FilterAll<T>(xs: seq<T>, p: T -> bool)
    requires forall x :: x in xs ==> p(x)
    ensures Filter(xs, p) == xs
  {
    if xs != [] {
      FilterAll(xs[1..], p);
    }
  }

  lemma {:induction false} FilterNone<T>(xs: seq<T>, p: T -> bool)
    requires forall x :: x in xs ==> !p(x)
    ensures Filter(xs, p) == []
  {
    if xs != [] {
      FilterNone(xs[1..], p);
    }
  }

  lemma {:induction false} FilterDistinct<T>(xs: seq<T>, p: T -> bool)
    requires NoDuplicates(xs)
    ensures NoDuplicates(Filter(xs, p))
  {
    if xs != [] {
      FilterDistinct(xs[1..], p);
      FilterExact(xs[1..], p);
      var rest := Filter(xs[1..], p);
      forall j | 0 <= j < |rest| ensures rest[j] != xs[0] {
        assert rest[j] in rest;
      }
    }
  }

  lemma {:induction false} FilterAppend<T>(xs: seq<T>, ys: seq<T>, p: T -> bool)
    ensures Filter(xs + ys, p) == Filter(xs, p) + Filter(ys, p)
  {
    if xs == [] {
      assert xs + ys == ys;
    } else {
      FilterAppend(xs[1..], ys, p);
      assert (xs + ys)[1..] == xs[1..] + ys;
    }
  }

  lemma FilterCons<T>(x: T, xs: seq<T>, p: T -> bool)
    ensures Filter([x] + xs, p) == if p(x) then [x] + Filter(xs, p) else Filter(xs, p)
  {
    assert ([x] + xs)[1..] == xs;
  }

  lemma {:induction false} FilterCommute<T>(xs: seq<T>, p: T -> bool, q: T -> bool)
    ensures Filter(Filter(xs, p), q) == Filter(Filter(xs, q), p)
  {
    if xs != [] {
      FilterCommute(xs[1..], p, q);
      FilterCons(xs[0], Filter(xs[1..], p), q);
      FilterCons(xs[0], Filter(xs[1..], q), p);
    }
  }

  lemma SameCounts<T>(xs: seq<T>, ys: seq<T>)
    requires forall x: T :: multiset(xs)[x] == multiset(ys)[x]
    ensures multiset(xs) == multiset(ys)
  {
  }

  lemma FilterMultiset<T>(xs: seq<T>, ys: seq<T>, p: T -> bool)
    requires multiset(xs) == multiset(ys)
    ensures multiset(Filter(xs, p)) == multiset(Filter(ys, p))
  {
    var a, b := Filter(xs, p), Filter(ys, p);
    forall x: T ensures multiset(a)[x] == multiset(b)[x] {
      FilterCount(xs, p, x);
      FilterCount(ys, p, x);
    }
    SameCounts(a, b);
  }

  lemma {:induction false} FilterCount<T>(xs: seq<T>, p: T -> bool, x: T)
    ensures multiset(Filter(xs, p))[x] == if p(x) then multiset(xs)[x] else 0
  {
    if xs != [] {
      FilterCount(xs[1..], p, x);
      assert xs == [xs[0]] + xs[1..];
    }
  }

  lemma {:induction false} BelowFilter<T>(x: T, xs: seq<T>, p: T -> bool, key: T -> Key)
    ensures (forall y :: y in Filter(xs, p) ==> Leq(key(x), key(y))) <==>
              forall j :: 0 <= j < |xs| && p(xs[j]) ==> Leq(key(x), key(xs[j]))
  {
    hide Leq;
    if xs != [] {
      var rest := xs[1..];
      BelowFilter(x, rest, p, key);
      assert forall j :: 0 < j < |xs| ==> xs[j] == rest[j - 1];
      assert forall j :: 0 <= j < |rest| ==> rest[j] == xs[j + 1];
      assert p(xs[0]) ==> xs[0] in Filter(xs, p);
      assert forall y :: y in Filter(xs, p) <==> (p(xs[0]) && y == xs[0]) || y in Filter(rest, p);
    }
  }

  /** The elements a filter keeps are sorted exactly when they are in order in the whole sequence. */
  lemma {:induction false} FilterSortedIff<T>(xs: seq<T>, p: T -> bool, key: T -> Key)
    ensures Sorted(Filter(xs, p), key) <==>
              forall i, j :: 0 <= i < j < |xs| && p(xs[i]) && p(xs[j]) ==> Leq(key(xs[i]), key(xs[j]))
  {
    hide Leq;
    if xs != [] {
      var rest := xs[1..];
      var kept := Filter(rest, p);
      FilterSortedIff(rest, p, key);
      FilterExact(rest, p);
      PairsSplit(xs, p, key);
      if p(xs[0]) {
        SortedSplit(xs[0], kept, key);
        BelowFilter(xs[0], rest, p, key);
      }
    }
  }

  ghost predicate PairsInOrder<T>(xs: seq<T>, p: T -> bool, key: T -> Key) {
    forall i, j :: 0 <= i < j < |xs| && p(xs[i]) && p(xs[j]) ==> Leq(key(xs[i]), key(xs[j]))
  }

  lemma PairsSplit<T>(xs: seq<T>, p: T -> bool, key: T -> Key)
    requires xs != []
    ensures PairsInOrder(xs, p, key) <==>
              && PairsInOrder(xs[1..], p, key)
              && (p(xs[0]) ==> forall j :: 0 <= j < |xs[1..]| && p(xs[1..][j]) ==> Leq(key(xs[0]), key(xs[1..][j])))
  {
    hide Leq;
    var rest := xs[1..];
    assert forall j :: 0 < j < |xs| ==> xs[j] == rest[j - 1];
    if PairsInOrder(xs, p, key) {
      forall i, j | 0 <= i < j < |rest| && p(rest[i]) && p(rest[j]) ensures Leq(key(rest[i]), key(rest[j])) {
        assert rest[i] == xs[i + 1] && rest[j] == xs[j + 1];
      }
      forall j | p(xs[0]) && 0 <= j < |rest| && p(rest[j]) ensures Leq(key(xs[0]), key(rest[j])) {
        assert rest[j] == xs[j + 1];
      }
    }
  }

  lemma SortedSplit<T>(x: T, xs: seq<T>, key: T -> Key)
    ensures Sorted([x] + xs, key) <==> Sorted(xs, key) && forall y :: y in xs ==> Leq(key(x), key(y))
  {
    hide Leq;
    var all := [x] + xs;
    assert forall j :: 0 <= j < |xs| ==> xs[j] == all[j + 1];
    if Sorted(all, key) {
      forall y | y in xs ensures Leq(key(x), key(y)) {
        var j :| 0 <= j < |xs| && xs[j] == y;
        assert all[0] == x && all[j + 1] == y;
      }
      forall i, j | 0 <= i < j < |xs| ensures Leq(key(xs[i]), key(xs[j])) {
        assert all[i + 1] == xs[i] && all[j + 1] == xs[j];
      }
    }
  }

  // ---- Stability ----

  lemma {:induction false} InsertStable<T>(x: T, xs: seq<T>, key: T -> Key, k: Key)
    ensures Filter(Insert(x, xs, key), HasKey(key, k)) == Filter([x] + xs, HasKey(key, k))
  {
    hide Leq;
    var p := HasKey(key, k);
    assert ([x] + xs)[1..] == xs;
    if xs != [] && Less(key(xs[0]), key(x)) {
      InsertStable(x, xs[1..], key, k);
      var rest := Insert(x, xs[1..], key);
      assert Insert(x, xs, key) == [xs[0]] + rest && ([xs[0]] + rest)[1..] == rest;
      assert ([x] + xs[1..])[1..] == xs[1..];
    }
  }

  /** Sorting keeps the input order within each key class. */
  lemma {:induction false} SortByStable<T>(xs: seq<T>, key: T -> Key, k: Key)
    ensures Filter(SortBy(xs, key), HasKey(key, k)) == Filter(xs, HasKey(key, k))
  {
    if xs != [] {
      var rest := SortBy(xs[1..], key);
      SortByStable(xs[1..], key, k);
      InsertStable(xs[0], rest, key, k);
      assert ([xs[0]] + rest)[1..] == rest;
    }
  }

  ghost predicate SameClasses<T(!new)>(xs: seq<T>, ys: seq<T>, key: T -> Key) {
    forall k :: Filter(xs, HasKey(key, k)) == Filter(ys, HasKey(key, k))
  }

  lemma SameClassesSymmetric<T(!new)>(xs: seq<T>, ys: seq<T>, key: T -> Key)
    requires SameClasses(xs, ys, key)
    ensures SameClasses(ys, xs, key)
  {
  }

  /** The first element of a sorted sequence has the least key of any sequence with the same classes. */
  lemma LeastFirst<T(!new)>(xs: seq<T>, ys: seq<T>, key: T -> Key)
    requires Sorted(ys, key) && SameClasses(xs, ys, key) && xs != []
    ensures ys != [] && Leq(key(ys[0]), key(xs[0]))
  {
    hide Leq;
    var k := key(xs[0]);
    FilterExact(xs, HasKey(key, k));
    FilterExact(ys, HasKey(key, k));
    assert xs[0] in Filter(ys, HasKey(key, k));
    var j :| 0 <= j < |ys| && ys[j] == xs[0];
    LeqReflexive(key(ys[0]));
  }

  lemma TailClasses<T(!new)>(xs: seq<T>, ys: seq<T>, key: T -> Key)
    requires xs != [] && ys != [] && xs[0] == ys[0] && SameClasses(xs, ys, key)
    ensures SameClasses(xs[1..], ys[1..], key)
  {
    forall k ensures Filter(xs[1..], HasKey(key, k)) == Filter(ys[1..], HasKey(key, k)) {
      assert Filter(xs, HasKey(key, k)) == Filter(ys, HasKey(key, k));
      if key(xs[0]) == k {
        assert Filter(xs[1..], HasKey(key, k)) == Filter(xs, HasKey(key, k))[1..];
        assert Filter(ys[1..], HasKey(key, k)) == Filter(ys, HasKey(key, k))[1..];
      }
    }
  }

  lemma {:induction false} SortedByClasses<T(!new)>(xs: seq<T>, ys: seq<T>, key: T -> Key)
    requires Sorted(xs, key) && Sorted(ys, key) && SameClasses(xs, ys, key)
    ensures xs == ys
  {
    hide Leq;
    SameClassesSymmetric(xs, ys, key);
    if xs != [] {
      LeastFirst(xs, ys, key);
      LeastFirst(ys, xs, key);
      Antisymmetric(key(xs[0]), key(ys[0]));
      var k := key(xs[0]);
      assert Filter(xs, HasKey(key, k))[0] == xs[0] && Filter(ys, HasKey(key, k))[0] == ys[0];
      TailClasses(xs, ys, key);
      SortedByClasses(xs[1..], ys[1..], key);
      assert xs == [xs[0]] + xs[1..] && ys == [ys[0]] + ys[1..];
    } else if ys != [] {
      LeastFirst(ys, xs, key);
    }
  }

  /** Two inputs sort to the same sequence exactly when each key class comes in the same order. */
  lemma SortByAgree<T(!new)>(xs: seq<T>, ys: seq<T>, key: T -> Key)
    ensures SortBy(xs, key) == SortBy(ys, key) <==> SameClasses(xs, ys, key)
  {
    hide Leq;
    var a, b := SortBy(xs, key), SortBy(ys, key);
    SortBySorted(xs, key);
    SortBySorted(ys, key);
    forall k
      ensures Filter(a, HasKey(key, k)) == Filter(xs, HasKey(key, k))
      ensures Filter(b, HasKey(key, k)) == Filter(ys, HasKey(key, k))
    {
      SortByStable(xs, key, k);
      SortByStable(ys, key, k);
    }
    if SameClasses(xs, ys, key) {
      SortedByClasses(a, b, key);
    }
  }

  lemma SortBySame<T(!new)>(xs: seq<T>, key: T -> Key)
    ensures SortBy(xs, key) == xs <==> Sorted(xs, key)
  {
    hide Leq;
    SortBySorted(xs, key);
    if Sorted(xs, key) {
      forall k ensures Filter(SortBy(xs, key), HasKey(key, k)) == Filter(xs, HasKey(key, k)) {
        SortByStable(xs, key, k);
      }
      SortedByClasses(SortBy(xs, key), xs, key);
    }
  }

  /** Filtering and sorting can be exchanged. */
  lemma SortByFilter<T(!new)>(xs: seq<T>, key: T -> Key, p: T -> bool)
    ensures SortBy(Filter(xs, p), key) == Filter(SortBy(xs, key), p)
  {
    hide Leq;
    var a, b := SortBy(Filter(xs, p), key), Filter(SortBy(xs, key), p);
    SortBySorted(Filter(xs, p), key);
    SortBySorted(xs, key);
    FilterSortedIff(SortBy(xs, key), p, key);
    forall k ensures Filter(a, HasKey(key, k)) == Filter(b, HasKey(key, k)) {
      SortByStable(Filter(xs, p), key, k);
      SortByStable(xs, key, k);
      FilterCommute(xs, p, HasKey(key, k));
      FilterCommute(SortBy(xs, key), p, HasKey(key, k));
    }
    SortedByClasses(a, b, key);
  }

  /** Sorting first by another key changes the result exactly when it reorders two elements of equal key. */
  lemma ResortAgrees<T(!new)>(xs: seq<T>, first: T -> Key, key: T -> Key)
    ensures SortBy(SortBy(xs, first), key) == SortBy(xs, key) <==>
              forall i, j :: 0 <= i < j < |xs| && key(xs[i]) == key(xs[j]) ==> Leq(first(xs[i]), first(xs[j]))
  {
    hide Leq;
    SortByAgree(SortBy(xs, first), xs, key);
    forall k
      ensures Filter(SortBy(xs, first), HasKey(key, k)) == Filter(xs, HasKey(key, k)) <==>
                PairsInOrder(xs, HasKey(key, k), first)
    {
      SortByFilter(xs, first, HasKey(key, k));
      SortBySame(Filter(xs, HasKey(key, k)), first);
      FilterSortedIff(xs, HasKey(key, k), first);
    }
    if forall k :: PairsInOrder(xs, HasKey(key, k), first) {
      forall i, j | 0 <= i < j < |xs| && key(xs[i]) == key(xs[j]) ensures Leq(first(xs[i]), first(xs[j])) {
        assert PairsInOrder(xs, HasKey(key, key(xs[i])), first);
      }
    }
  }

  // ---- The first few of a sorted sequence ----

  /** Python's `xs[:n]`. */
  function Prefix<T>(xs: seq<T>, n: nat): seq<T> {
    if n <= |xs| then xs[..n] else xs
  }

  /** The `n` first of `sorted(xs, key=key)`. */
  function Best<T>(xs: seq<T>, key: T -> Key, n: nat): seq<T> {
    Prefix(SortBy(xs, key), n)
  }

  /** `Best` is sorted, and nothing it leaves out goes before anything it keeps. */
  lemma BestIsLeast<T>(xs: seq<T>, key: T -> Key, n: nat) returns (rest: seq<T>)
    ensures multiset(xs) == multiset(Best(xs, key, n)) + multiset(rest)
    ensures |Best(xs, key, n)| == if n < |xs| then n else |xs|
    ensures Sorted(Best(xs, key, n), key)
    ensures forall x, y :: x in Best(xs, key, n) && y in rest ==> Leq(key(x), key(y))
  {
    hide Leq;
    var s := SortBy(xs, key);
    SortByMultiset(xs, key);
    SortBySorted(xs, key);
    var cut := if n <= |s| then n else |s|;
    rest := s[cut..];
    assert s == s[..cut] + rest && Best(xs, key, n) == s[..cut];
    forall x, y | x in s[..cut] && y in rest ensures Leq(key(x), key(y)) {
      var i :| 0 <= i < cut && s[i] == x;
      var j :| cut <= j < |s| && s[j] == y;
    }
  }

  /** Inserting after the elements of equal key. */
  function InsertLast<T>(xs: seq<T>, x: T, key: T -> Key): seq<T> {
    if xs == [] || Less(key(x), key(xs[0])) then [x] + xs
    else [xs[0]] + InsertLast(xs[1..], x, key)
  }

  lemma {:induction false} InsertLastFirst<T>(xs: seq<T>, x: T, key: T -> Key)
    ensures InsertLast(xs, x, key) != []
    ensures InsertLast(xs, x, key)[0] == x || (xs != [] && InsertLast(xs, x, key)[0] == xs[0])
  {
  }

  lemma InsertFront<T>(x: T, xs: seq<T>, key: T -> Key)
    requires xs == [] || Leq(key(x), key(xs[0]))
    ensures Insert(x, xs, key) == [x] + xs
  {
    hide Leq;
    if xs != [] && Less(key(xs[0]), key(x)) {
      Antisymmetric(key(x), key(xs[0]));
    }
  }

  lemma InsertSecond<T>(x: T, first: T, xs: seq<T>, key: T -> Key)
    requires Less(key(first), key(x)) && (xs == [] || Leq(key(x), key(xs[0])))
    ensures Insert(x, [first] + xs, key) == [first] + ([x] + xs)
  {
    hide Leq;
    InsertFront(x, xs, key);
    assert ([first] + xs)[1..] == xs;
  }

  /** Sorting a sorted sequence with one more element at the end is one insertion. */
  lemma {:induction false} SortByAppend<T>(xs: seq<T>, x: T, key: T -> Key)
    requires Sorted(xs, key)
    ensures SortBy(xs + [x], key) == InsertLast(xs, x, key)
  {
    hide Leq;
    if xs == [] {
      assert xs + [x] == [x] && SortBy([x][1..], key) == [];
    } else {
      var rest := xs[1..];
      assert (xs + [x])[0] == xs[0] && (xs + [x])[1..] == rest + [x];
      SortByAppend(rest, x, key);
      if Less(key(x), key(xs[0])) {
        if rest != [] {
          LessTransitive(key(x), key(xs[0]), key(rest[0]));
        }
        InsertSecond(xs[0], x, rest, key);
      } else {
        Total(key(x), key(xs[0]));
        InsertLastFirst(rest, x, key);
        InsertFront(xs[0], InsertLast(rest, x, key), key);
      }
    }
  }

  lemma LessTransitive(a: Key, b: Key, c: Key)
    requires Less(a, b) && Leq(b, c)
    ensures Less(a, c)
  {
    hide Leq;
    Transitive(a, b, c);
    if a == c {
      Antisymmetric(a, b);
    }
  }

  lemma {:induction false} PrefixInsertLast<T>(xs: seq<T>, x: T, key: T -> Key, n: nat)
    ensures Prefix(InsertLast(Prefix(xs, n), x, key), n) == Prefix(InsertLast(xs, x, key), n)
  {
    hide Leq;
    if n > 0 && xs != [] {
      var rest := xs[1..];
      assert Prefix(xs, n) == [xs[0]] + Prefix(rest, n - 1);
      if !Less(key(x), key(xs[0])) {
        PrefixInsertLast(rest, x, key, n - 1);
        PrefixCons(xs[0], InsertLast(rest, x, key), n);
        assert Prefix(xs, n)[1..] == Prefix(rest, n - 1);
        PrefixCons(xs[0], InsertLast(Prefix(rest, n - 1), x, key), n);
      } else {
        PrefixCons(x, xs, n);
        PrefixCons(x, Prefix(xs, n), n);
        assert Prefix(Prefix(xs, n), n - 1) == Prefix(xs, n - 1);
      }
    }
  }

  lemma PrefixCons<T>(x: T, xs: seq<T>, n: nat)
    requires n > 0
    ensures Prefix([x] + xs, n) == [x] + Prefix(xs, n - 1)
  {
  }

  lemma SortByAppendUnsorted<T(!new)>(xs: seq<T>, x: T, key: T -> Key)
    ensures SortBy(xs + [x], key) == InsertLast(SortBy(xs, key), x, key)
  {
    hide Leq;
    var s := SortBy(xs, key);
    SortBySorted(xs, key);
    SortByAppend(s, x, key);
    forall k ensures Filter(xs + [x], HasKey(key, k)) == Filter(s + [x], HasKey(key, k)) {
      FilterAppend(xs, [x], HasKey(key, k));
      FilterAppend(s, [x], HasKey(key, k));
      SortByStable(xs, key, k);
    }
    SortByAgree(xs + [x], s + [x], key);
  }

  /** Keeping only the `n` first at every step loses nothing: the `n` first of a stream and one more
      element are found among the `n` first of the stream and that element. */
  lemma BestStep<T(!new)>(seen: seq<T>, x: T, key: T -> Key, n: nat)
    ensures Prefix(SortBy(Best(seen, key, n) + [x], key), n) == Best(seen + [x], key, n)
  {
    hide Leq;
    var s := SortBy(seen, key);
    SortBySorted(seen, key);
    SortByAppendUnsorted(seen, x, key);
    SortByAppend(Best(seen, key, n), x, key);
    PrefixInsertLast(s, x, key, n);
  }
}
