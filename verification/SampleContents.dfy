/** What a sample holds, in the plain terms of its examples: how many of each label, which ones, and in what order
    (backend/src/verilogic_ns_api/datasets/sampling.py). */
module SampleContents {
  import opened Logic
  import opened Keys
  import opened StableSort
  import opened Orders
  import opened Apportionment
  import opened Sampling
  import opened SampleAgreement

  // ---- Order and counts ----

  /** By the digest of seed and id, and by id when the digests are equal. */
  ghost predicate ComesFirst(h: Hash, seed: int, a: Example, b: Example) {
    || a.id == b.id
    || Before(h(seed, a.id), h(seed, b.id))
    || (h(seed, a.id) == h(seed, b.id) && Before(a.id, b.id))
  }

  lemma KeyOrder(h: Hash, seed: int, a: Example, b: Example)
    ensures Leq(KeyOf(h, seed)(a), KeyOf(h, seed)(b)) <==> ComesFirst(h, seed, a, b)
  {
    hide Before, Leq;
    PairOrder(Str(h(seed, a.id)), Pair(Str(a.id), Nil), Str(h(seed, b.id)), Pair(Str(b.id), Nil));
    PairOrder(Str(a.id), Nil, Str(b.id), Nil);
    LeqReflexive(Nil);
    StringOrder(h(seed, a.id), h(seed, b.id));
    StringOrder(a.id, b.id);
    NotBeforeSelf(h(seed, a.id));
  }

  /** The places of the examples with the label. */
  ghost function Having(xs: seq<Example>, l: Label): set<nat> {
    set i: nat | i < |xs| && xs[i].goldLabel == l
  }

  lemma NothingHas(l: Label)
    ensures Having([], l) == {} && Group([], l) == []
  {
  }

  lemma HavingLast(xs: seq<Example>, x: Example, l: Label)
    ensures |Having(xs + [x], l)| == |Having(xs, l)| + if x.goldLabel == l then 1 else 0
  {
    assert Having(xs + [x], l) == Having(xs, l) + if x.goldLabel == l then {|xs|} else {};
  }

  lemma {:induction false} HavingSize(xs: seq<Example>, l: Label)
    ensures |Having(xs, l)| == |Group(xs, l)|
  {
    hide Group;
    if xs == [] {
      NothingHas(l);
    } else {
      var n := |xs| - 1;
      HavingSize(xs[..n], l);
      assert xs == xs[..n] + [xs[n]];
      GroupSnoc(xs[..n], xs[n], l);
      HavingLast(xs[..n], xs[n], l);
    }
  }

  lemma Occurrences(xs: seq<Example>, e: Example)
    ensures multiset(Group(xs, e.goldLabel))[e] == multiset(xs)[e]
  {
    FilterCount(xs, HasLabel(e.goldLabel), e);
  }

  // ---- Parts of groups ----

  /** A part of a group holds some of its examples, and none comes after one that it leaves out. */
  lemma PartIsFirst(h: Hash, seed: int, xs: seq<Example>, l: Label, q: Label -> int, e: Example)
    ensures multiset(Part(xs, l, q, KeyOf(h, seed)))[e] <= multiset(Group(xs, l))[e]
    ensures forall x :: e in Part(xs, l, q, KeyOf(h, seed))
                        && multiset(Part(xs, l, q, KeyOf(h, seed)))[x] < multiset(Group(xs, l))[x] ==>
              ComesFirst(h, seed, e, x)
  {
    hide Best, Leq, Group, KeyOf, ComesFirst;
    var key, n := KeyOf(h, seed), if q(l) >= 0 then q(l) else 0;
    var rest := BestIsLeast(Group(xs, l), key, n);
    forall x | e in Part(xs, l, q, key) && multiset(Part(xs, l, q, key))[x] < multiset(Group(xs, l))[x]
      ensures ComesFirst(h, seed, e, x)
    {
      assert x in multiset(rest);
      KeyOrder(h, seed, e, x);
    }
  }

  /** The sample takes, of each label, some first examples of the stream. */
  ghost predicate TakesFirst(h: Hash, seed: int, xs: seq<Example>, sample: seq<Example>, e: Example) {
    && multiset(sample)[e] <= multiset(xs)[e]
    && forall x: Example :: e in sample && x.goldLabel == e.goldLabel && multiset(sample)[x] < multiset(xs)[x] ==>
         ComesFirst(h, seed, e, x)
  }

  lemma SelectionTakesFirst(h: Hash, seed: int, xs: seq<Example>, labels: seq<Label>, q: Label -> int, e: Example)
    requires NoDuplicates(labels)
    ensures TakesFirst(h, seed, xs, SortBy(Gather(xs, labels, q, KeyOf(h, seed)), KeyOf(h, seed)), e)
  {
    hide SortBy, Gather, Group, Part, ComesFirst, KeyOf;
    var key := KeyOf(h, seed);
    var sample, l := SortBy(Gather(xs, labels, q, key), key), e.goldLabel;
    SelectionByGroup(xs, labels, q, key, l);
    PartIsFirst(h, seed, xs, l, q, e);
    Occurrences(sample, e);
    Occurrences(xs, e);
    forall x: Example | e in sample && x.goldLabel == l && multiset(sample)[x] < multiset(xs)[x]
      ensures ComesFirst(h, seed, e, x)
    {
      Occurrences(sample, x);
      Occurrences(xs, x);
    }
  }

  lemma AllTaken(h: Hash, seed: int, xs: seq<Example>, sample: seq<Example>, e: Example)
    requires multiset(sample) == multiset(xs)
    ensures TakesFirst(h, seed, xs, sample, e)
  {
  }

  lemma BestTaken(h: Hash, seed: int, xs: seq<Example>, n: nat, e: Example, x: Example)
    ensures multiset(Best(xs, KeyOf(h, seed), n))[e] <= multiset(xs)[e]
    ensures e in Best(xs, KeyOf(h, seed), n) && multiset(Best(xs, KeyOf(h, seed), n))[x] < multiset(xs)[x] ==>
              ComesFirst(h, seed, e, x)
  {
    hide Best, Leq, KeyOf, ComesFirst;
    var rest := BestIsLeast(xs, KeyOf(h, seed), n);
    KeyOrder(h, seed, e, x);
    if multiset(Best(xs, KeyOf(h, seed), n))[x] < multiset(xs)[x] {
      assert x in multiset(rest);
    }
  }

  /** A sample holds no example more often than the stream does, and of each label only examples that come first
      in the order of the digests. */
  lemma SampleTakesFirst(h: Hash, config: Config, xs: seq<Example>, e: Example)
    requires ValidConfig(config) && Requested(config) != []
    ensures TakesFirst(h, config.seed, xs, ListChoice(h, config, xs), e)
  {
    hide SortBy, Gather, StratifiedQuota, EqualQuota, LabelsSeen, SmallestGroup, KeyOf, Best, ComesFirst, TakesFirst,
      NoDuplicates;
    var key := KeyOf(h, config.seed);
    SortByMultiset(xs, key);
    match config.strategy
    case Random =>
      if config.maxExamples.Some? {
        BestTakesFirst(h, config.seed, xs, config.maxExamples.value, e);
      } else {
        AllTaken(h, config.seed, xs, SortBy(xs, key), e);
      }
    case Balanced =>
      RequestedLabels(config);
      SelectionTakesFirst(h, config.seed, xs, Requested(config),
                          BalancedQuota(xs, Requested(config), config.maxExamples), e);
    case Stratified =>
      if config.maxExamples.Some? && config.maxExamples.value < |xs| {
        LabelsSeenExact(xs);
        SelectionTakesFirst(h, config.seed, xs, LabelsSeen(xs), StratifiedQuota(xs, config.maxExamples.value), e);
      } else {
        AllTaken(h, config.seed, xs, SortBy(xs, key), e);
      }
  }

  lemma BestTakesFirst(h: Hash, seed: int, xs: seq<Example>, n: nat, e: Example)
    ensures TakesFirst(h, seed, xs, Best(xs, KeyOf(h, seed), n), e)
  {
    hide Best, KeyOf, ComesFirst;
    forall x ensures e in Best(xs, KeyOf(h, seed), n) && multiset(Best(xs, KeyOf(h, seed), n))[x] < multiset(xs)[x] ==>
                       ComesFirst(h, seed, e, x)
    {
      BestTaken(h, seed, xs, n, e, x);
    }
    BestTaken(h, seed, xs, n, e, e);
  }

  /** A random sample has the size asked for, and nothing it leaves out comes before anything it holds. */
  lemma RandomTakesFirst(h: Hash, config: Config, xs: seq<Example>, n: nat, e: Example, x: Example)
    requires Requested(config) != [] && config.strategy.Random? && config.maxExamples == Some(n)
    ensures var sample := ListChoice(h, config, xs);
            && |sample| == (if n < |xs| then n else |xs|)
            && (e in sample && multiset(sample)[x] < multiset(xs)[x] ==> ComesFirst(h, config.seed, e, x))
  {
    hide Best, KeyOf, ComesFirst, Leq;
    BestTaken(h, config.seed, xs, n, e, x);
    var rest := BestIsLeast(xs, KeyOf(h, config.seed), n);
  }

  /** A sample is listed in the order of the digests. */
  lemma SampleInOrder(h: Hash, config: Config, xs: seq<Example>, i: nat, j: nat)
    requires Requested(config) != [] && i < j < |ListChoice(h, config, xs)|
    ensures ComesFirst(h, config.seed, ListChoice(h, config, xs)[i], ListChoice(h, config, xs)[j])
  {
    hide SortBy, Gather, StratifiedQuota, EqualQuota, LabelsSeen, SmallestGroup, KeyOf, ComesFirst, Leq, Requested;
    var key, sample := KeyOf(h, config.seed), ListChoice(h, config, xs);
    KeyOrder(h, config.seed, sample[i], sample[j]);
    SortBySorted(xs, key);
    match config.strategy
    case Random =>
    case Balanced =>
      SortBySorted(Gather(xs, Requested(config), BalancedQuota(xs, Requested(config), config.maxExamples), key), key);
    case Stratified =>
      if config.maxExamples.Some? && config.maxExamples.value < |xs| {
        SortBySorted(Gather(xs, LabelsSeen(xs), StratifiedQuota(xs, config.maxExamples.value), key), key);
      }
  }

  // ---- How many of each label ----

  /** The labels of the configuration in its order, and all three in the declared order when it names none. */
  lemma RequestedAre(config: Config)
    ensures config.labels.Some? && |config.labels.value| > 0 ==> Requested(config) == config.labels.value
    ensures config.labels.None? || |config.labels.value| == 0 ==> Requested(config) == [Entailed, Contradicted, Unknown]
  {
  }

  /** A balanced sample of a target divides it evenly, and the labels requested first take one more each until the
      remainder is used up. */
  lemma BalancedShares(h: Hash, config: Config, xs: seq<Example>, target: nat, i: nat)
    requires ValidConfig(config) && config.strategy.Balanced? && config.maxExamples == Some(target)
    requires Requested(config) != [] && Feasible(config, xs) && i < |Requested(config)|
    ensures |Having(ListChoice(h, config, xs), Requested(config)[i])| ==
              target / |Requested(config)| + if i < target % |Requested(config)| then 1 else 0
  {
    hide ListChoice, Feasible, Having, Group;
    var labels := Requested(config);
    RequestedLabels(config);
    BalancedByGroup(h, config, xs, labels[i]);
    HavingSize(ListChoice(h, config, xs), labels[i]);
    IndexOfAt(labels, i);
    DivisionTheorem(target, |labels|);
  }

  /** Without a target every requested label gets as many examples as the rarest requested label has. */
  lemma BalancedLeast(h: Hash, config: Config, xs: seq<Example>, l: Label)
    requires ValidConfig(config) && config.strategy.Balanced? && config.maxExamples.None?
    requires Requested(config) != [] && Feasible(config, xs) && l in Requested(config)
    ensures forall m :: m in Requested(config) ==>
              |Having(ListChoice(h, config, xs), l)| <= |Having(xs, m)|
    ensures exists m :: m in Requested(config) && |Having(ListChoice(h, config, xs), l)| == |Having(xs, m)|
  {
    hide ListChoice, Feasible, Having, Group, Requested;
    BalancedByGroup(h, config, xs, l);
    HavingSize(ListChoice(h, config, xs), l);
    SmallestIsLeast(xs, Requested(config));
    forall m ensures |Having(xs, m)| == |Group(xs, m)| {
      HavingSize(xs, m);
    }
  }

  lemma {:induction false} SmallestIsLeast(xs: seq<Example>, labels: seq<Label>)
    requires labels != []
    ensures forall m :: m in labels ==> SmallestGroup(xs, labels) <= |Group(xs, m)|
    ensures exists m :: m in labels && SmallestGroup(xs, labels) == |Group(xs, m)|
  {
    hide Group;
    var n := |labels| - 1;
    assert labels[n] in labels;
    if n > 0 {
      SmallestIsLeast(xs, labels[..n]);
      assert labels == labels[..n] + [labels[n]];
    }
  }

  /** The order of the labels by their values. */
  function Rank(l: Label): nat {
    match l
    case Contradicted => 0
    case Entailed => 1
    case Unknown => 2
  }

  lemma LabelOrder(l: Label, m: Label)
    ensures StrLeq(LabelValue(l), LabelValue(m)) <==> Rank(l) <= Rank(m)
  {
    StrTotal(LabelValue(l), LabelValue(l));
    FirstLetter(l);
    FirstLetter(m);
  }

  lemma FirstLetter(l: Label)
    ensures LabelValue(l) != []
    ensures LabelValue(l)[0] == match l case Contradicted => 'C' case Entailed => 'E' case Unknown => 'U'
  {
  }

  /** In a stratified sample below the whole: each label gets its exact share rounded down or up; one that is
      rounded up has at least the remainder of one that is rounded down, and of equal remainders CONTRADICTED is
      rounded up before ENTAILED and ENTAILED before UNKNOWN. */
  lemma StratifiedShares(h: Hash, config: Config, xs: seq<Example>, target: nat, l: Label, m: Label)
    requires ValidConfig(config) && config.strategy.Stratified? && config.maxExamples == Some(target) && target < |xs|
    requires Having(xs, l) != {} && Having(xs, m) != {} && Requested(config) != []
    ensures var sample, cl, cm := ListChoice(h, config, xs), |Having(xs, l)|, |Having(xs, m)|;
            var sl, sm := |Having(sample, l)|, |Having(sample, m)|;
            && (sl - 1) * |xs| < cl * target < (sl + 1) * |xs|
            && (sl * |xs| > cl * target && sm * |xs| < cm * target ==>
                  && cl * target % |xs| >= cm * target % |xs|
                  && (cl * target % |xs| == cm * target % |xs| ==> Rank(l) <= Rank(m)))
  {
    hide ListChoice, Having, LabelsSeen, Group, Quota, Sum;
    SeenIfHaving(xs, l);
    SeenIfHaving(xs, m);
    StratifiedByGroup(h, config, xs, target, l);
    StratifiedByGroup(h, config, xs, target, m);
    HavingSize(ListChoice(h, config, xs), l);
    HavingSize(ListChoice(h, config, xs), m);
    HavingSize(xs, l);
    HavingSize(xs, m);
    SharesCommute(|xs|, StratifiedQuota(xs, target)(l), |Group(xs, l)| * target);
    SharesCommute(|xs|, StratifiedQuota(xs, target)(m), |Group(xs, m)| * target);
    RemaindersWin(xs, target, l, m);
  }

  lemma SharesCommute(n: int, s: int, share: int)
    requires n * (s - 1) < share < n * (s + 1)
    ensures (s - 1) * n < share < (s + 1) * n
  {
  }

  lemma SeenIfHaving(xs: seq<Example>, l: Label)
    requires Having(xs, l) != {}
    ensures l in LabelsSeen(xs)
  {
    hide LabelsSeen, Having;
    HavingSize(xs, l);
    LabelsSeenExact(xs);
  }

  lemma RemaindersWin(xs: seq<Example>, target: nat, l: Label, m: Label)
    requires target < |xs| && l in LabelsSeen(xs) && m in LabelsSeen(xs)
    ensures var q, n := StratifiedQuota(xs, target), |xs|;
            var x, y := |Group(xs, l)| * target, |Group(xs, m)| * target;
            q(l) * n > x && q(m) * n < y ==> x % n >= y % n && (x % n == y % n ==> Rank(l) <= Rank(m))
  {
    hide LabelsSeen, Group, Winners, Sum, Proper, StratifiedQuota, Left;
    SeenRequestProper(xs, target);
    var r, labels, n := SeenRequest(xs, target), LabelsSeen(xs), |xs|;
    QuotaParts(xs, target, l);
    QuotaParts(xs, target, m);
    RoundedUp(n, |Group(xs, l)| * target, l in Winners(r, labels));
    RoundedUp(n, |Group(xs, m)| * target, m in Winners(r, labels));
    LabelOrder(l, m);
    if l in Winners(r, labels) && m !in Winners(r, labels) {
      LargestRemaindersWin(r, labels, l, m);
    }
  }

  lemma QuotaParts(xs: seq<Example>, target: nat, l: Label)
    requires target < |xs| && l in LabelsSeen(xs)
    ensures StratifiedQuota(xs, target)(l) ==
              |Group(xs, l)| * target / |xs| + if l in Winners(SeenRequest(xs, target), LabelsSeen(xs)) then 1 else 0
    ensures Left(SeenRequest(xs, target))(l) == |Group(xs, l)| * target % |xs|
  {
    hide LabelsSeen, Group, Winners;
    var r, labels := SeenRequest(xs, target), LabelsSeen(xs);
    assert r.counts[l] == |Group(xs, l)| && r.total == |xs| && r.target == target;
    assert Floor(r)(l) == r.counts[l] * r.target / r.total;
    assert StratifiedQuota(xs, target) == Quota(r, labels);
    assert Quota(r, labels)(l) == Floor(r)(l) + if l in Winners(r, labels) then 1 else 0;
  }

  lemma RoundedUp(n: nat, share: nat, up: bool)
    requires n > 0
    ensures (share / n + if up then 1 else 0) * n > share ==> up
    ensures (share / n + if up then 1 else 0) * n < share ==> !up
  {
    var floor, left := share / n, share % n;
    DivisionTheorem(share, n);
    assert share == floor * n + left && left < n;
    if up {
      Distributed(floor, n);
      assert (share / n + if up then 1 else 0) * n == floor * n + n;
    } else {
      assert (share / n + if up then 1 else 0) * n == floor * n;
    }
  }

  lemma Distributed(a: int, n: int)
    ensures (a + 1) * n == a * n + n
  {
  }

  // ---- The streamed sample ----

  lemma JoinedIsAll(xs: seq<Example>)
    ensures multiset(ConcatGroups(xs, LabelsSeen(xs))) == multiset(xs)
  {
    hide SortBy, ConcatGroups, LabelsSeen;
    ConcatIsResort(xs);
    SortByMultiset(xs, SeenKey(xs));
  }

  /** The streaming version, too, holds no example more often than the stream does, and of each label only examples
      that come first. */
  lemma StreamTakesFirst(h: Hash, config: Config, xs: seq<Example>, e: Example)
    requires ValidConfig(config) && Requested(config) != []
    ensures TakesFirst(h, config.seed, xs, StreamChoice(h, config, xs), e)
  {
    hide SortBy, ListChoice, ConcatGroups, LabelsSeen, KeyOf, TakesFirst;
    if config.strategy.Stratified? && config.maxExamples.Some? && config.maxExamples.value >= |xs| {
      var joined := ConcatGroups(xs, LabelsSeen(xs));
      JoinedIsAll(xs);
      SortByMultiset(joined, KeyOf(h, config.seed));
      AllTaken(h, config.seed, xs, StreamChoice(h, config, xs), e);
    } else {
      SampleTakesFirst(h, config, xs, e);
    }
  }

  /** Without a target, a sample that is not balanced holds everything. */
  lemma EverythingTaken(h: Hash, config: Config, xs: seq<Example>)
    requires Requested(config) != [] && !config.strategy.Balanced? && config.maxExamples.None?
    ensures multiset(ListChoice(h, config, xs)) == multiset(xs)
  {
    hide SortBy;
    SortByMultiset(xs, KeyOf(h, config.seed));
  }
}
