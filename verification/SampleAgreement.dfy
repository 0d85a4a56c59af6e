/** What a sample is, and when the streaming sampler and the sorting sampler return the same one
    (backend/src/verilogic_ns_api/datasets/sampling.py). */
module SampleAgreement {
  import opened Logic
  import opened Keys
  import opened StableSort
  import opened Apportionment
  import opened Sampling

  // ---- The order in which labels are met ----

  lemma {:induction false} FirstSeenFacts(xs: seq<Example>, l: Label)
    ensures FirstSeen(xs, l) <= |xs|
    ensures FirstSeen(xs, l) < |xs| ==> xs[FirstSeen(xs, l)].goldLabel == l
    ensures FirstSeen(xs, l) < |xs| <==> Group(xs, l) != []
  {
    if xs != [] && xs[0].goldLabel != l {
      FirstSeenFacts(xs[1..], l);
    }
  }

  lemma {:induction false} FirstSeenSnoc(xs: seq<Example>, x: Example, l: Label)
    ensures FirstSeen(xs, l) < |xs| ==> FirstSeen(xs + [x], l) == FirstSeen(xs, l)
    ensures FirstSeen(xs, l) >= |xs| && x.goldLabel == l ==> FirstSeen(xs + [x], l) == |xs|
  {
    if xs != [] && xs[0].goldLabel != l {
      FirstSeenSnoc(xs[1..], x, l);
      assert (xs + [x])[1..] == xs[1..] + [x];
    }
  }

  /** Labels are listed in the order of their first examples. */
  lemma {:induction false} LabelsSeenInOrder(xs: seq<Example>)
    ensures forall i, j :: 0 <= i < j < |LabelsSeen(xs)| ==>
        FirstSeen(xs, LabelsSeen(xs)[i]) < FirstSeen(xs, LabelsSeen(xs)[j])
    ensures forall l :: l in LabelsSeen(xs) ==> FirstSeen(xs, l) < |xs|
  {
    hide Group;
    if xs != [] {
      var n := |xs| - 1;
      var before, x := xs[..n], xs[n];
      LabelsSeenInOrder(before);
      LabelsSeenExact(before);
      assert xs == before + [x];
      forall l ensures (FirstSeen(before, l) < n ==> FirstSeen(xs, l) == FirstSeen(before, l))
                    && (FirstSeen(before, l) >= n && x.goldLabel == l ==> FirstSeen(xs, l) == n)
                    && (FirstSeen(before, l) < n <==> l in LabelsSeen(before))
      {
        FirstSeenSnoc(before, x, l);
        FirstSeenFacts(before, l);
      }
    }
  }

  function SeenKey(xs: seq<Example>): Example -> Key {
    (e: Example) => Num(FirstSeen(xs, e.goldLabel))
  }

  /** Labels with distinct first places. */
  ghost predicate Told(xs: seq<Example>, labels: seq<Label>) {
    forall i, j :: 0 <= i < j < |labels| ==> FirstSeen(xs, labels[i]) < FirstSeen(xs, labels[j])
  }

  // ---- Joining the groups is a stable sort by first appearance ----

  lemma InGroup(xs: seq<Example>, l: Label, x: Example)
    ensures x in Group(xs, l) <==> x in xs && x.goldLabel == l
  {
    FilterExact(xs, HasLabel(l));
  }

  /** Within one group either every example has the key `k` or none has. */
  lemma GroupClass(xs: seq<Example>, l: Label, k: Key)
    requires FirstSeen(xs, l) < |xs|
    ensures k == Num(FirstSeen(xs, l)) ==>
              Filter(Group(xs, l), HasKey(SeenKey(xs), k)) == Filter(xs, HasKey(SeenKey(xs), k))
    ensures k != Num(FirstSeen(xs, l)) ==> Filter(Group(xs, l), HasKey(SeenKey(xs), k)) == []
  {
    hide FirstSeen;
    var p := HasKey(SeenKey(xs), k);
    forall x ensures x in Group(xs, l) <==> x in xs && x.goldLabel == l {
      InGroup(xs, l, x);
    }
    if k == Num(FirstSeen(xs, l)) {
      FilterAll(Group(xs, l), p);
      forall x | x in xs ensures p(x) == HasLabel(l)(x) {
        FirstSeenFacts(xs, l);
        FirstSeenFacts(xs, x.goldLabel);
      }
      FilterSame(xs, p, HasLabel(l));
    } else {
      FilterNone(Group(xs, l), p);
    }
  }

  ghost predicate Covers(xs: seq<Example>, labels: seq<Label>, k: Key) {
    exists l :: l in labels && k == Num(FirstSeen(xs, l))
  }

  lemma {:induction false} ConcatClass(xs: seq<Example>, labels: seq<Label>, k: Key)
    requires Told(xs, labels) && forall l :: l in labels ==> FirstSeen(xs, l) < |xs|
    ensures Filter(ConcatGroups(xs, labels), HasKey(SeenKey(xs), k)) ==
              if Covers(xs, labels, k) then Filter(xs, HasKey(SeenKey(xs), k)) else []
  {
    hide FirstSeen, Group, SeenKey;
    if labels != [] {
      var n := |labels| - 1;
      var init, last := labels[..n], labels[n];
      ConcatClass(xs, init, k);
      GroupClass(xs, last, k);
      FilterAppend(ConcatGroups(xs, init), Group(xs, last), HasKey(SeenKey(xs), k));
      CoversSnoc(xs, labels, k);
    }
  }

  lemma CoversSnoc(xs: seq<Example>, labels: seq<Label>, k: Key)
    requires Told(xs, labels) && labels != []
    ensures var n := |labels| - 1;
            && (Covers(xs, labels, k) <==> Covers(xs, labels[..n], k) || k == Num(FirstSeen(xs, labels[n])))
            && !(Covers(xs, labels[..n], k) && k == Num(FirstSeen(xs, labels[n])))
  {
    hide FirstSeen;
    var n := |labels| - 1;
    assert labels == labels[..n] + [labels[n]];
    if Covers(xs, labels[..n], k) {
      var l :| l in labels[..n] && k == Num(FirstSeen(xs, l));
      var i :| 0 <= i < n && labels[i] == l;
      assert l in labels;
    }
    if k == Num(FirstSeen(xs, labels[n])) {
      assert labels[n] in labels;
    }
    if Covers(xs, labels, k) {
      var l :| l in labels && k == Num(FirstSeen(xs, l));
      assert l in labels[..n] || l == labels[n];
    }
  }

  lemma {:induction false} ConcatSorted(xs: seq<Example>, labels: seq<Label>)
    requires Told(xs, labels)
    ensures Sorted(ConcatGroups(xs, labels), SeenKey(xs))
    ensures forall x :: x in ConcatGroups(xs, labels) ==> x.goldLabel in labels
  {
    hide FirstSeen, Group;
    if labels != [] {
      var n := |labels| - 1;
      ConcatSorted(xs, labels[..n]);
      var a, b := ConcatGroups(xs, labels[..n]), Group(xs, labels[n]);
      forall x | x in b ensures x.goldLabel == labels[n] {
        InGroup(xs, labels[n], x);
      }
      forall x | x in a ensures Leq(SeenKey(xs)(x), Num(FirstSeen(xs, labels[n]))) {
        var i :| 0 <= i < n && labels[i] == x.goldLabel;
      }
      forall i, j | 0 <= i < j < |a + b| ensures Leq(SeenKey(xs)((a + b)[i]), SeenKey(xs)((a + b)[j])) {
        if j >= |a| {
          assert (a + b)[j] in b;
          if i < |a| {
            assert (a + b)[i] in a;
          } else {
            assert (a + b)[i] in b;
          }
        }
      }
    }
  }

  lemma ConcatIsResort(xs: seq<Example>)
    ensures ConcatGroups(xs, LabelsSeen(xs)) == SortBy(xs, SeenKey(xs))
  {
    hide FirstSeen, Group, LabelsSeen, ConcatGroups, Leq, SortBy;
    var labels, key := LabelsSeen(xs), SeenKey(xs);
    LabelsSeenInOrder(xs);
    LabelsSeenExact(xs);
    ConcatSorted(xs, labels);
    SortBySorted(xs, key);
    forall k ensures Filter(ConcatGroups(xs, labels), HasKey(key, k)) == Filter(SortBy(xs, key), HasKey(key, k)) {
      ConcatClass(xs, labels, k);
      SortByStable(xs, key, k);
      if !Covers(xs, labels, k) {
        forall x | x in xs ensures !HasKey(key, k)(x) {
          InGroup(xs, x.goldLabel, x);
          assert x.goldLabel in labels;
        }
        FilterNone(xs, HasKey(key, k));
      }
    }
    SortedByClasses(ConcatGroups(xs, labels), SortBy(xs, key), key);
  }

  // ---- When streaming and sorting agree ----

  /** Of two examples with the same id, the later one never has a label met before the earlier one's. */
  ghost predicate TwinsInGroupOrder(xs: seq<Example>) {
    forall i, j :: 0 <= i < j < |xs| && xs[i].id == xs[j].id ==>
      FirstSeen(xs, xs[i].goldLabel) <= FirstSeen(xs, xs[j].goldLabel)
  }

  /** The streaming sampler returns what sorting everything and cutting returns, except when a
      stratified sample asks for at least everything: then exactly when no two examples with the same
      id come in the opposite order to their labels' first appearances. */
  lemma StreamAgreesWithList(h: Hash, config: Config, xs: seq<Example>)
    requires ValidConfig(config) && config.maxExamples.Some?
    ensures Requested(config) != []
    ensures StreamChoice(h, config, xs) == ListChoice(h, config, xs) <==>
              (config.strategy.Stratified? && config.maxExamples.value >= |xs| ==> TwinsInGroupOrder(xs))
  {
    hide FirstSeen, Group, LabelsSeen, ConcatGroups, Leq, SortBy, Gather;
    RequestedLabels(config);
    var key := KeyOf(h, config.seed);
    ConcatIsResort(xs);
    ResortAgrees(xs, SeenKey(xs), key);
    TwinsIff(h, config.seed, xs);
  }

  lemma TwinsIff(h: Hash, seed: int, xs: seq<Example>)
    ensures TwinsInGroupOrder(xs) <==>
              forall i, j :: 0 <= i < j < |xs| && KeyOf(h, seed)(xs[i]) == KeyOf(h, seed)(xs[j]) ==>
                Leq(SeenKey(xs)(xs[i]), SeenKey(xs)(xs[j]))
  {
    hide FirstSeen;
    forall i, j | 0 <= i < j < |xs| ensures KeyOf(h, seed)(xs[i]) == KeyOf(h, seed)(xs[j]) <==> xs[i].id == xs[j].id {
      KeyIffId(h, seed, xs[i], xs[j]);
    }
    forall i, j | 0 <= i < j < |xs|
      ensures Leq(SeenKey(xs)(xs[i]), SeenKey(xs)(xs[j])) <==>
          FirstSeen(xs, xs[i].goldLabel) <= FirstSeen(xs, xs[j].goldLabel)
    {
    }
  }

  ghost predicate DistinctExampleIds(xs: seq<Example>) {
    forall i, j :: 0 <= i < j < |xs| ==> xs[i].id != xs[j].id
  }

  /** With distinct ids the two versions always agree. */
  lemma DistinctIdsAgree(h: Hash, config: Config, xs: seq<Example>)
    requires ValidConfig(config) && config.maxExamples.Some? && DistinctExampleIds(xs)
    ensures Requested(config) != [] && StreamChoice(h, config, xs) == ListChoice(h, config, xs)
  {
    hide StreamChoice, ListChoice, FirstSeen;
    StreamAgreesWithList(h, config, xs);
  }

  /** A stream on which the two versions differ. */
  lemma TwinsDisagree(h: Hash, config: Config)
    requires ValidConfig(config) && config.strategy.Stratified? && config.maxExamples == Some(3)
    ensures var u, e, twin := Example("a", Unknown, Train, None, ""), Example("b", Entailed, Train, None, ""),
                              Example("b", Unknown, Train, None, "");
            Requested(config) != [] && StreamChoice(h, config, [u, e, twin]) != ListChoice(h, config, [u, e, twin])
  {
    hide StreamChoice, ListChoice;
    var u, e, twin := Example("a", Unknown, Train, None, ""), Example("b", Entailed, Train, None, ""),
                      Example("b", Unknown, Train, None, "");
    var xs := [u, e, twin];
    assert FirstSeen(xs, Unknown) == 0;
    assert xs[1..][0].goldLabel == Entailed;
    assert FirstSeen(xs, Entailed) == 1;
    assert xs[1].id == xs[2].id;
    StreamAgreesWithList(h, config, xs);
  }

  // ---- What is in a sample ----

  lemma {:induction false} GatherByGroup(xs: seq<Example>, labels: seq<Label>, q: Label -> int, key: Example -> Key,
                                         l: Label)
    requires NoDuplicates(labels)
    ensures Group(Gather(xs, labels, q, key), l) == if l in labels then Part(xs, l, q, key) else []
  {
    hide Part;
    if labels != [] {
      var n := |labels| - 1;
      GatherByGroup(xs, labels[..n], q, key, l);
      assert labels == labels[..n] + [labels[n]];
      FilterAppend(Gather(xs, labels[..n], q, key), Part(xs, labels[n], q, key), HasLabel(l));
      PartLabel(xs, labels[n], q, key, l);
    }
  }

  lemma PartLabel(xs: seq<Example>, m: Label, q: Label -> int, key: Example -> Key, l: Label)
    ensures Group(Part(xs, m, q, key), l) == if l == m then Part(xs, m, q, key) else []
  {
    hide SortBy;
    var part := Part(xs, m, q, key);
    SortByMultiset(Group(xs, m), key);
    forall x | x in part ensures x.goldLabel == m {
      assert x in SortBy(Group(xs, m), key);
      InGroup(xs, m, x);
    }
    if l == m {
      FilterAll(part, HasLabel(l));
    } else {
      FilterNone(part, HasLabel(l));
    }
  }

  /** A sorted join of parts holds, of each group, exactly its first examples, in key order. */
  lemma SelectionByGroup(xs: seq<Example>, labels: seq<Label>, q: Label -> int, key: Example -> Key, l: Label)
    requires NoDuplicates(labels)
    ensures Group(SortBy(Gather(xs, labels, q, key), key), l) == if l in labels then Part(xs, l, q, key) else []
    ensures Sorted(SortBy(Gather(xs, labels, q, key), key), key)
  {
    hide SortBy, Gather, Leq;
    var gathered := Gather(xs, labels, q, key);
    GatherByGroup(xs, labels, q, key, l);
    SortByFilter(gathered, key, HasLabel(l));
    SortBySorted(gathered, key);
    PartSorted(xs, l, q, key);
    if l in labels {
      SortBySame(Part(xs, l, q, key), key);
    } else {
      SortBySame<Example>([], key);
    }
  }

  lemma PartSorted(xs: seq<Example>, l: Label, q: Label -> int, key: Example -> Key)
    ensures Sorted(Part(xs, l, q, key), key)
  {
    var rest := BestIsLeast(Group(xs, l), key, if q(l) >= 0 then q(l) else 0);
  }

  /** A balanced sample takes its quota of each requested label, the first in key order, and nothing else. */
  lemma BalancedByGroup(h: Hash, config: Config, xs: seq<Example>, l: Label)
    requires ValidConfig(config) && config.strategy.Balanced? && Requested(config) != [] && Feasible(config, xs)
    ensures var q := BalancedQuota(xs, Requested(config), config.maxExamples);
            && Group(ListChoice(h, config, xs), l) ==
                 (if l in Requested(config) then Part(xs, l, q, KeyOf(h, config.seed)) else [])
            && |Group(ListChoice(h, config, xs), l)| == (if l in Requested(config) && q(l) >= 0 then q(l) else 0)
  {
    hide SortBy, Gather, EqualQuota, SmallestGroup;
    RequestedLabels(config);
    var q, key := BalancedQuota(xs, Requested(config), config.maxExamples), KeyOf(h, config.seed);
    SelectionByGroup(xs, Requested(config), q, key, l);
    SortByMultiset(Group(xs, l), key);
  }

  /** A stratified sample below the whole has the target size, takes its quota of each group, and
      that quota is the floor or the ceiling of the group's exact share. */
  lemma StratifiedByGroup(h: Hash, config: Config, xs: seq<Example>, target: nat, l: Label)
    requires ValidConfig(config) && config.strategy.Stratified? && config.maxExamples == Some(target) && target < |xs|
    requires l in LabelsSeen(xs)
    ensures Requested(config) != []
    ensures var q := StratifiedQuota(xs, target);
            && Group(ListChoice(h, config, xs), l) == Part(xs, l, q, KeyOf(h, config.seed))
            && |Group(ListChoice(h, config, xs), l)| == q(l) <= |Group(xs, l)|
            && |xs| * (q(l) - 1) < |Group(xs, l)| * target < |xs| * (q(l) + 1)
            && Sum(LabelsSeen(xs), q) == target
  {
    hide SortBy, Gather, LabelsSeen, Quota, Sum;
    RequestedLabels(config);
    LabelsSeenExact(xs);
    var q, key := StratifiedQuota(xs, target), KeyOf(h, config.seed);
    SeenRequestProper(xs, target);
    QuotaIsRounding(SeenRequest(xs, target), LabelsSeen(xs), l);
    QuotasSumToTarget(SeenRequest(xs, target), LabelsSeen(xs));
    SelectionByGroup(xs, LabelsSeen(xs), q, key, l);
    SortByMultiset(Group(xs, l), key);
  }

  // ---- How large a sample is ----

  lemma {:induction false} ShareSum(labels: seq<Label>, target: nat, n: nat)
    requires NoDuplicates(labels) && labels != [] && n <= |labels|
    ensures Sum(labels[..n], EqualQuota(labels, target)) ==
              target / |labels| * n + if n < target % |labels| then n else target % |labels|
  {
    hide IndexOf;
    if n == 0 {
      assert labels[..n] == [];
    } else {
      ShareSum(labels, target, n - 1);
      assert labels[..n][..n - 1] == labels[..n - 1] && labels[..n][n - 1] == labels[n - 1];
      IndexOfAt(labels, n - 1);
      Distribute(target / |labels|, n - 1);
    }
  }

  /** The equal parts add up to the target. */
  lemma EqualQuotasSum(labels: seq<Label>, target: nat)
    requires NoDuplicates(labels) && labels != []
    ensures Sum(labels, EqualQuota(labels, target)) == target
  {
    ShareSum(labels, target, |labels|);
    assert labels[..|labels|] == labels;
    DivisionTheorem(target, |labels|);
  }

  lemma DivisionTheorem(a: nat, b: nat)
    requires b > 0
    ensures a == a / b * b + a % b && a % b < b
  {
  }

  lemma {:induction false} GatherSize(xs: seq<Example>, labels: seq<Label>, q: Label -> int, key: Example -> Key)
    requires forall l :: l in labels ==> 0 <= q(l) <= |Group(xs, l)|
    ensures |Gather(xs, labels, q, key)| == Sum(labels, q)
  {
    hide Group, SortBy;
    if labels != [] {
      var n := |labels| - 1;
      assert labels[n] in labels;
      GatherSize(xs, labels[..n], q, key);
      SortByMultiset(Group(xs, labels[n]), key);
    }
  }

  lemma BalancedSize(h: Hash, config: Config, xs: seq<Example>, target: nat)
    requires ValidConfig(config) && config.strategy.Balanced? && config.maxExamples == Some(target)
    requires Requested(config) != [] && Feasible(config, xs)
    ensures |ListChoice(h, config, xs)| == target
  {
    hide SortBy, Gather, Group, IndexOf;
    RequestedLabels(config);
    var labels, key := Requested(config), KeyOf(h, config.seed);
    var q := BalancedQuota(xs, labels, config.maxExamples);
    EqualQuotasSum(labels, target);
    forall l | l in labels ensures 0 <= q(l) <= |Group(xs, l)| {
      DivisionTheorem(target, |labels|);
    }
    GatherSize(xs, labels, q, key);
    SortByMultiset(Gather(xs, labels, q, key), key);
  }

  lemma StratifiedSize(h: Hash, seed: int, xs: seq<Example>, target: nat)
    requires target < |xs|
    ensures |SortBy(Gather(xs, LabelsSeen(xs), StratifiedQuota(xs, target), KeyOf(h, seed)), KeyOf(h, seed))| == target
  {
    hide SortBy, Gather, Group, LabelsSeen, Quota, Sum;
    var labels, q, key := LabelsSeen(xs), StratifiedQuota(xs, target), KeyOf(h, seed);
    SeenRequestProper(xs, target);
    QuotasSumToTarget(SeenRequest(xs, target), labels);
    forall l | l in labels ensures 0 <= q(l) <= |Group(xs, l)| {
      QuotaIsRounding(SeenRequest(xs, target), labels, l);
    }
    GatherSize(xs, labels, q, key);
    SortByMultiset(Gather(xs, labels, q, key), key);
  }

  /** A feasible sample has the size asked for, or holds everything when there is less. */
  lemma SampleSize(h: Hash, config: Config, xs: seq<Example>, target: nat)
    requires ValidConfig(config) && config.maxExamples == Some(target) && Requested(config) != []
             && Feasible(config, xs)
    ensures |ListChoice(h, config, xs)| ==
              if config.strategy.Balanced? || target < |xs| then target else |xs|
  {
    hide SortBy, Gather, Group, LabelsSeen, StratifiedQuota, Feasible;
    var key := KeyOf(h, config.seed);
    SortByMultiset(xs, key);
    if config.strategy.Balanced? {
      BalancedSize(h, config, xs, target);
    } else if config.strategy.Stratified? && target < |xs| {
      StratifiedSize(h, config.seed, xs, target);
    }
  }

  // ---- The errors of the two balanced samplers ----

  /** The balanced samplers fail together, and name different errors exactly when a label is missing and the
      target is below the number of labels. */
  lemma BalancedErrors(config: Config, xs: seq<Example>)
    requires Requested(config) != []
    ensures ListError(config, xs).Some? <==> StreamError(config, xs).Some?
    ensures ListError(config, xs) != StreamError(config, xs) <==>
              && Missing(xs, Requested(config))
              && config.maxExamples.Some? && config.maxExamples.value < |Requested(config)|
  {
    hide Missing, Overdrawn, BalancedQuota;
  }

  /** One entailed example, all labels requested and a target of one: one sampler misses labels, the other
      finds the target too small. */
  lemma BalancedErrorsDiffer(config: Config)
    requires ValidConfig(config) && config.strategy.Balanced? && config.labels.None? && config.maxExamples == Some(1)
    ensures var xs := [Example("a", Entailed, Train, None, "")];
            && Requested(config) != []
            && ListError(config, xs) == Some(MissingLabels) && StreamError(config, xs) == Some(SampleTooSmall)
  {
    var xs := [Example("a", Entailed, Train, None, "")];
    assert Group(xs, Unknown) == [];
    assert Requested(config)[2] == Unknown;
    assert Unknown in Requested(config);
  }

  // ---- The order of the stream does not matter ----

  lemma {:induction false} GatherAppend(xs: seq<Example>, a: seq<Label>, b: seq<Label>, q: Label -> int,
                                        key: Example -> Key)
    ensures Gather(xs, a + b, q, key) == Gather(xs, a, q, key) + Gather(xs, b, q, key)
  {
    hide Part;
    if b == [] {
      assert a + b == a;
    } else {
      GatherAppend(xs, a, b[..|b| - 1], q, key);
      assert (a + b)[..|a + b| - 1] == a + b[..|b| - 1];
    }
  }

  lemma GatherWithout(xs: seq<Example>, b: seq<Label>, i: nat, q: Label -> int, key: Example -> Key)
    requires i < |b|
    ensures multiset(Gather(xs, b, q, key)) ==
        multiset(Gather(xs, Without(b, i), q, key)) + multiset(Part(xs, b[i], q, key))
  {
    hide Part, Gather;
    GatherAppend(xs, b[..i], b[i + 1..], q, key);
    GatherAppend(xs, b[..i] + [b[i]], b[i + 1..], q, key);
    GatherAppend(xs, b[..i], [b[i]], q, key);
    GatherOne(xs, b[i], q, key);
    assert b == b[..i] + [b[i]] + b[i + 1..];
  }

  lemma GatherOne(xs: seq<Example>, l: Label, q: Label -> int, key: Example -> Key)
    ensures Gather(xs, [l], q, key) == Part(xs, l, q, key)
  {
    assert [l][..0] == [];
  }

  lemma {:induction false} GatherPermuted(xs: seq<Example>, a: seq<Label>, b: seq<Label>, q: Label -> int,
                                          key: Example -> Key)
    requires multiset(a) == multiset(b)
    ensures multiset(Gather(xs, a, q, key)) == multiset(Gather(xs, b, q, key))
  {
    hide Part, Without;
    SameElements(a, b);
    if a != [] {
      var i := PermutedLast(a, b);
      GatherPermuted(xs, a[..|a| - 1], Without(b, i), q, key);
      GatherWithout(xs, b, i, q, key);
    }
  }

  lemma GroupPermuted(xs: seq<Example>, ys: seq<Example>, l: Label)
    requires multiset(xs) == multiset(ys)
    ensures |Group(xs, l)| == |Group(ys, l)| && multiset(Group(xs, l)) == multiset(Group(ys, l))
  {
    FilterMultiset(xs, ys, HasLabel(l));
    SameElements(Group(xs, l), Group(ys, l));
  }

  lemma KeysTellApart(h: Hash, seed: int, xs: seq<Example>, ys: seq<Example>)
    requires DistinctExampleIds(xs) && forall y :: y in ys ==> y in xs
    ensures KeyTellsApart(ys, KeyOf(h, seed))
  {
    forall i, j | 0 <= i < |ys| && 0 <= j < |ys| && KeyOf(h, seed)(ys[i]) == KeyOf(h, seed)(ys[j])
      ensures ys[i] == ys[j]
    {
      assert ys[i] in xs && ys[j] in xs;
      var m :| 0 <= m < |xs| && xs[m] == ys[i];
      var n :| 0 <= n < |xs| && xs[n] == ys[j];
      KeyIffId(h, seed, ys[i], ys[j]);
    }
  }

  lemma PartPermuted(h: Hash, seed: int, xs: seq<Example>, ys: seq<Example>, l: Label, q: Label -> int, p: Label -> int)
    requires multiset(xs) == multiset(ys) && DistinctExampleIds(xs) && q(l) == p(l)
    ensures Part(xs, l, q, KeyOf(h, seed)) == Part(ys, l, p, KeyOf(h, seed))
  {
    hide SortBy, Group;
    GroupPermuted(xs, ys, l);
    forall x | x in Group(xs, l) ensures x in xs {
      InGroup(xs, l, x);
    }
    KeysTellApart(h, seed, xs, Group(xs, l));
    SortByOrderFree(Group(xs, l), Group(ys, l), KeyOf(h, seed));
  }

  lemma {:induction false} GatherReordered(h: Hash, seed: int, xs: seq<Example>, ys: seq<Example>,
                                           labels: seq<Label>, q: Label -> int, p: Label -> int)
    requires multiset(xs) == multiset(ys) && DistinctExampleIds(xs) && forall l :: l in labels ==> q(l) == p(l)
    ensures Gather(xs, labels, q, KeyOf(h, seed)) == Gather(ys, labels, p, KeyOf(h, seed))
  {
    hide Part;
    if labels != [] {
      var n := |labels| - 1;
      GatherReordered(h, seed, xs, ys, labels[..n], q, p);
      PartPermuted(h, seed, xs, ys, labels[n], q, p);
    }
  }

  lemma {:induction false} SmallestReordered(xs: seq<Example>, ys: seq<Example>, labels: seq<Label>)
    requires multiset(xs) == multiset(ys) && labels != []
    ensures SmallestGroup(xs, labels) == SmallestGroup(ys, labels)
  {
    var n := |labels| - 1;
    GroupPermuted(xs, ys, labels[n]);
    if n > 0 {
      SmallestReordered(xs, ys, labels[..n]);
    }
  }

  lemma LabelsReordered(xs: seq<Example>, ys: seq<Example>)
    requires multiset(xs) == multiset(ys)
    ensures multiset(LabelsSeen(xs)) == multiset(LabelsSeen(ys))
  {
    hide Group, LabelsSeen;
    LabelsSeenExact(xs);
    LabelsSeenExact(ys);
    forall l ensures l in LabelsSeen(xs) <==> l in LabelsSeen(ys) {
      GroupPermuted(xs, ys, l);
    }
    NoDuplicatesMultiset(LabelsSeen(xs), LabelsSeen(ys));
  }

  lemma RequestReordered(xs: seq<Example>, ys: seq<Example>, target: nat)
    requires multiset(xs) == multiset(ys)
    ensures SeenRequest(xs, target) == SeenRequest(ys, target)
  {
    hide Group, LabelsSeen;
    LabelsReordered(xs, ys);
    SameElements(LabelsSeen(xs), LabelsSeen(ys));
    SameElements(xs, ys);
    forall l ensures |Group(xs, l)| == |Group(ys, l)| {
      GroupPermuted(xs, ys, l);
    }
  }

  /** A stratified sample does not depend on the order of the stream. */
  lemma StratifiedReordered(h: Hash, seed: int, xs: seq<Example>, ys: seq<Example>, target: nat)
    requires multiset(xs) == multiset(ys) && DistinctExampleIds(xs) && target < |xs|
    ensures SortBy(Gather(xs, LabelsSeen(xs), StratifiedQuota(xs, target), KeyOf(h, seed)), KeyOf(h, seed)) ==
            SortBy(Gather(ys, LabelsSeen(ys), StratifiedQuota(ys, target), KeyOf(h, seed)), KeyOf(h, seed))
  {
    hide Group, LabelsSeen, SortBy, Gather, Quota;
    var key, a, b := KeyOf(h, seed), LabelsSeen(xs), LabelsSeen(ys);
    LabelsReordered(xs, ys);
    RequestReordered(xs, ys, target);
    QuotasOrderFree(SeenRequest(xs, target), a, b);
    GatherReordered(h, seed, xs, ys, b, StratifiedQuota(xs, target), StratifiedQuota(ys, target));
    GatherPermuted(xs, a, b, StratifiedQuota(xs, target), key);
    forall x | x in Gather(xs, a, StratifiedQuota(xs, target), key) ensures x in xs {
      GatherWithin(xs, a, StratifiedQuota(xs, target), key, x);
    }
    KeysTellApart(h, seed, xs, Gather(xs, a, StratifiedQuota(xs, target), key));
    SortByOrderFree(Gather(xs, a, StratifiedQuota(xs, target), key), Gather(xs, b, StratifiedQuota(xs, target), key),
      key);
  }

  lemma {:induction false} GatherWithin(xs: seq<Example>, labels: seq<Label>, q: Label -> int, key: Example -> Key,
                                        x: Example)
    requires x in Gather(xs, labels, q, key)
    ensures x in xs
  {
    hide SortBy;
    var n := |labels| - 1;
    if x in Gather(xs, labels[..n], q, key) {
      GatherWithin(xs, labels[..n], q, key, x);
    } else {
      SortByMultiset(Group(xs, labels[n]), key);
      assert x in SortBy(Group(xs, labels[n]), key);
      InGroup(xs, labels[n], x);
    }
  }

  /** With distinct ids, the sample depends only on which examples the stream holds. */
  lemma ChoiceReordered(h: Hash, config: Config, xs: seq<Example>, ys: seq<Example>)
    requires ValidConfig(config) && multiset(xs) == multiset(ys) && DistinctExampleIds(xs)
    ensures Requested(config) != [] && ListChoice(h, config, xs) == ListChoice(h, config, ys)
  {
    hide Group, LabelsSeen, SortBy, Gather, StratifiedQuota, EqualQuota, SmallestGroup;
    RequestedLabels(config);
    SameElements(xs, ys);
    var key, labels := KeyOf(h, config.seed), Requested(config);
    KeysTellApart(h, config.seed, xs, xs);
    SortByOrderFree(xs, ys, key);
    if config.strategy.Balanced? {
      SmallestReordered(xs, ys, labels);
      GatherReordered(h, config.seed, xs, ys, labels, BalancedQuota(xs, labels, config.maxExamples),
        BalancedQuota(ys, labels, config.maxExamples));
    }
    if config.strategy.Stratified? && config.maxExamples.Some? && config.maxExamples.value < |xs| {
      StratifiedReordered(h, config.seed, xs, ys, config.maxExamples.value);
    }
  }

  lemma PermutedDistinctIds(xs: seq<Example>, ys: seq<Example>)
    requires multiset(xs) == multiset(ys) && DistinctExampleIds(xs)
    ensures DistinctExampleIds(ys)
  {
    SameElements(xs, ys);
    forall i, j | 0 <= i < j < |ys| ensures ys[i].id != ys[j].id {
      if ys[i].id == ys[j].id {
        assert ys[i] in xs && ys[j] in xs;
        var m :| 0 <= m < |xs| && xs[m] == ys[i];
        var n :| 0 <= n < |xs| && xs[n] == ys[j];
        assert m == n;
        TwiceCounted(ys, i, j);
        NoDuplicatesCount(xs, ys[j]);
      }
    }
  }

  /** The streaming sampler forgets the order of its stream: the outcome and the sample are the same. */
  lemma StreamReordered(h: Hash, config: Config, xs: seq<Example>, ys: seq<Example>)
    requires ValidConfig(config) && config.maxExamples.Some? && multiset(xs) == multiset(ys) && DistinctExampleIds(xs)
    ensures Requested(config) != [] && StreamChoice(h, config, xs) == StreamChoice(h, config, ys)
    ensures Feasible(config, xs) <==> Feasible(config, ys)
  {
    hide StreamChoice, ListChoice, Group, SmallestGroup, EqualQuota;
    PermutedDistinctIds(xs, ys);
    DistinctIdsAgree(h, config, xs);
    DistinctIdsAgree(h, config, ys);
    ChoiceReordered(h, config, xs, ys);
    SameElements(xs, ys);
    forall l ensures |Group(xs, l)| == |Group(ys, l)| {
      GroupPermuted(xs, ys, l);
    }
  }
}
