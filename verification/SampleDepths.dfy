/** Reasoning depths play no part in what is sampled (backend/src/verilogic_ns_api/datasets/sampling.py):
    strata are labels only. */
module SampleDepths {
  import opened Logic
  import opened Keys
  import opened StableSort
  import opened Apportionment
  import opened Sampling
  import opened SampleAgreement

  function WithoutDepth(e: Example): Example {
    e.(depth := None)
  }

  function Strip(xs: seq<Example>): seq<Example> {
    seq(|xs|, i requires 0 <= i < |xs| => WithoutDepth(xs[i]))
  }

  /** What looks at an example without its depth. */
  ghost predicate Blind<T>(f: Example -> T) {
    forall e :: f(WithoutDepth(e)) == f(e)
  }

  lemma StripFirst(xs: seq<Example>)
    requires xs != []
    ensures Strip(xs) == [WithoutDepth(xs[0])] + Strip(xs[1..]) && Strip(xs)[1..] == Strip(xs[1..])
  {
  }

  lemma StripAppend(xs: seq<Example>, ys: seq<Example>)
    ensures Strip(xs + ys) == Strip(xs) + Strip(ys)
  {
  }

  lemma {:induction false} StripFilter(xs: seq<Example>, p: Example -> bool)
    requires Blind(p)
    ensures Strip(Filter(xs, p)) == Filter(Strip(xs), p)
  {
    hide Strip;
    if xs == [] {
      assert Strip([]) == [] by {
        StripNothing();
      }
    } else {
      StripFirst(xs);
      StripFilter(xs[1..], p);
      if p(xs[0]) {
        StripFirst(Filter(xs, p));
      }
    }
  }

  lemma StripNothing()
    ensures Strip([]) == []
  {
  }

  lemma {:induction false} StripInsert(x: Example, xs: seq<Example>, key: Example -> Key)
    requires Blind(key)
    ensures Strip(Insert(x, xs, key)) == Insert(WithoutDepth(x), Strip(xs), key)
  {
    if xs != [] {
      StripFirst(xs);
      if Less(key(xs[0]), key(x)) {
        StripInsert(x, xs[1..], key);
        StripFirst(Insert(x, xs, key));
      } else {
        StripFirst([x] + xs);
      }
    }
  }

  lemma {:induction false} StripSort(xs: seq<Example>, key: Example -> Key)
    requires Blind(key)
    ensures Strip(SortBy(xs, key)) == SortBy(Strip(xs), key)
  {
    if xs != [] {
      StripFirst(xs);
      StripSort(xs[1..], key);
      StripInsert(xs[0], SortBy(xs[1..], key), key);
    }
  }

  lemma StripBest(xs: seq<Example>, key: Example -> Key, n: nat)
    requires Blind(key)
    ensures Strip(Best(xs, key, n)) == Best(Strip(xs), key, n)
  {
    hide SortBy;
    StripSort(xs, key);
  }

  lemma StripGroup(xs: seq<Example>, l: Label)
    ensures Strip(Group(xs, l)) == Group(Strip(xs), l) && |Group(Strip(xs), l)| == |Group(xs, l)|
  {
    StripFilter(xs, HasLabel(l));
  }

  lemma {:induction false} StripGather(xs: seq<Example>, labels: seq<Label>, q: Label -> int, key: Example -> Key)
    requires Blind(key)
    ensures Strip(Gather(xs, labels, q, key)) == Gather(Strip(xs), labels, q, key)
  {
    hide Strip, Group, Best;
    if labels == [] {
      StripNothing();
    } else {
      var n := |labels| - 1;
      StripGather(xs, labels[..n], q, key);
      StripGroup(xs, labels[n]);
      StripBest(Group(xs, labels[n]), key, if q(labels[n]) >= 0 then q(labels[n]) else 0);
      StripAppend(Gather(xs, labels[..n], q, key), Part(xs, labels[n], q, key));
    }
  }

  lemma {:induction false} StripLabels(xs: seq<Example>)
    ensures LabelsSeen(Strip(xs)) == LabelsSeen(xs)
  {
    if xs != [] {
      var n := |xs| - 1;
      StripLabels(xs[..n]);
      assert Strip(xs)[..n] == Strip(xs[..n]);
    }
  }

  lemma {:induction false} StripSmallest(xs: seq<Example>, labels: seq<Label>)
    requires labels != []
    ensures SmallestGroup(Strip(xs), labels) == SmallestGroup(xs, labels)
  {
    hide Strip, Group;
    var n := |labels| - 1;
    StripGroup(xs, labels[n]);
    if n > 0 {
      StripSmallest(xs, labels[..n]);
    }
  }

  lemma StripRequest(xs: seq<Example>, target: nat)
    ensures SeenRequest(Strip(xs), target) == SeenRequest(xs, target)
  {
    hide Group;
    StripLabels(xs);
    forall l ensures |Group(Strip(xs), l)| == |Group(xs, l)| {
      StripGroup(xs, l);
    }
    assert SeenRequest(Strip(xs), target).counts == SeenRequest(xs, target).counts;
  }

  lemma StripQuota(xs: seq<Example>, target: nat)
    ensures StratifiedQuota(Strip(xs), target) == StratifiedQuota(xs, target)
  {
    hide SeenRequest, LabelsSeen, Quota;
    StripRequest(xs, target);
    StripLabels(xs);
  }

  lemma KeyBlind(h: Hash, seed: int)
    ensures Blind(KeyOf(h, seed))
  {
  }

  /** Taking the depths away before or after sampling is the same: depths decide nothing about a sample. */
  lemma SampleIgnoresDepth(h: Hash, config: Config, xs: seq<Example>)
    requires Requested(config) != []
    ensures Strip(ListChoice(h, config, xs)) == ListChoice(h, config, Strip(xs))
  {
    hide Strip, SortBy, Gather, Best, StratifiedQuota, SmallestGroup, EqualQuota, LabelsSeen, Requested, KeyOf;
    var key := KeyOf(h, config.seed);
    KeyBlind(h, config.seed);
    StripLength(xs);
    StripSort(xs, key);
    match config.strategy
    case Random =>
      if config.maxExamples.Some? {
        StripBest(xs, key, config.maxExamples.value);
      }
    case Balanced =>
      var labels := Requested(config);
      StripSmallest(xs, labels);
      var q := BalancedQuota(xs, labels, config.maxExamples);
      StripGather(xs, labels, q, key);
      StripSort(Gather(xs, labels, q, key), key);
    case Stratified =>
      if config.maxExamples.Some? && config.maxExamples.value < |xs| {
        StripLabels(xs);
        StripQuota(xs, config.maxExamples.value);
        var q := StratifiedQuota(xs, config.maxExamples.value);
        StripGather(xs, LabelsSeen(xs), q, key);
        StripSort(Gather(xs, LabelsSeen(xs), q, key), key);
      }
  }

  lemma StripLength(xs: seq<Example>)
    ensures |Strip(xs)| == |xs|
  {
  }

  /** A sample is taken from the examples. */
  lemma SampledFrom(h: Hash, config: Config, xs: seq<Example>, x: Example)
    requires Requested(config) != [] && x in ListChoice(h, config, xs)
    ensures x in xs
  {
    hide SortBy, Gather, StratifiedQuota, EqualQuota, LabelsSeen, SmallestGroup, Requested;
    var key := KeyOf(h, config.seed);
    SortByMultiset(xs, key);
    match config.strategy
    case Random =>
    case Balanced =>
      var q := BalancedQuota(xs, Requested(config), config.maxExamples);
      SortByMultiset(Gather(xs, Requested(config), q, key), key);
      GatherWithin(xs, Requested(config), q, key, x);
    case Stratified =>
      if config.maxExamples.Some? && config.maxExamples.value < |xs| {
        var q := StratifiedQuota(xs, config.maxExamples.value);
        SortByMultiset(Gather(xs, LabelsSeen(xs), q, key), key);
        GatherWithin(xs, LabelsSeen(xs), q, key, x);
      }
  }

  // ---- A sample of one depth only ----

  ghost predicate HasId(xs: seq<Example>, id: string) {
    exists x :: x in xs && x.id == id
  }

  /** Depth 1 for the examples whose ids are in the sample, depth 0 for all others. */
  ghost function Marked(xs: seq<Example>, sample: seq<Example>): seq<Example> {
    seq(|xs|, i requires 0 <= i < |xs| => xs[i].(depth := Some(if HasId(sample, xs[i].id) then 1 else 0)))
  }

  lemma SameIds(xs: seq<Example>, ys: seq<Example>, id: string)
    requires Strip(xs) == Strip(ys) && HasId(xs, id)
    ensures HasId(ys, id)
  {
    var x :| x in xs && x.id == id;
    var i :| 0 <= i < |xs| && xs[i] == x;
    assert WithoutDepth(ys[i]) == Strip(xs)[i];
    assert ys[i] in ys;
  }

  /** Depths can be given to any examples with distinct ids so that the sample holds exactly the examples of
      one depth and none of the other: no strategy stratifies by depth. */
  lemma SampleOfOneDepth(h: Hash, config: Config, xs: seq<Example>) returns (ys: seq<Example>)
    requires Requested(config) != [] && DistinctExampleIds(xs)
    ensures Strip(ys) == Strip(xs)
    ensures forall y :: y in ys ==> y.depth == Some(0) || y.depth == Some(1)
    ensures forall y :: y in ListChoice(h, config, ys) <==> y in ys && y.depth == Some(1)
  {
    hide ListChoice, Requested, HasId;
    var sample := ListChoice(h, config, xs);
    ys := Marked(xs, sample);
    assert Strip(ys) == Strip(xs);
    SampleIgnoresDepth(h, config, xs);
    SampleIgnoresDepth(h, config, ys);
    var chosen := ListChoice(h, config, ys);
    forall y ensures y in chosen <==> y in ys && y.depth == Some(1) {
      if y in chosen {
        SampledFrom(h, config, ys, y);
        HasIdOf(chosen, y);
        SameIds(chosen, sample, y.id);
        MarkedAt(xs, sample, y);
      } else if y in ys && y.depth == Some(1) {
        MarkedAt(xs, sample, y);
        SameIds(sample, chosen, y.id);
        var z := ExampleOfId(chosen, y.id);
        SampledFrom(h, config, ys, z);
        OneOfAnId(xs, ys, y, z);
      }
    }
  }

  lemma HasIdOf(xs: seq<Example>, x: Example)
    requires x in xs
    ensures HasId(xs, x.id)
  {
  }

  lemma ExampleOfId(xs: seq<Example>, id: string) returns (x: Example)
    requires HasId(xs, id)
    ensures x in xs && x.id == id
  {
    x :| x in xs && x.id == id;
  }

  lemma MarkedAt(xs: seq<Example>, sample: seq<Example>, y: Example)
    requires y in Marked(xs, sample)
    ensures y.depth == Some(if HasId(sample, y.id) then 1 else 0)
  {
  }

  lemma OneOfAnId(xs: seq<Example>, ys: seq<Example>, y: Example, z: Example)
    requires DistinctExampleIds(xs) && Strip(xs) == Strip(ys) && y in ys && z in ys && y.id == z.id
    ensures y == z
  {
    var i :| 0 <= i < |ys| && ys[i] == y;
    var j :| 0 <= j < |ys| && ys[j] == z;
    assert Strip(xs)[i] == WithoutDepth(y) && Strip(xs)[j] == WithoutDepth(z);
    assert |Strip(xs)| == |xs|;
    assert xs[i].id == xs[j].id;
    assert !(i < j) && !(j < i);
  }
}
