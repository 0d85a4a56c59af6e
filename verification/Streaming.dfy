/** The streaming version of the sampler and its agreement with sorting everything
    (backend/src/verilogic_ns_api/datasets/sampling.py). */
module Streaming {
  import opened Logic
  import opened Keys
  import opened StableSort
  import opened Apportionment
  import opened Sampling
  import opened SampleContents

  // ---- Retaining the best ----

  /** `_retain_best`: the list holds the `capacity` first examples of everything seen. */
  method RetainBest(candidates: seq<Example>, example: Example, capacity: nat, h: Hash, seed: int,
                    ghost seen: seq<Example>)
    returns (retained: seq<Example>)
    requires candidates == Best(seen, KeyOf(h, seed), capacity)
    ensures retained == Best(seen + [example], KeyOf(h, seed), capacity)
  {
    hide SortBy;
    var key := KeyOf(h, seed);
    BestStep(seen, example, key, capacity);
    SortByMultiset(seen, key);
    retained := SortBy(candidates + [example], key);
    SortByMultiset(candidates + [example], key);
    if |retained| > capacity {
      retained := retained[..|retained| - 1];
    }
  }

  /** The streaming loops over groups: labels and sizes in order of appearance, and for each label
      with a capacity its first examples. */
  method StreamGroups(h: Hash, seed: int, xs: seq<Example>, capacities: map<Label, nat>)
    returns (order: seq<Label>, available: map<Label, nat>, groups: map<Label, seq<Example>>)
    ensures order == LabelsSeen(xs) && forall l :: l in order <==> l in available
    ensures forall l :: |Group(xs, l)| == if l in available then available[l] else 0
    ensures forall l :: l in capacities ==>
              Best(Group(xs, l), KeyOf(h, seed), capacities[l]) == if l in groups then groups[l] else []
  {
    hide SortBy, Group;
    order, available, groups := [], map[], map[];
    NothingSeen(h, seed, capacities);
    for n := 0 to |xs|
      invariant Streamed(h, seed, xs[..n], capacities, order, available, groups)
    {
      assert xs[..n + 1] == xs[..n] + [xs[n]];
      StreamedFacts(h, seed, xs[..n], capacities, order, available, groups);
      var x := xs[n];
      var order', available', groups' := order, available, groups;
      if x.goldLabel in available {
        available' := available[x.goldLabel := available[x.goldLabel] + 1];
      } else {
        order' := order + [x.goldLabel];
        available' := available[x.goldLabel := 1];
      }
      if x.goldLabel in capacities {
        var group := if x.goldLabel in groups then groups[x.goldLabel] else [];
        var retained := RetainBest(group, x, capacities[x.goldLabel], h, seed, Group(xs[..n], x.goldLabel));
        groups' := groups[x.goldLabel := retained];
      }
      StreamedNext(h, seed, xs[..n], x, capacities, order, available, groups, order', available', groups');
      order, available, groups := order', available', groups';
    }
    assert xs[..|xs|] == xs;
  }

  ghost predicate Streamed(h: Hash, seed: int, seen: seq<Example>, capacities: map<Label, nat>, order: seq<Label>,
                           available: map<Label, nat>, groups: map<Label, seq<Example>>)
  {
    && order == LabelsSeen(seen) && (forall l :: l in order <==> l in available)
    && (forall l :: |Group(seen, l)| == if l in available then available[l] else 0)
    && (forall l :: l in capacities ==>
          Best(Group(seen, l), KeyOf(h, seed), capacities[l]) == if l in groups then groups[l] else [])
  }

  lemma NothingSeen(h: Hash, seed: int, capacities: map<Label, nat>)
    ensures Streamed(h, seed, [], capacities, [], map[], map[])
  {
  }

  lemma StreamedFacts(h: Hash, seed: int, seen: seq<Example>, capacities: map<Label, nat>, order: seq<Label>,
                      available: map<Label, nat>, groups: map<Label, seq<Example>>)
    requires Streamed(h, seed, seen, capacities, order, available, groups)
    ensures forall l :: l in order <==> l in available
    ensures forall l :: l in capacities ==>
              Best(Group(seen, l), KeyOf(h, seed), capacities[l]) == if l in groups then groups[l] else []
  {
  }

  lemma StreamedNext(h: Hash, seed: int, seen: seq<Example>, x: Example, capacities: map<Label, nat>,
                     order: seq<Label>, available: map<Label, nat>, groups: map<Label, seq<Example>>,
                     order': seq<Label>, available': map<Label, nat>, groups': map<Label, seq<Example>>)
    requires Streamed(h, seed, seen, capacities, order, available, groups)
    requires order' == if x.goldLabel in order then order else order + [x.goldLabel]
    requires available' == available[x.goldLabel := if x.goldLabel in available then available[x.goldLabel] + 1 else 1]
    requires x.goldLabel !in capacities ==> groups' == groups
    requires x.goldLabel in capacities ==>
               groups' == groups[x.goldLabel := Best(Group(seen, x.goldLabel) + [x], KeyOf(h, seed),
                 capacities[x.goldLabel])]
    ensures Streamed(h, seed, seen + [x], capacities, order', available', groups')
  {
    hide Group, Best;
    assert (seen + [x])[..|seen|] == seen;
    forall l
      ensures x.goldLabel == l ==> Group(seen + [x], l) == Group(seen, l) + [x]
      ensures x.goldLabel != l ==> Group(seen + [x], l) == Group(seen, l)
    {
      GroupSnoc(seen, x, l);
    }
  }

  // ---- The streaming sampler ----

  /** The three loops that join the retained groups: `groups[label][:quota]` for each label. */
  method JoinGroups(h: Hash, seed: int, groups: map<Label, seq<Example>>, labels: seq<Label>,
                    quotas: map<Label, nat>, ghost xs: seq<Example>, ghost capacities: map<Label, nat>,
                    ghost q: Label -> int)
    returns (selected: seq<Example>)
    requires forall l :: l in labels ==>
        l in quotas && quotas[l] == q(l) && l in capacities && quotas[l] <= capacities[l]
    requires forall l :: l in capacities ==>
               Best(Group(xs, l), KeyOf(h, seed), capacities[l]) == if l in groups then groups[l] else []
    ensures selected == SortBy(Gather(xs, labels, q, KeyOf(h, seed)), KeyOf(h, seed))
  {
    hide Group, SortBy;
    selected := [];
    for n := 0 to |labels|
      invariant selected == Gather(xs, labels[..n], q, KeyOf(h, seed))
    {
      assert labels[..n + 1][..n] == labels[..n];
      var group := if labels[n] in groups then groups[labels[n]] else [];
      PrefixOfPrefix(SortBy(Group(xs, labels[n]), KeyOf(h, seed)), capacities[labels[n]], quotas[labels[n]]);
      selected := selected + Prefix(group, quotas[labels[n]]);
    }
    assert labels[..|labels|] == labels;
    selected := SortBy(selected, KeyOf(h, seed));
  }

  lemma PrefixOfPrefix<T>(xs: seq<T>, n: nat, m: nat)
    requires m <= n
    ensures Prefix(Prefix(xs, n), m) == Prefix(xs, m)
  {
  }

  method StreamRandom(h: Hash, config: Config, target: nat, xs: seq<Example>)
    returns (r: Result<seq<Example>, SamplingError>)
    requires ValidConfig(config) && config.strategy.Random? && config.maxExamples == Some(target)
    ensures Requested(config) != [] && (r.Ok? <==> Feasible(config, xs))
    ensures r.Ok? ==> r.value == StreamChoice(h, config, xs)
    ensures r.Err? ==> r.error == NoExamples
  {
    hide SortBy;
    RequestedLabels(config);
    var selected: seq<Example> := [];
    assert Best([], KeyOf(h, config.seed), target) == [] by {
      SortByMultiset<Example>([], KeyOf(h, config.seed));
    }
    for n := 0 to |xs|
      invariant selected == Best(xs[..n], KeyOf(h, config.seed), target)
    {
      assert xs[..n + 1] == xs[..n] + [xs[n]];
      selected := RetainBest(selected, xs[n], target, h, config.seed, xs[..n]);
    }
    assert xs[..|xs|] == xs;
    if |xs| == 0 {
      return Err(NoExamples);
    }
    return Ok(selected);
  }

  method StreamBalanced(h: Hash, config: Config, target: nat, xs: seq<Example>)
    returns (r: Result<seq<Example>, SamplingError>)
    requires ValidConfig(config) && config.strategy.Balanced? && config.maxExamples == Some(target)
    ensures Requested(config) != [] && (r.Ok? <==> Feasible(config, xs))
    ensures r.Ok? ==> r.value == StreamChoice(h, config, xs)
    ensures StreamError(config, xs) == if r.Ok? then None else Some(r.error)
  {
    hide Group, SortBy, EqualQuota, Gather, Best;
    RequestedLabels(config);
    var labels := Requested(config);
    if target < |labels| {
      return Err(SampleTooSmall);
    }
    var quotas := SplitEvenly(labels, target);
    var _, available, groups := StreamGroups(h, config.seed, xs, quotas);
    var absent := exists i :: 0 <= i < |labels| && (labels[i] !in available || available[labels[i]] == 0);
    assert absent <==> Missing(xs, labels);
    if absent {
      return Err(MissingLabels);
    }
    NotMissing(xs, labels);
    ghost var q := BalancedQuota(xs, labels, config.maxExamples);
    var impossible := exists i ::
      0 <= i < |labels| && labels[i] in available && labels[i] in quotas
      && quotas[labels[i]] > available[labels[i]];
    StreamOverdrawnIff(xs, labels, available, quotas, q);
    if impossible {
      return Err(GroupsTooSmall);
    }
    var selected := JoinGroups(h, config.seed, groups, labels, quotas, xs, quotas, q);
    return Ok(selected);
  }

  lemma StreamOverdrawnIff(xs: seq<Example>, labels: seq<Label>, available: map<Label, nat>, quotas: map<Label, nat>,
                           q: Label -> int)
    requires forall l :: |Group(xs, l)| == if l in available then available[l] else 0
    requires forall l :: l in labels ==> l in available && l in quotas && quotas[l] == q(l)
    ensures Overdrawn(xs, labels, q) <==>
              exists i :: 0 <= i < |labels| && labels[i] in available && labels[i] in quotas
                && quotas[labels[i]] > available[labels[i]]
  {
    hide Group;
    if Overdrawn(xs, labels, q) {
      var l :| l in labels && q(l) > |Group(xs, l)|;
      var i :| 0 <= i < |labels| && labels[i] == l;
    }
  }

  function Everywhere(n: nat): map<Label, nat> {
    map[Entailed := n, Contradicted := n, Unknown := n]
  }

  lemma EverywhereAll(n: nat)
    ensures forall l :: l in Everywhere(n) && Everywhere(n)[l] == n
  {
    forall l ensures l in Everywhere(n) && Everywhere(n)[l] == n {
      match l
      case Entailed =>
      case Contradicted =>
      case Unknown =>
    }
  }

  function SizesOf(available: map<Label, nat>): Label -> int {
    l => if l in available then available[l] else 0
  }

  lemma AvailableTotal(xs: seq<Example>, available: map<Label, nat>)
    requires forall l :: |Group(xs, l)| == if l in available then available[l] else 0
    ensures Sum(LabelsSeen(xs), SizesOf(available)) == |xs|
  {
    hide Group, LabelsSeen, Sum;
    LabelsSeenExact(xs);
    GroupSizesSum(xs, LabelsSeen(xs));
    SumSame(LabelsSeen(xs), GroupSize(xs), SizesOf(available));
  }

  lemma {:induction false} TermBelowSum(labels: seq<Label>, f: Label -> int, l: Label)
    requires l in labels && forall m :: m in labels ==> f(m) >= 0
    ensures f(l) <= Sum(labels, f)
  {
    var n := |labels| - 1;
    if l in labels[..n] {
      TermBelowSum(labels[..n], f, l);
    } else {
      SumNonNegative(labels[..n], f);
    }
  }

  lemma {:induction false} SumNonNegative(labels: seq<Label>, f: Label -> int)
    requires forall m :: m in labels ==> f(m) >= 0
    ensures Sum(labels, f) >= 0
  {
    if labels != [] {
      SumNonNegative(labels[..|labels| - 1], f);
    }
  }

  lemma QuotasBelowTarget(xs: seq<Example>, target: nat)
    requires target < |xs|
    ensures forall l :: l in LabelsSeen(xs) ==> StratifiedQuota(xs, target)(l) <= target
  {
    hide LabelsSeen, Quota, Sum;
    var r, labels := SeenRequest(xs, target), LabelsSeen(xs);
    SeenRequestProper(xs, target);
    QuotasSumToTarget(r, labels);
    forall l | l in labels ensures Quota(r, labels)(l) >= 0 {
      QuotaIsRounding(r, labels, l);
    }
    forall l | l in labels ensures StratifiedQuota(xs, target)(l) <= target {
      TermBelowSum(labels, Quota(r, labels), l);
    }
  }

  lemma BestOfAll(xs: seq<Example>, key: Example -> Key, n: nat)
    requires n >= |xs|
    ensures Best(xs, key, n) == SortBy(xs, key)
  {
    SortByMultiset(xs, key);
  }

  /** Joining sorted groups and joining the groups themselves sort to the same sequence. */
  lemma {:induction false} GatherAllClasses(xs: seq<Example>, labels: seq<Label>, target: nat, key: Example -> Key,
                                            k: Key)
    requires target >= |xs|
    ensures Filter(Gather(xs, labels, Constant(target), key), HasKey(key, k)) ==
        Filter(ConcatGroups(xs, labels), HasKey(key, k))
  {
    hide SortBy;
    if labels != [] {
      var n := |labels| - 1;
      var group := Group(xs, labels[n]);
      GatherAllClasses(xs, labels[..n], target, key, k);
      FilterExact(xs, HasLabel(labels[n]));
      BestOfAll(group, key, target);
      SortByStable(group, key, k);
      FilterAppend(Gather(xs, labels[..n], Constant(target), key), Part(xs, labels[n], Constant(target), key),
        HasKey(key, k));
      FilterAppend(ConcatGroups(xs, labels[..n]), group, HasKey(key, k));
    }
  }

  lemma JoinedGroups(xs: seq<Example>, target: nat, key: Example -> Key)
    requires target >= |xs|
    ensures SortBy(Gather(xs, LabelsSeen(xs), Constant(target), key), key) ==
        SortBy(ConcatGroups(xs, LabelsSeen(xs)), key)
  {
    hide Gather, ConcatGroups, LabelsSeen, SortBy;
    forall k {
      GatherAllClasses(xs, LabelsSeen(xs), target, key, k);
    }
    SortByAgree(Gather(xs, LabelsSeen(xs), Constant(target), key), ConcatGroups(xs, LabelsSeen(xs)), key);
  }

  method StreamStratified(h: Hash, config: Config, target: nat, xs: seq<Example>)
    returns (r: Result<seq<Example>, SamplingError>)
    requires ValidConfig(config) && config.strategy.Stratified? && config.maxExamples == Some(target)
    ensures Requested(config) != [] && (r.Ok? <==> Feasible(config, xs))
    ensures r.Ok? ==> r.value == StreamChoice(h, config, xs)
    ensures r.Err? ==> r.error == NoExamples
  {
    hide Group, SortBy, Gather, LabelsSeen, Quota, Best, Sum, ConcatGroups;
    RequestedLabels(config);
    EverywhereAll(target);
    var order, available, groups := StreamGroups(h, config.seed, xs, Everywhere(target));
    AvailableTotal(xs, available);
    var count := Sum(order, SizesOf(available));
    if count == 0 {
      return Err(NoExamples);
    }
    if target >= count {
      var everything := JoinGroups(h, config.seed, groups, order, Everywhere(target), xs, Everywhere(target),
        Constant(target));
      JoinedGroups(xs, target, KeyOf(h, config.seed));
      return Ok(everything);
    }
    var request := Request(available, count, target);
    SeenRequestProper(xs, target);
    assert request.counts == SeenRequest(xs, target).counts;
    var quotas := Apportion(request, order);
    if quotas.None? {
      return Err(Unallocatable);
    }
    QuotasBelowTarget(xs, target);
    var selected := JoinGroups(h, config.seed, groups, order, quotas.value, xs, Everywhere(target),
      StratifiedQuota(xs, target));
    return Ok(selected);
  }

  /** `_bounded_sample`. */
  method BoundedSample(h: Hash, config: Config, target: nat, xs: seq<Example>)
    returns (r: Result<seq<Example>, SamplingError>)
    requires ValidConfig(config) && config.maxExamples == Some(target)
    ensures Requested(config) != [] && (r.Ok? <==> Feasible(config, xs))
    ensures r.Ok? ==> r.value == StreamChoice(h, config, xs)
    ensures r.Err? ==>
        if config.strategy.Balanced? then StreamError(config, xs) == Some(r.error) else r.error == NoExamples
  {
    hide Feasible, StreamChoice, StreamError;
    match config.strategy
    case Random => r := StreamRandom(h, config, target, xs);
    case Balanced => r := StreamBalanced(h, config, target, xs);
    case Stratified => r := StreamStratified(h, config, target, xs);
  }

  function Eligible(config: Config): Example -> bool {
    (e: Example) =>
      && e.split in config.allowedSplits
      && (config.labels.None? || config.labels.value == [] || e.goldLabel in config.labels.value)
      && (config.depths.None? || config.depths.value == [] || (e.depth.Some? && e.depth.value in config.depths.value))
  }

  /** The example is of an allowed split, of a requested label when labels are requested, and of a requested depth
      when depths are. */
  ghost predicate Wanted(config: Config, e: Example) {
    && e.split in config.allowedSplits
    && (config.labels.Some? && config.labels.value != [] ==> e.goldLabel in config.labels.value)
    && (config.depths.Some? && config.depths.value != [] ==> e.depth.Some? && e.depth.value in config.depths.value)
  }

  /** How often an example of the stream may be sampled. */
  ghost function Supply(config: Config, examples: seq<Example>, e: Example): nat {
    if Wanted(config, e) then multiset(examples)[e] else 0
  }

  lemma EligibleSupply(config: Config, examples: seq<Example>, e: Example)
    ensures multiset(Filter(examples, Eligible(config)))[e] == Supply(config, examples, e)
  {
    FilterCount(examples, Eligible(config), e);
  }

  /** The outcome of a selection among the eligible examples, in terms of the stream. */
  lemma OutcomeMeans(h: Hash, config: Config, examples: seq<Example>, sample: seq<Example>)
    requires ValidConfig(config) && Requested(config) != []
    requires var xs := Filter(examples, Eligible(config));
             sample == if config.maxExamples.Some? then StreamChoice(h, config, xs) else ListChoice(h, config, xs)
    ensures forall e :: multiset(sample)[e] <= Supply(config, examples, e)
    ensures config.maxExamples.None? && !config.strategy.Balanced? ==>
              forall e :: multiset(sample)[e] == Supply(config, examples, e)
  {
    hide StreamChoice, ListChoice, Filter, Supply, ComesFirst, Requested;
    var xs := Filter(examples, Eligible(config));
    forall e ensures multiset(sample)[e] <= Supply(config, examples, e) {
      EligibleSupply(config, examples, e);
      StreamTakesFirst(h, config, xs, e);
      SampleTakesFirst(h, config, xs, e);
    }
    if config.maxExamples.None? && !config.strategy.Balanced? {
      EverythingTaken(h, config, xs);
      forall e ensures multiset(sample)[e] == Supply(config, examples, e) {
        EligibleSupply(config, examples, e);
      }
    }
  }

  lemma SampleWanted(h: Hash, config: Config, examples: seq<Example>, sample: seq<Example>)
    requires ValidConfig(config) && Requested(config) != []
    requires var xs := Filter(examples, Eligible(config));
             sample == if config.maxExamples.Some? then StreamChoice(h, config, xs) else ListChoice(h, config, xs)
    ensures forall e :: multiset(sample)[e] <= Supply(config, examples, e)
    ensures forall e :: e in sample ==> e in examples && Wanted(config, e)
    ensures config.maxExamples.None? && !config.strategy.Balanced? ==>
              forall e :: multiset(sample)[e] == Supply(config, examples, e)
  {
    hide StreamChoice, ListChoice, Filter, Wanted, Requested;
    OutcomeMeans(h, config, examples, sample);
    forall e | e in sample ensures e in examples && Wanted(config, e) {
      assert multiset(sample)[e] > 0;
      assert multiset(examples)[e] > 0;
    }
  }

  lemma NothingEligible(config: Config, examples: seq<Example>)
    ensures Filter(examples, Eligible(config)) == [] <==> forall e :: e in examples ==> !Wanted(config, e)
  {
    FilterExact(examples, Eligible(config));
    var xs := Filter(examples, Eligible(config));
    if xs != [] {
      assert xs[0] in xs;
      assert xs[0] in examples && Wanted(config, xs[0]);
    }
    if e :| e in examples && Wanted(config, e) {
      assert e in xs;
    }
  }

  /** The error that a selection among the eligible examples reports when it is not feasible. */
  ghost function SelectionError(config: Config, xs: seq<Example>): Option<SamplingError>
    requires ValidConfig(config) && Requested(config) != []
  {
    if !config.strategy.Balanced? then (if xs == [] then Some(NoExamples) else None)
    else if config.maxExamples.Some? then StreamError(config, xs)
    else if xs == [] then Some(NoExamples)
    else ListError(config, xs)
  }

  /** `sample_examples`. */
  method SampleExamples(h: Hash, config: Config, examples: seq<Example>)
    returns (r: Result<seq<Example>, SamplingError>)
    requires ValidConfig(config)
    ensures Requested(config) != []
    ensures r == Err(TestNotAllowed) <==> Test in config.allowedSplits && !config.allowTest
    ensures r != Err(TestNotAllowed) ==>
              var xs := Filter(examples, Eligible(config));
              && (r.Ok? <==> Feasible(config, xs))
              && (r.Err? ==> SelectionError(config, xs) == Some(r.error))
    ensures r.Ok? && config.maxExamples.Some? ==>
              r.value == StreamChoice(h, config, Filter(examples, Eligible(config)))
    ensures r.Ok? && config.maxExamples.None? ==>
              r.value == ListChoice(h, config, Filter(examples, Eligible(config)))
    ensures r.Ok? ==> forall e :: e in r.value ==> e in examples && Wanted(config, e)
    ensures r.Ok? ==> forall e :: multiset(r.value)[e] <= Supply(config, examples, e)
    ensures r.Ok? && config.maxExamples.None? && !config.strategy.Balanced? ==>
              forall e :: multiset(r.value)[e] == Supply(config, examples, e)
    ensures !config.strategy.Balanced? && r != Err(TestNotAllowed) ==>
              (r == Err(NoExamples) <==> forall e :: e in examples ==> !Wanted(config, e))
  {
    hide StreamChoice, SortBy, Gather;
    RequestedLabels(config);
    NothingEligible(config, examples);
    if Test in config.allowedSplits && !config.allowTest {
      return Err(TestNotAllowed);
    }
    var eligible := Filter(examples, Eligible(config));
    if config.maxExamples.Some? {
      r := BoundedSample(h, config, config.maxExamples.value, eligible);
      if r.Ok? {
        SampleWanted(h, config, examples, r.value);
      }
      return;
    }
    if eligible == [] {
      return Err(NoExamples);
    }
    if config.strategy.Balanced? {
      r := BalancedSample(h, config, eligible);
    } else if config.strategy.Stratified? {
      r := StratifiedSample(h, config, eligible);
    } else {
      SortByMultiset(eligible, KeyOf(h, config.seed));
      r := Ok(Best(eligible, KeyOf(h, config.seed), |eligible|));
    }
    if r.Ok? {
      SampleWanted(h, config, examples, r.value);
    }
  }
}
