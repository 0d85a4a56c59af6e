/** Deterministic sampling of labelled examples (backend/src/verilogic_ns_api/datasets/sampling.py):
    the versions that sort everything and cut, and the bounded-memory streaming version. */
module Sampling {
  import opened Logic
  import opened Keys
  import opened StableSort
  import opened Apportionment

  datatype Split = Train | Development | Test
  datatype Strategy = Random | Balanced | Stratified

  datatype Example = Example(id: string, goldLabel: Label, split: Split, depth: Option<nat>, content: string)

  datatype Config = Config(seed: int, maxExamples: Option<nat>, allowedSplits: seq<Split>, allowTest: bool,
                           labels: Option<seq<Label>>, depths: Option<seq<nat>>, strategy: Strategy)

  datatype SamplingError = TestNotAllowed | NoExamples | MissingLabels | SampleTooSmall | GroupsTooSmall | Unallocatable

  /** The hexadecimal digest of `seed:id`. */
  type Hash = (int, string) -> string

  const ALL_LABELS: seq<Label> := [Entailed, Contradicted, Unknown]

  /** `config.labels or list(GoldLabel)`. */
  function Requested(config: Config): seq<Label> {
    if config.labels.Some? && config.labels.value != [] then config.labels.value else ALL_LABELS
  }

  /** What the configuration model enforces. */
  ghost predicate ValidConfig(config: Config) {
    && (config.maxExamples.Some? ==> config.maxExamples.value > 0)
    && (config.labels.Some? ==> NoDuplicates(config.labels.value))
    && config.allowedSplits != []
  }

  lemma RequestedLabels(config: Config)
    requires ValidConfig(config)
    ensures NoDuplicates(Requested(config)) && Requested(config) != []
  {
  }

  /** `_order_key`. */
  function KeyOf(h: Hash, seed: int): Example -> Key {
    (e: Example) => Pair(Str(h(seed, e.id)), Pair(Str(e.id), Nil))
  }

  lemma KeyIffId(h: Hash, seed: int, a: Example, b: Example)
    ensures KeyOf(h, seed)(a) == KeyOf(h, seed)(b) <==> a.id == b.id
  {
  }

  // ---- Groups ----

  function HasLabel(l: Label): Example -> bool {
    (e: Example) => e.goldLabel == l
  }

  function Group(xs: seq<Example>, l: Label): seq<Example> {
    Filter(xs, HasLabel(l))
  }

  function GroupSize(xs: seq<Example>): Label -> int {
    l => |Group(xs, l)|
  }

  /** The labels in the order in which they first appear. */
  function LabelsSeen(xs: seq<Example>): seq<Label> {
    if xs == [] then []
    else
      var before, l := LabelsSeen(xs[..|xs| - 1]), xs[|xs| - 1].goldLabel;
      if l in before then before else before + [l]
  }

  /** The place of the first example with the label. */
  function FirstSeen(xs: seq<Example>, l: Label): nat {
    if xs == [] || xs[0].goldLabel == l then 0 else 1 + FirstSeen(xs[1..], l)
  }

  lemma GroupSnoc(xs: seq<Example>, x: Example, l: Label)
    ensures Group(xs + [x], l) == Group(xs, l) + if x.goldLabel == l then [x] else []
  {
    FilterAppend(xs, [x], HasLabel(l));
    assert [x][1..] == [];
  }

  lemma {:induction false} LabelsSeenExact(xs: seq<Example>)
    ensures NoDuplicates(LabelsSeen(xs))
    ensures forall l :: l in LabelsSeen(xs) <==> Group(xs, l) != []
  {
    if xs != [] {
      var n := |xs| - 1;
      LabelsSeenExact(xs[..n]);
      assert xs == xs[..n] + [xs[n]];
      forall l ensures l in LabelsSeen(xs) <==> Group(xs, l) != [] {
        GroupSnoc(xs[..n], xs[n], l);
      }
    }
  }

  lemma {:induction false} SumBump(labels: seq<Label>, f: Label -> int, g: Label -> int, m: Label)
    requires NoDuplicates(labels) && forall l :: g(l) == f(l) + if l == m then 1 else 0
    ensures Sum(labels, g) == Sum(labels, f) + if m in labels then 1 else 0
  {
    if labels != [] {
      var n := |labels| - 1;
      SumBump(labels[..n], f, g, m);
      assert labels == labels[..n] + [labels[n]];
    }
  }

  /** The groups share out all the examples. */
  lemma {:induction false} GroupSizesSum(xs: seq<Example>, labels: seq<Label>)
    requires NoDuplicates(labels) && forall l :: Group(xs, l) != [] ==> l in labels
    ensures Sum(labels, GroupSize(xs)) == |xs|
  {
    if xs == [] {
      forall l | l in labels ensures 0 <= GroupSize(xs)(l) <= 0 {
      }
      SumBounds(labels, GroupSize(xs), 0, 0);
    } else {
      var n := |xs| - 1;
      assert xs == xs[..n] + [xs[n]];
      forall l ensures Group(xs, l) == Group(xs[..n], l) + if xs[n].goldLabel == l then [xs[n]] else [] {
        GroupSnoc(xs[..n], xs[n], l);
      }
      GroupSizesSum(xs[..n], labels);
      SumBump(labels, GroupSize(xs[..n]), GroupSize(xs), xs[n].goldLabel);
      assert Group(xs, xs[n].goldLabel) != [];
    }
  }

  // ---- What is selected ----

  /** The first `q(l)` examples of each group, group by group. */
  function Gather(xs: seq<Example>, labels: seq<Label>, q: Label -> int, key: Example -> Key): seq<Example> {
    if labels == [] then []
    else
      var n := |labels| - 1;
      Gather(xs, labels[..n], q, key) + Part(xs, labels[n], q, key)
  }

  function Part(xs: seq<Example>, l: Label, q: Label -> int, key: Example -> Key): seq<Example> {
    Best(Group(xs, l), key, if q(l) >= 0 then q(l) else 0)
  }

  function ConcatGroups(xs: seq<Example>, labels: seq<Label>): seq<Example> {
    if labels == [] then []
    else
      var n := |labels| - 1;
      ConcatGroups(xs, labels[..n]) + Group(xs, labels[n])
  }

  function IndexOf(labels: seq<Label>, l: Label): nat {
    if labels == [] || labels[0] == l then 0 else 1 + IndexOf(labels[1..], l)
  }

  lemma {:induction false} IndexOfAt(labels: seq<Label>, i: nat)
    requires NoDuplicates(labels) && i < |labels|
    ensures IndexOf(labels, labels[i]) == i
  {
    if i > 0 {
      IndexOfAt(labels[1..], i - 1);
    }
  }

  /** The target in equal parts, the first labels taking one more when it does not divide. */
  function EqualQuota(labels: seq<Label>, target: nat): Label -> int {
    l => if labels == [] then 0
         else target / |labels| + if IndexOf(labels, l) < target % |labels| then 1 else 0
  }

  /** `min(len(groups[label]) for label in labels)`. */
  function SmallestGroup(xs: seq<Example>, labels: seq<Label>): nat
    requires labels != []
  {
    var n := |labels| - 1;
    var last := |Group(xs, labels[n])|;
    if n == 0 then last
    else
      var before := SmallestGroup(xs, labels[..n]);
      if last < before then last else before
  }

  function Constant(n: int): Label -> int {
    l => n
  }

  function BalancedQuota(xs: seq<Example>, labels: seq<Label>, maxExamples: Option<nat>): Label -> int
    requires labels != []
  {
    if maxExamples.Some? then EqualQuota(labels, maxExamples.value) else Constant(SmallestGroup(xs, labels))
  }

  function SeenRequest(xs: seq<Example>, target: nat): Request {
    Request(map l | l in LabelsSeen(xs) :: |Group(xs, l)|, |xs|, target)
  }

  lemma {:induction false} SumSame(labels: seq<Label>, f: Label -> int, g: Label -> int)
    requires forall l :: l in labels ==> f(l) == g(l)
    ensures Sum(labels, f) == Sum(labels, g)
  {
    if labels != [] {
      SumSame(labels[..|labels| - 1], f, g);
    }
  }

  /** The stratified branch always meets the conditions of the apportionment. */
  lemma SeenRequestProper(xs: seq<Example>, target: nat)
    requires target < |xs|
    ensures Proper(SeenRequest(xs, target), LabelsSeen(xs))
  {
    hide LabelsSeen, Group;
    LabelsSeenExact(xs);
    GroupSizesSum(xs, LabelsSeen(xs));
    SumSame(LabelsSeen(xs), GroupSize(xs), Count(SeenRequest(xs, target)));
  }

  function StratifiedQuota(xs: seq<Example>, target: nat): Label -> int {
    Quota(SeenRequest(xs, target), LabelsSeen(xs))
  }

  /** What sorting everything and cutting selects. */
  function ListChoice(h: Hash, config: Config, xs: seq<Example>): seq<Example>
    requires Requested(config) != []
  {
    var key := KeyOf(h, config.seed);
    match config.strategy
    case Random => if config.maxExamples.Some? then Best(xs, key, config.maxExamples.value) else SortBy(xs, key)
    case Balanced =>
      SortBy(Gather(xs, Requested(config), BalancedQuota(xs, Requested(config), config.maxExamples), key), key)
    case Stratified =>
      if config.maxExamples.Some? && config.maxExamples.value < |xs|
      then SortBy(Gather(xs, LabelsSeen(xs), StratifiedQuota(xs, config.maxExamples.value), key), key)
      else SortBy(xs, key)
  }

  /** What the streaming version selects: the same, except that a stratified sample of everything is
      sorted after the groups have been joined. */
  function StreamChoice(h: Hash, config: Config, xs: seq<Example>): seq<Example>
    requires Requested(config) != []
  {
    if config.strategy.Stratified? && config.maxExamples.Some? && config.maxExamples.value >= |xs|
    then SortBy(ConcatGroups(xs, LabelsSeen(xs)), KeyOf(h, config.seed))
    else ListChoice(h, config, xs)
  }

  ghost predicate Missing(xs: seq<Example>, labels: seq<Label>) {
    exists l :: l in labels && Group(xs, l) == []
  }

  ghost predicate Overdrawn(xs: seq<Example>, labels: seq<Label>, q: Label -> int) {
    exists l :: l in labels && q(l) > |Group(xs, l)|
  }

  /** The error of a balanced selection from the full list: missing labels are noticed first. */
  ghost function ListError(config: Config, xs: seq<Example>): Option<SamplingError>
    requires Requested(config) != []
  {
    var labels := Requested(config);
    if Missing(xs, labels) then Some(MissingLabels)
    else if config.maxExamples.Some? && config.maxExamples.value < |labels| then Some(SampleTooSmall)
    else if Overdrawn(xs, labels, BalancedQuota(xs, labels, config.maxExamples)) then Some(GroupsTooSmall)
    else None
  }

  /** The error of a balanced selection from a stream: a target that is too small is noticed first. */
  ghost function StreamError(config: Config, xs: seq<Example>): Option<SamplingError>
    requires Requested(config) != []
  {
    var labels := Requested(config);
    if config.maxExamples.Some? && config.maxExamples.value < |labels| then Some(SampleTooSmall)
    else if Missing(xs, labels) then Some(MissingLabels)
    else if Overdrawn(xs, labels, BalancedQuota(xs, labels, config.maxExamples)) then Some(GroupsTooSmall)
    else None
  }

  /** When a selection is possible. */
  ghost predicate Feasible(config: Config, xs: seq<Example>)
    requires Requested(config) != []
  {
    && xs != []
    && (config.strategy.Balanced? ==>
          && !Missing(xs, Requested(config))
          && (config.maxExamples.Some? ==> |Requested(config)| <= config.maxExamples.value)
          && !Overdrawn(xs, Requested(config), BalancedQuota(xs, Requested(config), config.maxExamples)))
  }

  // ---- The methods that sort everything ----

  /** The grouping loop: labels in order of appearance, examples in stream order. */
  method GroupExamples(xs: seq<Example>) returns (order: seq<Label>, groups: map<Label, seq<Example>>)
    ensures order == LabelsSeen(xs) && forall l :: l in order <==> l in groups
    ensures forall l :: Group(xs, l) == if l in groups then groups[l] else []
  {
    hide Group, LabelsSeen;
    order, groups := [], map[];
    NothingGrouped();
    for n := 0 to |xs|
      invariant GroupedSoFar(xs[..n], order, groups)
    {
      var x := xs[n];
      assert xs[..n + 1] == xs[..n] + [x];
      GroupedNext(xs[..n], x, order, groups);
      if x.goldLabel in groups {
        groups := groups[x.goldLabel := groups[x.goldLabel] + [x]];
      } else {
        order := order + [x.goldLabel];
        groups := groups[x.goldLabel := [x]];
      }
    }
    assert xs[..|xs|] == xs;
  }

  ghost predicate GroupedSoFar(xs: seq<Example>, order: seq<Label>, groups: map<Label, seq<Example>>) {
    && order == LabelsSeen(xs) && (forall l :: l in order <==> l in groups)
    && forall l :: Group(xs, l) == if l in groups then groups[l] else []
  }

  lemma NothingGrouped()
    ensures GroupedSoFar([], [], map[])
  {
  }

  lemma GroupedNext(xs: seq<Example>, x: Example, order: seq<Label>, groups: map<Label, seq<Example>>)
    requires GroupedSoFar(xs, order, groups)
    ensures var l := x.goldLabel;
            if l in groups then GroupedSoFar(xs + [x], order, groups[l := groups[l] + [x]])
            else GroupedSoFar(xs + [x], order + [l], groups[l := [x]])
  {
    hide Group;
    assert (xs + [x])[..|xs|] == xs;
    forall l
      ensures x.goldLabel == l ==> Group(xs + [x], l) == Group(xs, l) + [x]
      ensures x.goldLabel != l ==> Group(xs + [x], l) == Group(xs, l)
    {
      GroupSnoc(xs, x, l);
    }
  }

  /** `_take_deterministic` group by group, joined in the order of the labels and sorted. */
  method SelectParts(h: Hash, seed: int, groups: map<Label, seq<Example>>, labels: seq<Label>,
                     quotas: map<Label, nat>, ghost xs: seq<Example>, ghost q: Label -> int)
    returns (selected: seq<Example>)
    requires forall l :: Group(xs, l) == if l in groups then groups[l] else []
    requires forall l :: l in labels ==> l in quotas && quotas[l] == q(l)
    ensures selected == SortBy(Gather(xs, labels, q, KeyOf(h, seed)), KeyOf(h, seed))
  {
    hide Group, SortBy;
    selected := [];
    for n := 0 to |labels|
      invariant selected == Gather(xs, labels[..n], q, KeyOf(h, seed))
    {
      assert labels[..n + 1][..n] == labels[..n];
      var group := if labels[n] in groups then groups[labels[n]] else [];
      selected := selected + Best(group, KeyOf(h, seed), quotas[labels[n]]);
    }
    assert labels[..|labels|] == labels;
    selected := SortBy(selected, KeyOf(h, seed));
  }

  /** The even split of the target over the labels, by position. */
  method SplitEvenly(labels: seq<Label>, target: nat) returns (quotas: map<Label, nat>)
    requires NoDuplicates(labels) && labels != []
    ensures forall l :: l in labels ==> l in quotas && quotas[l] == EqualQuota(labels, target)(l)
    ensures forall l :: l in quotas ==> l in labels
  {
    hide IndexOf;
    var base, remainder := target / |labels|, target % |labels|;
    quotas := map[];
    for n := 0 to |labels|
      invariant forall l :: l in quotas <==> l in labels[..n]
      invariant forall l :: l in quotas ==> quotas[l] == base + if IndexOf(labels, l) < remainder then 1 else 0
    {
      IndexOfAt(labels, n);
      assert labels[..n + 1] == labels[..n] + [labels[n]];
      quotas := quotas[labels[n] := base + if n < remainder then 1 else 0];
    }
    assert labels[..|labels|] == labels;
  }

  method MinimumSize(xs: seq<Example>, groups: map<Label, seq<Example>>, labels: seq<Label>) returns (quota: nat)
    requires labels != [] && forall l :: Group(xs, l) == if l in groups then groups[l] else []
    ensures quota == SmallestGroup(xs, labels)
  {
    hide Group;
    quota := 0;
    for n := 0 to |labels|
      invariant n > 0 ==> quota == SmallestGroup(xs, labels[..n])
    {
      assert labels[..n + 1][..n] == labels[..n];
      var size := if labels[n] in groups then |groups[labels[n]]| else 0;
      if n == 0 || size < quota {
        quota := size;
      }
    }
    assert labels[..|labels|] == labels;
  }

  /** `_balanced_sample`. */
  method BalancedSample(h: Hash, config: Config, xs: seq<Example>) returns (r: Result<seq<Example>, SamplingError>)
    requires ValidConfig(config) && config.strategy.Balanced?
    ensures Requested(config) != []
    ensures r.Ok? <==> Feasible(config, xs)
    ensures r.Ok? ==> r.value == ListChoice(h, config, xs)
    ensures ListError(config, xs) == if r.Ok? then None else Some(r.error)
  {
    hide Group, SortBy, EqualQuota, Gather, SmallestGroup;
    RequestedLabels(config);
    var labels := Requested(config);
    var _, groups := GroupExamples(xs);
    var absent := exists i :: 0 <= i < |labels| && (labels[i] !in groups || groups[labels[i]] == []);
    assert absent <==> Missing(xs, labels);
    if absent {
      return Err(MissingLabels);
    }
    NotMissing(xs, labels);
    var quotas: map<Label, nat>;
    if config.maxExamples.None? {
      var quota := MinimumSize(xs, groups, labels);
      quotas := map l | l in labels :: quota;
    } else {
      if config.maxExamples.value < |labels| {
        return Err(SampleTooSmall);
      }
      quotas := SplitEvenly(labels, config.maxExamples.value);
    }
    ghost var q := BalancedQuota(xs, labels, config.maxExamples);
    assert forall l :: l in labels ==> l in quotas && quotas[l] == q(l);
    var impossible := exists i ::
          0 <= i < |labels| && labels[i] in groups && labels[i] in quotas && quotas[labels[i]] > |groups[labels[i]]|;
    OverdrawnIff(xs, labels, groups, quotas, q);
    if impossible {
      return Err(GroupsTooSmall);
    }
    var selected := SelectParts(h, config.seed, groups, labels, quotas, xs, q);
    return Ok(selected);
  }

  lemma NotMissing(xs: seq<Example>, labels: seq<Label>)
    requires !Missing(xs, labels) && labels != []
    ensures xs != [] && forall l :: l in labels ==> Group(xs, l) != []
  {
    assert labels[0] in labels;
    assert Group(xs, labels[0]) != [];
  }

  lemma OverdrawnIff(xs: seq<Example>, labels: seq<Label>, groups: map<Label, seq<Example>>, quotas: map<Label, nat>,
                     q: Label -> int)
    requires forall l :: Group(xs, l) == if l in groups then groups[l] else []
    requires forall l :: l in labels ==> l in groups && l in quotas && quotas[l] == q(l)
    ensures Overdrawn(xs, labels, q) <==>
              exists i :: 0 <= i < |labels| && labels[i] in groups && labels[i] in quotas
                && quotas[labels[i]] > |groups[labels[i]]|
  {
    hide Group;
    if Overdrawn(xs, labels, q) {
      var l :| l in labels && q(l) > |Group(xs, l)|;
      var i :| 0 <= i < |labels| && labels[i] == l;
    }
  }

  /** `_stratified_sample`. It never fails: the allocation always uses up the target. */
  method StratifiedSample(h: Hash, config: Config, xs: seq<Example>) returns (r: Result<seq<Example>, SamplingError>)
    requires ValidConfig(config) && config.strategy.Stratified?
    ensures Requested(config) != [] && r == Ok(ListChoice(h, config, xs))
  {
    hide Group, SortBy, Gather, LabelsSeen, Quota;
    RequestedLabels(config);
    if config.maxExamples.None? || config.maxExamples.value >= |xs| {
      return Ok(SortBy(xs, KeyOf(h, config.seed)));
    }
    var order, groups := GroupExamples(xs);
    var request := Request(map l | l in groups :: |groups[l]|, |xs|, config.maxExamples.value);
    assert request.counts == SeenRequest(xs, config.maxExamples.value).counts;
    SeenRequestProper(xs, config.maxExamples.value);
    var quotas := Apportion(request, order);
    if quotas.None? {
      return Err(Unallocatable);
    }
    var selected := SelectParts(h, config.seed, groups, order, quotas.value, xs,
      StratifiedQuota(xs, config.maxExamples.value));
    return Ok(selected);
  }
}
