/** Largest-remainder apportionment of a sample over label groups
    (backend/src/verilogic_ns_api/datasets/sampling.py), in exact arithmetic. */
module Apportionment {
  import opened Logic
  import opened Keys
  import opened StableSort

  datatype Label = Entailed | Contradicted | Unknown

  function LabelValue(l: Label): string {
    match l
    case Entailed => "ENTAILED"
    case Contradicted => "CONTRADICTED"
    case Unknown => "UNKNOWN"
  }

  function Sum(labels: seq<Label>, f: Label -> int): int {
    if labels == [] then 0 else Sum(labels[..|labels| - 1], f) + f(labels[|labels| - 1])
  }

  /** Group sizes, and how many of the `total` examples are wanted. */
  datatype Request = Request(counts: map<Label, nat>, total: nat, target: nat)

  function Count(r: Request): Label -> int {
    l => if l in r.counts then r.counts[l] else 0
  }

  /** The floor of a group's exact share `count * target / total`. */
  function Floor(r: Request): Label -> int {
    l => if l in r.counts && r.total > 0 then r.counts[l] * r.target / r.total else 0
  }

  /** What the floor leaves of the share, in units of `1 / total`. */
  function Left(r: Request): Label -> int {
    l => if l in r.counts && r.total > 0 then r.counts[l] * r.target % r.total else 0
  }

  /** Largest remainder first; ties by label value. */
  function OrderKey(r: Request): Label -> Key {
    l => Pair(Num(-Left(r)(l)), Pair(Str(LabelValue(l)), Nil))
  }

  function Spare(r: Request, labels: seq<Label>): int {
    r.target - Sum(labels, Floor(r))
  }

  function Order(r: Request, labels: seq<Label>): seq<Label> {
    SortBy(labels, OrderKey(r))
  }

  /** The groups that get one example more than their floor. */
  function Winners(r: Request, labels: seq<Label>): seq<Label> {
    if 0 <= Spare(r, labels) then Prefix(Order(r, labels), Spare(r, labels)) else []
  }

  function Quota(r: Request, labels: seq<Label>): Label -> int {
    l => Floor(r)(l) + if l in Winners(r, labels) then 1 else 0
  }

  /** The groups are those of the examples, and fewer examples are wanted than there are. */
  ghost predicate Proper(r: Request, labels: seq<Label>) {
    && NoDuplicates(labels)
    && (forall l :: l in labels <==> l in r.counts)
    && (forall l :: l in r.counts ==> r.counts[l] > 0)
    && r.total == Sum(labels, Count(r))
    && r.target < r.total
  }

  // ---- Sums ----

  lemma {:induction false} SumAppend(a: seq<Label>, b: seq<Label>, f: Label -> int)
    ensures Sum(a + b, f) == Sum(a, f) + Sum(b, f)
  {
    if b == [] {
      assert a + b == a;
    } else {
      SumAppend(a, b[..|b| - 1], f);
      assert (a + b)[..|a + b| - 1] == a + b[..|b| - 1];
    }
  }

  lemma SumWithout(b: seq<Label>, i: nat, f: Label -> int)
    requires i < |b|
    ensures Sum(b, f) == Sum(Without(b, i), f) + f(b[i])
  {
    hide Sum;
    SumAppend(b[..i], b[i + 1..], f);
    SumAppend(b[..i] + [b[i]], b[i + 1..], f);
    SumAppend(b[..i], [b[i]], f);
    SumOne(b[i], f);
    assert b == b[..i] + [b[i]] + b[i + 1..];
  }

  lemma PermutedLast(a: seq<Label>, b: seq<Label>) returns (i: nat)
    requires multiset(a) == multiset(b) && a != []
    ensures i < |b| && b[i] == a[|a| - 1]
    ensures multiset(a[..|a| - 1]) == multiset(Without(b, i))
  {
    hide Without;
    var n := |a| - 1;
    SameElements(a, b);
    assert a[n] in a;
    i :| 0 <= i < |b| && b[i] == a[n];
    WithoutMultiset(b, i);
    LastMultiset(a);
  }

  lemma LastMultiset(a: seq<Label>)
    requires a != []
    ensures multiset(a[..|a| - 1]) == multiset(a) - multiset{a[|a| - 1]}
  {
    assert a == a[..|a| - 1] + [a[|a| - 1]];
  }

  lemma {:induction false} SumPermuted(a: seq<Label>, b: seq<Label>, f: Label -> int)
    requires multiset(a) == multiset(b)
    ensures Sum(a, f) == Sum(b, f)
  {
    SameElements(a, b);
    if a != [] {
      var i := PermutedLast(a, b);
      SumPermuted(a[..|a| - 1], Without(b, i), f);
      SumWithout(b, i, f);
    }
  }

  lemma SumOne(l: Label, f: Label -> int)
    ensures Sum([l], f) == f(l)
  {
    assert [l][..0] == [];
  }

  lemma {:induction false} SumBounds(labels: seq<Label>, f: Label -> int, low: int, high: int)
    requires forall l :: l in labels ==> low <= f(l) <= high
    ensures low * |labels| <= Sum(labels, f) <= high * |labels|
  {
    if labels != [] {
      SumBounds(labels[..|labels| - 1], f, low, high);
      Distribute(low, |labels| - 1);
      Distribute(high, |labels| - 1);
    }
  }

  lemma Distribute(a: int, n: int)
    ensures a * (n + 1) == a * n + a
  {
  }

  lemma {:induction false} SumSplit(labels: seq<Label>, f: Label -> int, g: Label -> int, h: Label -> int, a: int,
                                    b: int)
    requires forall l :: l in labels ==> a * f(l) + g(l) == h(l) * b
    ensures a * Sum(labels, f) + Sum(labels, g) == Sum(labels, h) * b
  {
    if labels != [] {
      var n := |labels| - 1;
      SumSplit(labels[..n], f, g, h, a, b);
      assert a * (Sum(labels[..n], f) + f(labels[n])) == a * Sum(labels[..n], f) + a * f(labels[n]);
      assert (Sum(labels[..n], h) + h(labels[n])) * b == Sum(labels[..n], h) * b + h(labels[n]) * b;
    }
  }

  // ---- The floors and what they leave ----

  lemma ShareSplits(r: Request, l: Label)
    requires l in r.counts && r.total > 0
    ensures r.total * Floor(r)(l) + Left(r)(l) == Count(r)(l) * r.target
    ensures 0 <= Left(r)(l) < r.total && 0 <= Floor(r)(l)
  {
  }

  /** The examples the floors do not assign are exactly what the remainders add up to. */
  lemma SpareIsLeft(r: Request, labels: seq<Label>)
    requires Proper(r, labels)
    ensures r.total * Spare(r, labels) == Sum(labels, Left(r))
  {
    hide Sum, Floor, Left, Count;
    forall l | l in labels ensures r.total * Floor(r)(l) + Left(r)(l) == Count(r)(l) * r.target {
      ShareSplits(r, l);
    }
    SumSplit(labels, Floor(r), Left(r), Count(r), r.total, r.target);
    MultiplyDifference(r.total, r.target, Sum(labels, Floor(r)));
  }

  lemma MultiplyDifference(a: int, b: int, c: int)
    ensures a * (b - c) == a * b - a * c
  {
  }

  lemma MultiplyLeq(a: nat, b: int, c: int)
    requires b <= c
    ensures a * b <= a * c
  {
  }

  lemma ScaledBounds(total: nat, spare: int, n: nat)
    requires total > 0 && 0 <= total * spare <= (total - 1) * n
    ensures 0 <= spare <= n
  {
    if spare < 0 {
      MultiplyLeq(total, spare, -1);
    }
    if spare > n {
      MultiplyLeq(total, n + 1, spare);
      Distribute(total, n);
      MultiplyLeq(n, total - 1, total);
    }
  }

  lemma SpareBounds(r: Request, labels: seq<Label>)
    requires Proper(r, labels)
    ensures 0 <= Spare(r, labels) <= |labels|
  {
    SpareIsLeft(r, labels);
    LeftWithin(r, labels);
    SumBounds(labels, Left(r), 0, r.total - 1);
    ScaledBounds(r.total, Spare(r, labels), |labels|);
  }

  lemma OrderFacts(r: Request, labels: seq<Label>)
    requires Proper(r, labels)
    ensures NoDuplicates(Order(r, labels)) && |Order(r, labels)| == |labels|
            && multiset(Order(r, labels)) == multiset(labels)
    ensures forall l :: l in Order(r, labels) <==> l in labels
    ensures forall i, j :: 0 <= i < j < |Order(r, labels)| ==>
        Left(r)(Order(r, labels)[i]) >= Left(r)(Order(r, labels)[j])
  {
    hide Leq;
    SortByMultiset(labels, OrderKey(r));
    SortBySorted(labels, OrderKey(r));
    OrderKeyInjective(r, labels);
    SortByStrict(labels, OrderKey(r));
    StrictlySortedDistinct(Order(r, labels), OrderKey(r));
    forall i, j | 0 <= i < j < |Order(r, labels)| ensures Left(r)(Order(r, labels)[i]) >= Left(r)(Order(r, labels)[j]) {
      WinnerLeads(r, Order(r, labels)[i], Order(r, labels)[j]);
    }
  }

  lemma LabelValueInjective(l: Label, m: Label)
    requires LabelValue(l) == LabelValue(m)
    ensures l == m
  {
    assert LabelValue(Entailed)[0] == 'E' && LabelValue(Contradicted)[0] == 'C' && LabelValue(Unknown)[0] == 'U';
  }

  lemma OrderKeyInjective(r: Request, labels: seq<Label>)
    ensures KeyTellsApart(labels, OrderKey(r))
  {
    forall i, j | 0 <= i < |labels| && 0 <= j < |labels| && OrderKey(r)(labels[i]) == OrderKey(r)(labels[j])
      ensures labels[i] == labels[j]
    {
      LabelValueInjective(labels[i], labels[j]);
    }
  }

  /** If the remainder at place `i` is zero, the remainders add up to less than `i` whole shares. */
  lemma ZeroRemainderBounds(r: Request, labels: seq<Label>, i: nat)
    requires Proper(r, labels) && i < |Order(r, labels)| && Left(r)(Order(r, labels)[i]) == 0
    ensures Sum(labels, Left(r)) <= (r.total - 1) * i
  {
    hide Sum, Leq, Order, Proper;
    var order := Order(r, labels);
    OrderFacts(r, labels);
    LeftWithin(r, labels);
    forall l | l in order[i..] ensures 0 <= Left(r)(l) <= 0 {
      var j :| i <= j < |order| && order[j] == l;
      assert order[j] in order;
    }
    SumBounds(order[i..], Left(r), 0, 0);
    forall l | l in order[..i] ensures l in order {
    }
    SumBounds(order[..i], Left(r), 0, r.total - 1);
    SumAppend(order[..i], order[i..], Left(r));
    assert order == order[..i] + order[i..];
    SumPermuted(order, labels, Left(r));
  }

  lemma LeftWithin(r: Request, labels: seq<Label>)
    requires Proper(r, labels)
    ensures forall l :: l in labels ==> 0 <= Left(r)(l) <= r.total - 1
  {
    forall l | l in labels ensures 0 <= Left(r)(l) <= r.total - 1 {
      ShareSplits(r, l);
    }
  }

  /** Every group that wins an extra example has a share that is not whole. */
  lemma WinnersHaveRemainder(r: Request, labels: seq<Label>, i: nat)
    requires Proper(r, labels) && i < Spare(r, labels)
    ensures i < |Order(r, labels)| && Left(r)(Order(r, labels)[i]) > 0
  {
    hide Sum, Order, Leq;
    OrderFacts(r, labels);
    SpareBounds(r, labels);
    SpareIsLeft(r, labels);
    ShareSplits(r, Order(r, labels)[i]);
    if Left(r)(Order(r, labels)[i]) == 0 {
      ZeroRemainderBounds(r, labels, i);
      LeftNonNegative(r, labels);
      ScaledBounds(r.total, Spare(r, labels), i);
    }
  }

  lemma LeftNonNegative(r: Request, labels: seq<Label>)
    requires Proper(r, labels)
    ensures 0 <= Sum(labels, Left(r))
  {
    LeftWithin(r, labels);
    SumBounds(labels, Left(r), 0, r.total - 1);
  }

  lemma WinnersFacts(r: Request, labels: seq<Label>)
    requires Proper(r, labels)
    ensures 0 <= Spare(r, labels) <= |Order(r, labels)| == |labels|
    ensures Winners(r, labels) == Order(r, labels)[..Spare(r, labels)]
    ensures NoDuplicates(Winners(r, labels)) && forall l :: l in Winners(r, labels) ==> l in labels && Left(r)(l) > 0
  {
    OrderFacts(r, labels);
    SpareBounds(r, labels);
    var w := Winners(r, labels);
    forall l | l in w ensures l in labels && Left(r)(l) > 0 {
      var i :| 0 <= i < |w| && w[i] == l;
      assert w[i] == Order(r, labels)[i];
      WinnersHaveRemainder(r, labels, i);
    }
  }

  // ---- The quotas ----

  lemma QuotientBelow(c: nat, t: nat, n: nat)
    requires c > 0 && t < n
    ensures c * t / n < c
  {
    var q := c * t / n;
    MultiplyLeq(c, t, n - 1);
    if q >= c {
      MultiplyLeq(n, c, q);
    }
  }

  lemma FloorBelowCount(r: Request, l: Label)
    requires l in r.counts && r.counts[l] > 0 && r.target < r.total
    ensures Floor(r)(l) < r.counts[l]
  {
    QuotientBelow(r.counts[l], r.target, r.total);
  }

  lemma RoundingBounds(total: nat, f: int, left: int, q: int)
    requires 0 <= left < total && (q == f || (q == f + 1 && left > 0))
    ensures total * (q - 1) < total * f + left < total * (q + 1)
  {
    Distribute(total, f - 1);
    Distribute(total, f);
    Distribute(total, f + 1);
  }

  /** Each quota is the floor or the ceiling of the group's exact share, and never exceeds the group. */
  lemma QuotaIsRounding(r: Request, labels: seq<Label>, l: Label)
    requires Proper(r, labels) && l in labels
    ensures 0 <= Quota(r, labels)(l) <= r.counts[l]
    ensures r.total * (Quota(r, labels)(l) - 1) < r.counts[l] * r.target < r.total * (Quota(r, labels)(l) + 1)
  {
    hide Winners, Left, Floor, Sum;
    WinnersFacts(r, labels);
    ShareSplits(r, l);
    FloorBelowCount(r, l);
    RoundingBounds(r.total, Floor(r)(l), Left(r)(l), Quota(r, labels)(l));
  }

  lemma {:induction false} SumIndicator(labels: seq<Label>, w: seq<Label>, f: Label -> int, g: Label -> int)
    requires forall l :: g(l) == f(l) + if l in w then 1 else 0
    requires forall l :: l in labels ==> l in w
    ensures Sum(labels, g) == Sum(labels, f) + |labels|
  {
    if labels != [] {
      SumIndicator(labels[..|labels| - 1], w, f, g);
    }
  }

  lemma {:induction false} SumNoIndicator(labels: seq<Label>, w: seq<Label>, f: Label -> int, g: Label -> int)
    requires forall l :: g(l) == f(l) + if l in w then 1 else 0
    requires forall l :: l in labels ==> l !in w
    ensures Sum(labels, g) == Sum(labels, f)
  {
    if labels != [] {
      SumNoIndicator(labels[..|labels| - 1], w, f, g);
    }
  }

  /** The places after the winners hold the other groups. */
  lemma OrderSplits(r: Request, labels: seq<Label>)
    requires Proper(r, labels)
    ensures 0 <= Spare(r, labels) <= |Order(r, labels)|
    ensures Order(r, labels) == Winners(r, labels) + Order(r, labels)[Spare(r, labels)..]
    ensures forall l :: l in Order(r, labels)[Spare(r, labels)..] ==> l !in Winners(r, labels)
  {
    hide Order, Sum, Spare, Winners;
    var order, s := Order(r, labels), Spare(r, labels);
    OrderFacts(r, labels);
    WinnersFacts(r, labels);
    forall l | l in order[s..] ensures l !in order[..s] {
      var j :| s <= j < |order| && order[j] == l;
    }
  }

  /** The quotas add up to the number of examples wanted. */
  lemma QuotasSumToTarget(r: Request, labels: seq<Label>)
    requires Proper(r, labels)
    ensures Sum(labels, Quota(r, labels)) == r.target
  {
    hide Order, Sum, Winners, Proper;
    OrderSplits(r, labels);
    var w, others := Winners(r, labels), Order(r, labels)[Spare(r, labels)..];
    OrderFacts(r, labels);
    WinnersFacts(r, labels);
    SumIndicator(w, w, Floor(r), Quota(r, labels));
    SumNoIndicator(others, w, Floor(r), Quota(r, labels));
    SumAppend(w, others, Floor(r));
    SumAppend(w, others, Quota(r, labels));
    SumPermuted(Order(r, labels), labels, Floor(r));
    SumPermuted(Order(r, labels), labels, Quota(r, labels));
  }

  /** Extra examples go to the largest remainders; equal remainders are decided by label value. */
  lemma LargestRemaindersWin(r: Request, labels: seq<Label>, l: Label, m: Label)
    requires Proper(r, labels) && l in labels && m in labels
    requires l in Winners(r, labels) && m !in Winners(r, labels)
    ensures Left(r)(l) >= Left(r)(m)
    ensures Left(r)(l) == Left(r)(m) ==> StrLeq(LabelValue(l), LabelValue(m))
  {
    hide Leq, Sum, SortBy, Winners, Spare, Proper;
    var order, s := Order(r, labels), Spare(r, labels);
    OrderFacts(r, labels);
    OrderSplits(r, labels);
    SortBySorted(labels, OrderKey(r));
    var i :| 0 <= i < |Winners(r, labels)| && Winners(r, labels)[i] == l;
    assert m in order;
    assert m in order[s..];
    var j :| 0 <= j < |order[s..]| && order[s..][j] == m;
    assert order[i] == l && order[|Winners(r, labels)| + j] == m;
    WinnerLeads(r, l, m);
  }

  lemma WinnerLeads(r: Request, l: Label, m: Label)
    requires Leq(OrderKey(r)(l), OrderKey(r)(m))
    ensures Left(r)(l) >= Left(r)(m)
    ensures Left(r)(l) == Left(r)(m) ==> StrLeq(LabelValue(l), LabelValue(m))
  {
    var a, b := LabelValue(l), LabelValue(m);
    StrTotal(a, a);
    if Left(r)(l) == Left(r)(m) {
      assert Leq(Pair(Str(a), Nil), Pair(Str(b), Nil));
      if a != b {
        assert Leq(Str(a), Str(b));
      }
    }
  }

  /** The quotas do not depend on the order in which the labels were met. */
  lemma QuotasOrderFree(r: Request, labels: seq<Label>, others: seq<Label>)
    requires multiset(labels) == multiset(others)
    ensures forall l :: Quota(r, labels)(l) == Quota(r, others)(l)
  {
    OrderKeyInjective(r, labels);
    SortByOrderFree(labels, others, OrderKey(r));
    SumPermuted(labels, others, Floor(r));
  }

  ghost predicate FloorsBelow(r: Request) {
    forall l :: l in r.counts ==> 0 <= Floor(r)(l) < r.counts[l]
  }

  lemma FloorsAreBelow(r: Request, labels: seq<Label>)
    requires Proper(r, labels)
    ensures FloorsBelow(r)
  {
    forall l | l in r.counts ensures 0 <= Floor(r)(l) < r.counts[l] {
      ShareSplits(r, l);
      FloorBelowCount(r, l);
    }
  }

  /** The first `n` groups in remainder order have one more than their floor. */
  ghost predicate Allocated(r: Request, labels: seq<Label>, n: nat, quotas: map<Label, nat>) {
    && quotas.Keys == r.counts.Keys && n <= |Order(r, labels)|
    && forall l :: l in quotas ==> quotas[l] == Floor(r)(l) + if l in Order(r, labels)[..n] then 1 else 0
  }

  lemma AllocateNext(r: Request, labels: seq<Label>, n: nat, quotas: map<Label, nat>)
    requires Proper(r, labels) && Allocated(r, labels, n, quotas) && n < |Order(r, labels)|
    ensures Order(r, labels)[n] in quotas && quotas[Order(r, labels)[n]] < r.counts[Order(r, labels)[n]]
    ensures Allocated(r, labels, n + 1, quotas[Order(r, labels)[n] := quotas[Order(r, labels)[n]] + 1])
  {
    hide Sum, Order, Floor;
    var order := Order(r, labels);
    OrderFacts(r, labels);
    FloorsAreBelow(r, labels);
    assert order[..n + 1] == order[..n] + [order[n]];
    assert order[n] in labels && order[n] !in order[..n];
  }

  lemma AllAllocated(r: Request, labels: seq<Label>, quotas: map<Label, nat>)
    requires Proper(r, labels) && 0 <= Spare(r, labels) && Allocated(r, labels, Spare(r, labels), quotas)
    ensures forall l :: l in labels ==> l in quotas && quotas[l] == Quota(r, labels)(l)
  {
    hide Sum, Order, Floor, Spare;
  }

  /** The allocation loop: floors first, then one more for each group in remainder order while any
      example is left. The failure at its end is never reached. */
  method Apportion(r: Request, labels: seq<Label>) returns (quotas: Option<map<Label, nat>>)
    requires Proper(r, labels)
    ensures quotas.Some? && quotas.value.Keys == r.counts.Keys
    ensures forall l :: l in labels ==> l in quotas.value && quotas.value[l] == Quota(r, labels)(l)
  {
    hide Sum, Order, Floor, Winners, Proper, Spare, Allocated, Quota;
    WinnersFacts(r, labels);
    var result: map<Label, nat>, order := FloorQuotas(r, labels), Order(r, labels);
    var remaining := Spare(r, labels);
    var n := 0;
    while n < |order| && remaining != 0
      invariant 0 <= n <= |order| && remaining == Spare(r, labels) - n >= 0
      invariant result.Keys == r.counts.Keys && Allocated(r, labels, n, result)
    {
      AllocateNext(r, labels, n, result);
      if result[order[n]] < r.counts[order[n]] {
        result := result[order[n] := result[order[n]] + 1];
        remaining := remaining - 1;
      }
      n := n + 1;
    }
    if remaining != 0 {
      return None;
    }
    AllAllocated(r, labels, result);
    return Some(result);
  }

  function FloorQuotas(r: Request, labels: seq<Label>): (quotas: map<Label, nat>)
    requires Proper(r, labels)
    ensures quotas.Keys == r.counts.Keys && Allocated(r, labels, 0, quotas)
  {
    FloorsAreBelow(r, labels);
    map l | l in r.counts :: Floor(r)(l)
  }
}
