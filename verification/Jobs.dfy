/** The local job manager as a step system: each step is one locked section, taken by a caller or by
    the single worker thread (backend/src/verilogic_ns_api/orchestration/jobs.py). */
module Jobs {
  import opened Logic
  import opened Keys
  import opened StableSort

  type Id = string

  datatype Status = Queued | Running | CancelRequested | Completed | Failed | Cancelled

  datatype Job = Job(request: string, submittedAt: int, status: Status, stage: Option<string>, startedAt: Option<int>,
                     completedAt: Option<int>, result: Option<string>, cancelEvent: bool)

  /** Where the worker thread is: no thread, waiting for work, running a job, between recording a job's
      outcome and the final pruning, or out of its loop but still alive. */
  datatype Worker = NoThread | Waiting | Busy(id: Id) | Cleaning | Exiting

  /** How `pipeline.run` ended. */
  datatype Outcome = Returned(result: string) | RaisedCancelled | RaisedError

  datatype Bounds = Bounds(maxQueued: nat, maxRetained: nat, retention: int)

  /** The manager's fields; `order` is the insertion order of `_jobs`, and `issued` records every id
      ever accepted. */
  datatype State = State(bounds: Bounds, jobs: map<Id, Job>, order: seq<Id>, queue: seq<Id>, shutdown: bool,
                         worker: Worker, issued: seq<Id>)

  datatype Action =
    | Submit(id: Id, request: string, now: int)
    | Get(id: Id, now: int)
    | Cancel(id: Id, now: int)
    | Shutdown(now: int)
    | Take(now: int)
    | Report(stage: string)
    | Finish(outcome: Outcome, now: int)
    | Clean(now: int)
    | EndThread

  datatype Reply = Accepted(id: Id) | QueueFull | LookupFailed | Found(job: Job) | UnknownRun | Silent

  predicate ValidBounds(b: Bounds) {
    1 <= b.maxQueued <= 16 && b.maxRetained >= b.maxQueued + 1
  }

  function Initial(b: Bounds): State {
    State(b, map[], [], [], false, NoThread, [])
  }

  predicate Terminal(s: Status) {
    s in {Completed, Failed, Cancelled}
  }

  // ---- Pruning ----

  predicate Done(j: Job) {
    Terminal(j.status) && j.completedAt.Some?
  }

  predicate Expired(s: State, now: int, id: Id) {
    id in s.jobs && Done(s.jobs[id]) && now - s.jobs[id].completedAt.value > s.bounds.retention
  }

  function Unexpired(s: State, now: int): Id -> bool {
    id => !Expired(s, now, id)
  }

  function IsDone(s: State): Id -> bool {
    id => id in s.jobs && Done(s.jobs[id])
  }

  function CompletedKey(s: State): Id -> Key {
    id => if id in s.jobs && s.jobs[id].completedAt.Some? then Num(s.jobs[id].completedAt.value) else Nil
  }

  function Remaining(s: State, now: int): map<Id, Job> {
    map id | id in s.jobs && !Expired(s, now, id) :: s.jobs[id]
  }

  /** The finished jobs that have not expired, oldest first. */
  function DoneIds(s: State, now: int): seq<Id> {
    SortBy(Filter(Filter(s.order, Unexpired(s, now)), IsDone(s)), CompletedKey(s))
  }

  function Excess(s: State, now: int): nat {
    var size := |Remaining(s, now)|;
    if size > s.bounds.maxRetained then size - s.bounds.maxRetained else 0
  }

  function Dropped(s: State, now: int): seq<Id> {
    Prefix(DoneIds(s, now), Excess(s, now))
  }

  function Kept(s: State, now: int): Id -> bool {
    id => !Expired(s, now, id) && id !in Dropped(s, now)
  }

  /** `_prune_locked`: expired jobs go, then the oldest finished ones while there are too many jobs. */
  function Prune(s: State, now: int): State {
    s.(jobs := map id | id in s.jobs && Kept(s, now)(id) :: s.jobs[id], order := Filter(s.order, Kept(s, now)))
  }

  // ---- Steps ----

  function IsQueued(s: State): Id -> bool {
    id => id in s.jobs && s.jobs[id].status == Queued
  }

  /** What `submit` counts. */
  function WaitingCount(s: State): nat {
    |Filter(s.queue, IsQueued(s))|
  }

  /** Some queued id has no entry in `_jobs`. */
  predicate QueueHasGap(s: State) {
    exists i | 0 <= i < |s.queue| :: s.queue[i] !in s.jobs
  }

  function Answer(s: State, a: Action): Reply {
    match a
    case Submit(id, _, now) =>
      var p := Prune(s, now);
      if QueueHasGap(p) then LookupFailed else if WaitingCount(p) >= p.bounds.maxQueued then QueueFull else Accepted(id)
    case Get(id, now) =>
      var p := Prune(s, now);
      if id in p.jobs then Found(p.jobs[id]) else UnknownRun
    case Cancel(id, now) =>
      var p := Prune(s, now);
      if id in p.jobs then Found(CancelJob(p.jobs[id], now)) else UnknownRun
    case _ => Silent
  }

  function NewJob(request: string, now: int): Job {
    Job(request, now, Queued, None, None, None, None, false)
  }

  function CancelJob(j: Job, now: int): Job {
    if j.status == Queued then j.(status := Cancelled, completedAt := Some(now), cancelEvent := true)
    else if j.status == Running then j.(status := CancelRequested, cancelEvent := true)
    else j
  }

  function ShutdownJob(j: Job, now: int): Job {
    var k := if j.status == Queued then j.(status := Cancelled, completedAt := Some(now))
             else if j.status in {Running, CancelRequested} then j.(status := CancelRequested)
             else j;
    k.(cancelEvent := true)
  }

  function FinishJob(j: Job, outcome: Outcome, now: int): Job {
    match outcome
    case RaisedCancelled => j.(status := Cancelled, completedAt := Some(now), result := None)
    case RaisedError => j.(status := Failed, completedAt := Some(now), result := None)
    case Returned(result) =>
      var k := if j.cancelEvent then j.(status := Cancelled, result := None)
               else j.(status := Completed, result := Some(result));
      k.(completedAt := Some(now), stage := Some("FINAL_DECISION"))
  }

  function TakeStep(s: State, now: int): State {
    if s.queue == [] then s.(worker := Exiting)
    else
      var id, p := s.queue[0], s.(queue := s.queue[1..]);
      if id !in s.jobs || s.jobs[id].status == Cancelled then p
      else p.(jobs := s.jobs[id := s.jobs[id].(status := Running, startedAt := Some(now))], worker := Busy(id))
  }

  /** Whether the step can happen: ids are fresh, and the worker acts in turn. */
  predicate Enabled(s: State, a: Action) {
    match a
    case Submit(id, _, _) => id !in s.issued
    case Take(_) => s.worker.Waiting? && (s.shutdown || s.queue != [])
    case Report(_) => s.worker.Busy?
    case Finish(_, _) => s.worker.Busy?
    case Clean(_) => s.worker.Cleaning?
    case EndThread => s.worker.Exiting?
    case _ => true
  }

  function Step(s: State, a: Action): State {
    match a
    case Submit(id, request, now) =>
      var p := Prune(s, now);
      if Answer(s, a).Accepted?
      then p.(jobs := p.jobs[id := NewJob(request, now)], order := p.order + [id], queue := p.queue + [id],
              issued := p.issued + [id], worker := if p.worker.NoThread? then Waiting else p.worker)
      else p
    case Get(_, now) => Prune(s, now)
    case Cancel(id, now) =>
      var p := Prune(s, now);
      if id in p.jobs then p.(jobs := p.jobs[id := CancelJob(p.jobs[id], now)]) else p
    case Shutdown(now) => s.(shutdown := true, jobs := map id | id in s.jobs :: ShutdownJob(s.jobs[id], now))
    case Take(now) => TakeStep(s, now)
    case Report(stage) =>
      if s.worker.Busy? && s.worker.id in s.jobs
      then s.(jobs := s.jobs[s.worker.id := s.jobs[s.worker.id].(stage := Some(stage))])
      else s
    case Finish(outcome, now) =>
      if s.worker.Busy? && s.worker.id in s.jobs
      then s.(jobs := s.jobs[s.worker.id := FinishJob(s.jobs[s.worker.id], outcome, now)], worker := Cleaning)
      else s
    case Clean(now) => Prune(s, now).(worker := Waiting)
    case EndThread => s.(worker := NoThread)
  }

  // ---- The invariant ----

  ghost predicate Listed(s: State) {
    NoDuplicates(s.order) && forall id :: id in s.order <==> id in s.jobs
  }

  /** The queue is the most recently accepted ids, in the order of their acceptance. */
  ghost predicate QueueInOrder(s: State) {
    && NoDuplicates(s.issued) && |s.queue| <= |s.issued|
    && s.queue == s.issued[|s.issued| - |s.queue|..]
    && forall id :: id in s.jobs ==> id in s.issued
  }

  /** Queued jobs are in the queue; the queue holds no job that was ever started. */
  ghost predicate QueueHoldsQueued(s: State) {
    && (forall id :: id in s.jobs && s.jobs[id].status == Queued ==> id in s.queue)
    && (forall id :: id in s.queue && id in s.jobs ==>
      s.jobs[id].status in {Queued, Cancelled} && s.jobs[id].startedAt.None?)
  }

  predicate Active(j: Job) {
    j.status in {Running, CancelRequested}
  }

  /** The active job is the one the worker runs. */
  ghost predicate OneActive(s: State) {
    && (forall id :: id in s.jobs && Active(s.jobs[id]) ==> s.worker == Busy(id))
    && (s.worker.Busy? ==> s.worker.id in s.jobs && Active(s.jobs[s.worker.id]))
  }

  predicate JobOk(j: Job) {
    && (j.completedAt.Some? <==> Terminal(j.status))
    && (j.result.Some? <==> j.status == Completed)
    && (j.status in {Queued, Running} ==> !j.cancelEvent)
    && (j.status == CancelRequested ==> j.cancelEvent)
    && (j.status == Queued ==> j.startedAt.None?)
    && (Active(j) || j.status in {Completed, Failed} ==> j.startedAt.Some?)
  }

  ghost predicate JobsOk(s: State) {
    forall id :: id in s.jobs ==> JobOk(s.jobs[id])
  }

  ghost function QueuedIds(s: State): set<Id> {
    set id | id in s.jobs && s.jobs[id].status == Queued
  }

  ghost predicate WithinBounds(s: State) {
    |QueuedIds(s)| <= s.bounds.maxQueued && |s.jobs| <= s.bounds.maxRetained + 1
  }

  ghost predicate Inv(s: State) {
    && ValidBounds(s.bounds) && Listed(s) && QueueInOrder(s) && QueueHoldsQueued(s) && OneActive(s) && JobsOk(s)
    && WithinBounds(s)
  }

  // ---- What pruning does ----

  /** Pruning removes finished jobs only and leaves the rest as they were. */
  lemma PruneKeeps(s: State, now: int)
    requires Listed(s) && JobsOk(s)
    ensures var p := Prune(s, now);
            && (forall id :: id in p.jobs ==> id in s.jobs && p.jobs[id] == s.jobs[id])
            && (forall id :: id in s.jobs && !Terminal(s.jobs[id].status) ==> id in p.jobs)
            && Listed(p)
  {
    hide SortBy, Excess;
    var p := Prune(s, now);
    FilterExact(s.order, Kept(s, now));
    FilterDistinct(s.order, Kept(s, now));
    forall id | id in s.jobs && !Terminal(s.jobs[id].status) ensures id in p.jobs {
      if id in Dropped(s, now) {
        DroppedAreDone(s, now, id);
      }
    }
  }

  lemma DoneIdsExact(s: State, now: int)
    requires Listed(s)
    ensures forall id :: id in DoneIds(s, now) <==> id in s.jobs && !Expired(s, now, id) && Done(s.jobs[id])
    ensures NoDuplicates(DoneIds(s, now))
  {
    hide SortBy;
    var unexpired := Filter(s.order, Unexpired(s, now));
    var done := Filter(unexpired, IsDone(s));
    FilterExact(s.order, Unexpired(s, now));
    FilterDistinct(s.order, Unexpired(s, now));
    FilterExact(unexpired, IsDone(s));
    FilterDistinct(unexpired, IsDone(s));
    SortByMultiset(done, CompletedKey(s));
    PermutedDistinct(SortBy(done, CompletedKey(s)), done);
  }

  lemma DroppedAreDone(s: State, now: int, id: Id)
    requires Listed(s) && id in Dropped(s, now)
    ensures id in s.jobs && Done(s.jobs[id])
  {
    hide DoneIds, Excess;
    DoneIdsExact(s, now);
    assert id in DoneIds(s, now);
  }

  /** Only when there are too many jobs is an unexpired one dropped, and then the oldest finished ones. */
  lemma PruneDropsOldest(s: State, now: int, gone: Id, kept: Id)
    requires Inv(s)
    requires gone in s.jobs && gone !in Prune(s, now).jobs && !Expired(s, now, gone)
    requires kept in Prune(s, now).jobs && Terminal(s.jobs[kept].status)
    ensures |Remaining(s, now)| > s.bounds.maxRetained
    ensures Done(s.jobs[gone]) && Done(s.jobs[kept]) && s.jobs[gone].completedAt.value <= s.jobs[kept].completedAt.value
  {
    hide DoneIds, QueueInOrder, QueueHoldsQueued, OneActive, WithinBounds, Listed, JobOk;
    var all, dropped := DoneIds(s, now), Dropped(s, now);
    DoneIdsExact(s, now);
    assert JobOk(s.jobs[kept]);
    JobOkDone(s.jobs[kept]);
    assert gone in dropped && kept in all && kept !in dropped;
    DoneIdsOldestFirst(s, now);
    var i, j := SplitByPrefix(all, Excess(s, now), gone, kept);
  }

  lemma SplitByPrefix(all: seq<Id>, n: nat, first: Id, second: Id) returns (i: nat, j: nat)
    requires first in Prefix(all, n) && second in all && second !in Prefix(all, n)
    ensures i < j < |all| && all[i] == first && all[j] == second && n > 0
  {
    var front := Prefix(all, n);
    i :| 0 <= i < |front| && front[i] == first;
    j :| 0 <= j < |all| && all[j] == second;
    assert j < |front| ==> front[j] == second;
  }

  lemma JobOkDone(j: Job)
    requires JobOk(j) && Terminal(j.status)
    ensures Done(j)
  {
  }

  lemma DoneIdsOldestFirst(s: State, now: int)
    requires Listed(s)
    ensures forall i, j :: 0 <= i < j < |DoneIds(s, now)| ==>
              && DoneIds(s, now)[i] in s.jobs && DoneIds(s, now)[j] in s.jobs
              && Done(s.jobs[DoneIds(s, now)[i]]) && Done(s.jobs[DoneIds(s, now)[j]])
              && s.jobs[DoneIds(s, now)[i]].completedAt.value <= s.jobs[DoneIds(s, now)[j]].completedAt.value
  {
    hide SortBy, Listed;
    var all, key := DoneIds(s, now), CompletedKey(s);
    DoneIdsExact(s, now);
    SortBySorted(Filter(Filter(s.order, Unexpired(s, now)), IsDone(s)), key);
    forall i, j | 0 <= i < j < |all|
      ensures all[i] in s.jobs && all[j] in s.jobs && Done(s.jobs[all[i]]) && Done(s.jobs[all[j]])
      ensures s.jobs[all[i]].completedAt.value <= s.jobs[all[j]].completedAt.value
    {
      assert all[i] in all && all[j] in all;
      assert Leq(key(all[i]), key(all[j]));
    }
  }

  lemma LiveBounded(s: State)
    requires Inv(s)
    ensures |LiveIds(s)| <= s.bounds.maxQueued + 1
  {
    hide Listed, QueueInOrder, QueueHoldsQueued, JobsOk;
    var live := LiveIds(s);
    var queued := QueuedIds(s);
    var active := if s.worker.Busy? then {s.worker.id} else {};
    forall id | id in live ensures id in queued + active {
      assert s.jobs[id].status == Queued || Active(s.jobs[id]);
    }
    SubsetBound(live, queued, active);
  }

  lemma SubsetBound(a: set<Id>, b: set<Id>, c: set<Id>)
    requires a <= b + c
    ensures |a| <= |b| + |c|
  {
    SubsetSize(a, b + c);
    assert |b + c| == |b| + |c| - |b * c|;
  }

  ghost function Ids(ids: seq<Id>): set<Id> {
    set id | id in ids
  }

  ghost function LiveIds(s: State): set<Id> {
    set id | id in s.jobs && !Terminal(s.jobs[id].status)
  }

  lemma RemainingSplit(s: State, now: int)
    requires Inv(s)
    ensures |Remaining(s, now)| <= s.bounds.maxQueued + 1 + |DoneIds(s, now)|
  {
    hide QueueInOrder, QueueHoldsQueued, OneActive, WithinBounds, DoneIds, Listed;
    var remaining, done := Remaining(s, now), DoneIds(s, now);
    DoneIdsExact(s, now);
    LiveBounded(s);
    NoDuplicatesSize(done);
    forall id | id in remaining ensures id in LiveIds(s) + Ids(done) {
      assert JobOk(s.jobs[id]);
    }
    SubsetBound(remaining.Keys, LiveIds(s), Ids(done));
    assert |remaining| == |remaining.Keys|;
  }

  lemma DroppedSize(s: State, now: int)
    requires Listed(s)
    ensures Ids(Dropped(s, now)) <= Remaining(s, now).Keys
    ensures |Ids(Dropped(s, now))| == if Excess(s, now) <= |DoneIds(s, now)| then Excess(s, now) else |DoneIds(s, now)|
  {
    hide DoneIds, Excess, Listed;
    DoneIdsExact(s, now);
    NoDuplicatesSize(Dropped(s, now));
    forall id | id in Dropped(s, now) ensures id in Remaining(s, now) {
      assert id in DoneIds(s, now);
    }
  }

  lemma PrunedKeys(s: State, now: int)
    ensures Prune(s, now).jobs.Keys == Remaining(s, now).Keys - Ids(Dropped(s, now))
  {
    hide Dropped, Expired;
  }

  lemma SubsetRemoved(all: set<Id>, gone: set<Id>)
    requires gone <= all
    ensures |all - gone| == |all| - |gone|
  {
    assert all == gone + (all - gone);
  }

  lemma PrunedSize(s: State, now: int)
    requires Ids(Dropped(s, now)) <= Remaining(s, now).Keys
    ensures |Prune(s, now).jobs| == |Remaining(s, now)| - |Ids(Dropped(s, now))|
  {
    hide Dropped, Prune, Remaining, Ids;
    PrunedKeys(s, now);
    SubsetRemoved(Remaining(s, now).Keys, Ids(Dropped(s, now)));
    assert |Prune(s, now).jobs| == |Prune(s, now).jobs.Keys|;
    assert |Remaining(s, now)| == |Remaining(s, now).Keys|;
  }

  /** After pruning no more jobs are kept than the limit: live jobs alone never exceed it. */
  lemma PruneWithinLimit(s: State, now: int)
    requires Inv(s)
    ensures |Prune(s, now).jobs| <= s.bounds.maxRetained
  {
    hide QueueInOrder, QueueHoldsQueued, OneActive, WithinBounds, JobsOk, Listed, Dropped, DoneIds, Prune, Remaining;
    RemainingSplit(s, now);
    DroppedSize(s, now);
    PrunedSize(s, now);
  }

  /** Fewer finished jobs, everything else unchanged. */
  ghost predicate Thinned(s: State, p: State) {
    && (forall id :: id in p.jobs ==> id in s.jobs && p.jobs[id] == s.jobs[id])
    && (forall id :: id in s.jobs && !Terminal(s.jobs[id].status) ==> id in p.jobs)
    && p == s.(jobs := p.jobs, order := p.order)
  }

  lemma ThinnedQueue(s: State, p: State)
    requires Thinned(s, p) && QueueInOrder(s)
    ensures QueueInOrder(p)
  {
  }

  lemma ThinnedHolds(s: State, p: State)
    requires Thinned(s, p) && QueueHoldsQueued(s)
    ensures QueueHoldsQueued(p)
  {
  }

  lemma ThinnedActive(s: State, p: State)
    requires Thinned(s, p) && OneActive(s) && JobsOk(s)
    ensures OneActive(p) && JobsOk(p)
  {
    if s.worker.Busy? {
      assert !Terminal(s.jobs[s.worker.id].status);
    }
  }

  lemma ThinnedCount(s: State, p: State)
    requires Thinned(s, p)
    ensures |QueuedIds(p)| <= |QueuedIds(s)|
  {
    SubsetSize(QueuedIds(p), QueuedIds(s));
  }

  lemma PruneInv(s: State, now: int)
    requires Inv(s)
    ensures Inv(Prune(s, now)) && Thinned(s, Prune(s, now)) && |Prune(s, now).jobs| <= s.bounds.maxRetained
  {
    hide JobOk, Active, Listed, QueueInOrder, QueueHoldsQueued, OneActive, JobsOk, QueuedIds, Kept;
    var p := Prune(s, now);
    PruneKeeps(s, now);
    PruneWithinLimit(s, now);
    ThinnedQueue(s, p);
    ThinnedHolds(s, p);
    ThinnedActive(s, p);
    ThinnedCount(s, p);
  }

  // ---- Every step keeps the invariant ----

  lemma InitialInv(b: Bounds)
    requires ValidBounds(b)
    ensures Inv(Initial(b))
  {
    assert QueuedIds(Initial(b)) == {};
  }

  /** `submit` counts exactly the queued jobs. */
  lemma WaitingCountExact(s: State)
    requires Inv(s)
    ensures WaitingCount(s) == |QueuedIds(s)|
  {
    hide OneActive, WithinBounds, JobsOk, Listed;
    var waiting := Filter(s.queue, IsQueued(s));
    FilterExact(s.queue, IsQueued(s));
    QueueDistinct(s);
    FilterDistinct(s.queue, IsQueued(s));
    NoDuplicatesSize(waiting);
    assert QueuedIds(s) == Ids(waiting);
  }

  lemma QueueDistinct(s: State)
    requires QueueInOrder(s)
    ensures NoDuplicates(s.queue) && forall id :: id in s.queue ==> id in s.issued
  {
  }

  /** Adding a job at the end of everything. */
  function Added(p: State, id: Id, request: string, now: int): State {
    p.(jobs := p.jobs[id := NewJob(request, now)], order := p.order + [id], queue := p.queue + [id],
       issued := p.issued + [id], worker := if p.worker.NoThread? then Waiting else p.worker)
  }

  lemma AddedInv(p: State, id: Id, request: string, now: int)
    requires Inv(p) && id !in p.issued && |p.jobs| <= p.bounds.maxRetained && |QueuedIds(p)| < p.bounds.maxQueued
    ensures Inv(Added(p, id, request, now))
  {
    hide Added, JobOk, Active;
    AddedQueue(p, id, request, now);
    AddedListed(p, id, request, now);
    AddedHolds(p, id, request, now);
    AddedActive(p, id, request, now);
    AddedBounds(p, id, request, now);
  }

  lemma AddedHolds(p: State, id: Id, request: string, now: int)
    requires QueueHoldsQueued(p)
    ensures QueueHoldsQueued(Added(p, id, request, now))
  {
  }

  lemma AddedActive(p: State, id: Id, request: string, now: int)
    requires OneActive(p) && JobsOk(p) && id !in p.jobs
    ensures OneActive(Added(p, id, request, now)) && JobsOk(Added(p, id, request, now))
  {
    hide JobOk;
    NewJobOk(request, now);
  }

  lemma AddedBounds(p: State, id: Id, request: string, now: int)
    requires id !in p.jobs && |p.jobs| <= p.bounds.maxRetained && |QueuedIds(p)| < p.bounds.maxQueued
    ensures WithinBounds(Added(p, id, request, now)) && Added(p, id, request, now).bounds == p.bounds
  {
    assert QueuedIds(Added(p, id, request, now)) == QueuedIds(p) + {id};
  }

  lemma NewJobOk(request: string, now: int)
    ensures JobOk(NewJob(request, now))
  {
  }

  lemma AddedQueue(p: State, id: Id, request: string, now: int)
    requires QueueInOrder(p) && id !in p.issued
    ensures QueueInOrder(Added(p, id, request, now))
  {
    var a := Added(p, id, request, now);
    assert a.issued[|a.issued| - |a.queue|..] == p.issued[|p.issued| - |p.queue|..] + [id];
  }

  lemma AddedListed(p: State, id: Id, request: string, now: int)
    requires Listed(p) && id !in p.jobs
    ensures Listed(Added(p, id, request, now))
  {
  }

  lemma SubmitInv(s: State, a: Action)
    requires Inv(s) && Enabled(s, a) && a.Submit?
    ensures Inv(Step(s, a))
  {
    hide Inv, Prune, Added, QueueHasGap;
    PruneInv(s, a.now);
    var p := Prune(s, a.now);
    if Answer(s, a).Accepted? {
      PrunedCount(s, a.now);
      AddedInv(p, a.id, a.request, a.now);
      StepIsAdded(s, a);
    }
  }

  lemma StepIsAdded(s: State, a: Action)
    requires a.Submit? && Answer(s, a).Accepted?
    ensures Step(s, a) == Added(Prune(s, a.now), a.id, a.request, a.now)
  {
  }

  lemma PrunedCount(s: State, now: int)
    requires Inv(s)
    ensures Prune(s, now).bounds == s.bounds && Prune(s, now).issued == s.issued && Prune(s, now).queue == s.queue
    ensures Inv(Prune(s, now)) && WaitingCount(Prune(s, now)) == |QueuedIds(Prune(s, now))|
  {
    hide Inv, WaitingCount;
    PruneInv(s, now);
    WaitingCountExact(Prune(s, now));
  }

  /** Changing one job in place, by a move that neither starts nor queues it. */
  ghost predicate Settles(s: State, id: Id, j: Job, worker: Worker) {
    && id in s.jobs && JobOk(j) && j.status != Queued
    && (id in s.queue ==> j.status == Cancelled && j.startedAt.None?)
    && (Active(j) <==> worker == Busy(id))
    && (worker.Busy? ==> worker == s.worker)
    && (s.worker.Busy? && s.worker != Busy(id) ==> worker == s.worker)
  }

  lemma SettledInv(s: State, id: Id, j: Job, worker: Worker)
    requires Inv(s) && Settles(s, id, j, worker)
    ensures Inv(s.(jobs := s.jobs[id := j], worker := worker))
  {
    hide JobOk, Active;
    SettledPlaces(s, id, j, worker);
    SettledActive(s, id, j, worker);
    SettledBounds(s, id, j, worker);
  }

  lemma SettledPlaces(s: State, id: Id, j: Job, worker: Worker)
    requires Listed(s) && QueueInOrder(s) && QueueHoldsQueued(s) && Settles(s, id, j, worker)
    ensures var t := s.(jobs := s.jobs[id := j], worker := worker);
            Listed(t) && QueueInOrder(t) && QueueHoldsQueued(t)
  {
    hide JobOk, Active, Listed, QueueInOrder;
    var t := s.(jobs := s.jobs[id := j], worker := worker);
    assert t.jobs.Keys == s.jobs.Keys;
    SameListed(s, t);
    SameQueue(s, t);
  }

  lemma SameListed(s: State, t: State)
    requires Listed(s) && t.order == s.order && t.jobs.Keys == s.jobs.Keys
    ensures Listed(t)
  {
  }

  lemma SettledActive(s: State, id: Id, j: Job, worker: Worker)
    requires OneActive(s) && JobsOk(s) && Settles(s, id, j, worker)
    ensures var t := s.(jobs := s.jobs[id := j], worker := worker);
            OneActive(t) && JobsOk(t)
  {
    hide JobOk, Active;
  }

  lemma SettledBounds(s: State, id: Id, j: Job, worker: Worker)
    requires WithinBounds(s) && id in s.jobs && j.status != Queued
    ensures WithinBounds(s.(jobs := s.jobs[id := j], worker := worker))
  {
    var t := s.(jobs := s.jobs[id := j], worker := worker);
    SubsetSize(QueuedIds(t), QueuedIds(s));
    assert t.jobs.Keys == s.jobs.Keys;
    assert |t.jobs| == |t.jobs.Keys| && |s.jobs| == |s.jobs.Keys|;
  }

  lemma CancelInv(s: State, a: Action)
    requires Inv(s) && a.Cancel?
    ensures Inv(Step(s, a))
  {
    hide Inv, Prune;
    PruneInv(s, a.now);
    var p := Prune(s, a.now);
    if a.id in p.jobs {
      CancelOneInv(p, a.id, a.now);
    }
  }

  lemma CancelOneInv(p: State, id: Id, now: int)
    requires Inv(p) && id in p.jobs
    ensures Inv(p.(jobs := p.jobs[id := CancelJob(p.jobs[id], now)]))
  {
    var j := CancelJob(p.jobs[id], now);
    if p.jobs[id].status in {Queued, Running} {
      CancelSettles(p, id, now);
      SettledInv(p, id, j, p.worker);
      assert p.(jobs := p.jobs[id := j], worker := p.worker) == p.(jobs := p.jobs[id := j]);
    } else {
      assert p.jobs[id := j] == p.jobs;
    }
  }

  lemma CancelSettles(p: State, id: Id, now: int)
    requires Inv(p) && id in p.jobs && p.jobs[id].status in {Queued, Running}
    ensures Settles(p, id, CancelJob(p.jobs[id], now), p.worker)
  {
    hide Listed, QueueInOrder, WithinBounds;
    assert JobOk(p.jobs[id]);
    if id in p.queue {
      assert p.jobs[id].startedAt.None?;
    }
    if p.jobs[id].status == Running {
      assert Active(p.jobs[id]);
    }
  }

  lemma FinishInv(s: State, a: Action)
    requires Inv(s) && Enabled(s, a) && a.Finish?
    ensures Inv(Step(s, a))
  {
    var id := s.worker.id;
    ActiveNotQueued(s, id);
    FinishOk(s.jobs[id], a.outcome, a.now);
    SettledInv(s, id, FinishJob(s.jobs[id], a.outcome, a.now), Cleaning);
  }

  lemma FinishOk(j: Job, outcome: Outcome, now: int)
    requires JobOk(j) && Active(j)
    ensures var k := FinishJob(j, outcome, now);
            JobOk(k) && Terminal(k.status) && !Active(k) && k.status != Queued
    ensures j.status == CancelRequested ==> FinishJob(j, outcome, now).status != Completed
    ensures FinishJob(j, outcome, now).status == Completed <==> outcome.Returned? && j.status == Running
  {
  }

  lemma ActiveNotQueued(s: State, id: Id)
    requires Inv(s) && id in s.jobs && Active(s.jobs[id])
    ensures id !in s.queue && JobOk(s.jobs[id])
  {
  }

  lemma ReportInv(s: State, a: Action)
    requires Inv(s) && Enabled(s, a) && a.Report?
    ensures Inv(Step(s, a))
  {
    var id := s.worker.id;
    ActiveNotQueued(s, id);
    var j := s.jobs[id].(stage := Some(a.stage));
    assert JobOk(j);
    SettledInv(s, id, j, s.worker);
    assert s.(jobs := s.jobs[id := j], worker := s.worker) == s.(jobs := s.jobs[id := j]);
  }

  lemma PoppedQueue(s: State)
    requires QueueInOrder(s) && s.queue != []
    ensures QueueInOrder(s.(queue := s.queue[1..]))
  {
    var start := |s.issued| - |s.queue|;
    assert s.issued[start..][1..] == s.issued[start + 1..];
  }

  lemma PoppedInv(s: State)
    requires Inv(s) && s.queue != [] && (s.queue[0] !in s.jobs || s.jobs[s.queue[0]].status != Queued)
    ensures Inv(s.(queue := s.queue[1..]))
  {
    hide JobOk, Active, Listed, QueueInOrder, QueueHoldsQueued;
    var p := s.(queue := s.queue[1..]);
    PoppedQueue(s);
    PoppedListed(s);
    PoppedHolds(s);
    assert QueuedIds(p) == QueuedIds(s);
  }

  lemma PoppedHolds(s: State)
    requires QueueHoldsQueued(s) && s.queue != []
    requires s.queue[0] !in s.jobs || s.jobs[s.queue[0]].status != Queued
    ensures QueueHoldsQueued(s.(queue := s.queue[1..]))
  {
    assert forall id :: id in s.queue <==> id == s.queue[0] || id in s.queue[1..];
  }

  lemma PoppedListed(s: State)
    requires Listed(s) && s.queue != []
    ensures Listed(s.(queue := s.queue[1..]))
  {
  }

  lemma StartedInv(s: State, now: int)
    requires Inv(s) && s.worker.Waiting? && s.queue != []
    requires s.queue[0] in s.jobs && s.jobs[s.queue[0]].status == Queued
    ensures Inv(TakeStep(s, now))
  {
    hide TakeStep, JobOk, Active;
    StartedBounds(s, now);
    StartedListed(s, now);
    StartedQueue(s, now);
    StartedHolds(s, now);
    StartedActive(s, now);
  }

  lemma StartedQueue(s: State, now: int)
    requires QueueInOrder(s) && s.queue != [] && s.queue[0] in s.jobs
    ensures QueueInOrder(TakeStep(s, now))
  {
    PoppedQueue(s);
    SameQueue(s.(queue := s.queue[1..]), TakeStep(s, now));
  }

  lemma SameQueue(s: State, t: State)
    requires QueueInOrder(s) && t.queue == s.queue && t.issued == s.issued && t.jobs.Keys == s.jobs.Keys
    ensures QueueInOrder(t)
  {
  }

  lemma StartedHolds(s: State, now: int)
    requires QueueInOrder(s) && QueueHoldsQueued(s) && s.queue != []
    requires s.queue[0] in s.jobs && s.jobs[s.queue[0]].status == Queued
    ensures QueueHoldsQueued(TakeStep(s, now))
  {
    hide QueueInOrder;
    QueueDistinct(s);
    assert forall i :: i in s.queue <==> i == s.queue[0] || i in s.queue[1..];
    assert s.queue[0] !in s.queue[1..];
  }

  lemma StartedActive(s: State, now: int)
    requires OneActive(s) && JobsOk(s) && s.worker.Waiting? && s.queue != []
    requires s.queue[0] in s.jobs && s.jobs[s.queue[0]].status == Queued
    ensures OneActive(TakeStep(s, now)) && JobsOk(TakeStep(s, now)) && TakeStep(s, now).bounds == s.bounds
  {
  }

  lemma StartedBounds(s: State, now: int)
    requires WithinBounds(s) && s.queue != [] && s.queue[0] in s.jobs && s.jobs[s.queue[0]].status == Queued
    ensures WithinBounds(TakeStep(s, now))
  {
    var t := TakeStep(s, now);
    SubsetSize(QueuedIds(t), QueuedIds(s));
    assert t.jobs.Keys == s.jobs.Keys;
    assert |t.jobs| == |t.jobs.Keys| && |s.jobs| == |s.jobs.Keys|;
  }

  lemma StartedListed(s: State, now: int)
    requires Listed(s) && s.queue != [] && s.queue[0] in s.jobs
    ensures Listed(TakeStep(s, now))
  {
  }

  lemma TakeInv(s: State, a: Action)
    requires Inv(s) && Enabled(s, a) && a.Take?
    ensures Inv(Step(s, a))
  {
    hide JobOk, Active, Listed, QueueInOrder, WithinBounds;
    if s.queue != [] {
      var id := s.queue[0];
      assert id in s.queue;
      if id in s.jobs && s.jobs[id].status == Queued {
        StartedInv(s, a.now);
      } else {
        PoppedInv(s);
      }
    } else {
      IdleInv(s, Exiting);
    }
  }

  lemma IdleInv(s: State, worker: Worker)
    requires Inv(s) && !s.worker.Busy? && !worker.Busy?
    ensures Inv(s.(worker := worker))
  {
    hide JobOk, Active, Listed;
    var t := s.(worker := worker);
    assert QueuedIds(t) == QueuedIds(s);
    SameListed(s, t);
    assert QueueInOrder(t) && QueueHoldsQueued(t);
  }

  lemma ShutdownJobOk(j: Job, now: int)
    requires JobOk(j)
    ensures JobOk(ShutdownJob(j, now)) && ShutdownJob(j, now).status !in {Queued, Running}
    ensures Active(ShutdownJob(j, now)) <==> Active(j)
  {
  }

  lemma ShutdownInv(s: State, a: Action)
    requires Inv(s) && a.Shutdown?
    ensures Inv(Step(s, a))
    ensures forall id :: id in Step(s, a).jobs ==> Step(s, a).jobs[id].status !in {Queued, Running}
  {
    hide JobOk, Active, Listed, QueueInOrder, QueueHoldsQueued, Step;
    ShutdownPlaces(s, a);
    ShutdownHolds(s, a);
    ShutdownActive(s, a);
    ShutdownBounds(s, a);
  }

  lemma ShutdownActive(s: State, a: Action)
    requires OneActive(s) && JobsOk(s) && a.Shutdown?
    ensures OneActive(Step(s, a)) && JobsOk(Step(s, a))
    ensures forall id :: id in Step(s, a).jobs ==> Step(s, a).jobs[id].status !in {Queued, Running}
  {
    hide JobOk, Active, ShutdownJob;
    var t := Step(s, a);
    forall id | id in s.jobs
      ensures JobOk(t.jobs[id]) && t.jobs[id].status !in {Queued, Running}
      ensures Active(t.jobs[id]) <==> Active(s.jobs[id])
    {
      ShutdownJobOk(s.jobs[id], a.now);
    }
  }

  lemma ShutdownHolds(s: State, a: Action)
    requires Inv(s) && a.Shutdown?
    ensures QueueHoldsQueued(Step(s, a))
  {
    hide JobOk, Active, ShutdownJob, Listed, QueueInOrder, Inv;
    ShutdownQueue(s, a);
    InvParts(s);
    ShutdownActive(s, a);
  }

  lemma InvParts(s: State)
    requires Inv(s)
    ensures OneActive(s) && JobsOk(s) && WithinBounds(s)
  {
  }

  lemma ShutdownBounds(s: State, a: Action)
    requires Inv(s) && a.Shutdown?
    ensures WithinBounds(Step(s, a)) && Step(s, a).bounds == s.bounds
  {
    hide ShutdownJob, Inv, OneActive, JobsOk;
    InvParts(s);
    ShutdownActive(s, a);
    var t := Step(s, a);
    assert QueuedIds(t) == {};
    assert t.jobs.Keys == s.jobs.Keys;
    assert |t.jobs| == |t.jobs.Keys| && |s.jobs| == |s.jobs.Keys|;
  }

  lemma ShutdownPlaces(s: State, a: Action)
    requires Listed(s) && QueueInOrder(s) && a.Shutdown?
    ensures Listed(Step(s, a)) && QueueInOrder(Step(s, a))
  {
    hide ShutdownJob;
  }

  lemma ShutdownQueue(s: State, a: Action)
    requires Inv(s) && a.Shutdown?
    ensures forall id :: id in s.queue && id in s.jobs ==>
              Step(s, a).jobs[id].status == Cancelled && Step(s, a).jobs[id].startedAt.None?
  {
  }

  /** Every locked section keeps the invariant. */
  lemma StepInv(s: State, a: Action)
    requires Inv(s) && Enabled(s, a)
    ensures Inv(Step(s, a))
  {
    hide Inv, Prune;
    match a
    case Submit(_, _, _) => SubmitInv(s, a);
    case Get(_, now) => PruneInv(s, now);
    case Cancel(_, _) => CancelInv(s, a);
    case Shutdown(_) => ShutdownInv(s, a);
    case Take(_) => TakeInv(s, a);
    case Report(_) => ReportInv(s, a);
    case Finish(_, _) => FinishInv(s, a);
    case Clean(now) =>
      PruneInv(s, now);
      IdleInv(Prune(s, now), Waiting);
    case EndThread => IdleInv(s, NoThread);
  }

  // ---- How one job moves ----

  /** The status moves of the life cycle. */
  predicate Move(before: Status, after: Status) {
    || before == after
    || (before == Queued && after in {Running, Cancelled})
    || (before == Running && after in {CancelRequested, Completed, Failed, Cancelled})
    || (before == CancelRequested && after in {Failed, Cancelled})
  }

  /** In particular a finished job keeps its status, its result and its completion time. */
  ghost predicate MovesTo(j: Job, k: Job) {
    && Move(j.status, k.status) && k.request == j.request && k.submittedAt == j.submittedAt
    && (Terminal(j.status) ==> k.result == j.result && k.completedAt == j.completedAt && k.startedAt == j.startedAt)
    && (j.startedAt.Some? ==> k.startedAt == j.startedAt)
  }

  /** Every step leaves every job it keeps in place or moves it along the life cycle, keeps every live
      job, and never brings back an id. */
  ghost predicate Moves(s: State, t: State) {
    && (forall id :: id in s.jobs && id in t.jobs ==> MovesTo(s.jobs[id], t.jobs[id]))
    && (forall id :: id in s.jobs && !Terminal(s.jobs[id].status) ==> id in t.jobs)
    && (forall id :: id in t.jobs && id !in s.jobs ==> id !in s.issued)
    && (forall id :: id in s.issued ==> id in t.issued)
  }

  lemma MovesToSelf(j: Job)
    ensures MovesTo(j, j)
  {
  }

  lemma ThinnedMoves(s: State, p: State)
    requires Thinned(s, p)
    ensures Moves(s, p)
  {
    forall id | id in s.jobs && id in p.jobs ensures MovesTo(s.jobs[id], p.jobs[id]) {
      MovesToSelf(s.jobs[id]);
    }
  }

  lemma OneMoves(s: State, t: State, id: Id, j: Job)
    requires id in s.jobs && t.jobs == s.jobs[id := j] && t.issued == s.issued && MovesTo(s.jobs[id], j)
    ensures Moves(s, t)
  {
    forall i | i in s.jobs && i in t.jobs ensures MovesTo(s.jobs[i], t.jobs[i]) {
      MovesToSelf(s.jobs[i]);
    }
  }

  lemma SubmitMoves(s: State, a: Action)
    requires Inv(s) && Enabled(s, a) && a.Submit?
    ensures Moves(s, Step(s, a))
  {
    hide Prune, Moves, QueueHasGap, WaitingCount, Inv, Thinned;
    PruneInv(s, a.now);
    ThinnedMoves(s, Prune(s, a.now));
    if Answer(s, a).Accepted? {
      StepIsAdded(s, a);
      PruneIssued(s, a.now);
      AddedMoves(s, Prune(s, a.now), a.id, a.request, a.now);
    }
  }

  lemma PruneIssued(s: State, now: int)
    requires Inv(s)
    ensures Prune(s, now).issued == s.issued && forall id :: id in s.jobs ==> id in s.issued
  {
  }

  lemma AddedMoves(s: State, p: State, id: Id, request: string, now: int)
    requires Moves(s, p) && p.issued == s.issued && id !in s.issued && forall i :: i in s.jobs ==> i in s.issued
    ensures Moves(s, Added(p, id, request, now))
  {
    hide MovesTo;
  }

  lemma StepMoves(s: State, a: Action)
    requires Inv(s) && Enabled(s, a)
    ensures Moves(s, Step(s, a))
  {
    hide Inv, Prune, Moves, MovesTo, CancelJob, FinishJob, ShutdownJob;
    match a
    case Submit(_, _, _) => SubmitMoves(s, a);
    case Get(_, now) =>
      PruneInv(s, now);
      ThinnedMoves(s, Prune(s, now));
    case Cancel(id, now) => CancelMoves(s, a);
    case Shutdown(now) => ShutdownMoves(s, a);
    case Take(now) => TakeMoves(s, now);
    case Report(stage) => WorkerMoves(s, a);
    case Finish(outcome, now) => WorkerMoves(s, a);
    case Clean(now) =>
      PruneInv(s, now);
      ThinnedMoves(s, Prune(s, now));
      SameJobsMove(s, Prune(s, now), Step(s, a));
    case EndThread =>
      ThinnedMoves(s, s) by {
        ThinnedSelf(s);
      }
      SameJobsMove(s, s, Step(s, a));
  }

  lemma ThinnedSelf(s: State)
    ensures Thinned(s, s)
  {
  }

  lemma SameJobsMove(s: State, p: State, t: State)
    requires Moves(s, p) && t.jobs == p.jobs && t.issued == p.issued
    ensures Moves(s, t)
  {
    hide MovesTo;
  }

  lemma CancelMoves(s: State, a: Action)
    requires Inv(s) && a.Cancel?
    ensures Moves(s, Step(s, a))
  {
    hide Inv, Prune, Moves;
    PruneInv(s, a.now);
    var p := Prune(s, a.now);
    ThinnedMoves(s, p);
    if a.id in p.jobs {
      CancelMovesAfter(s, p, a.id, a.now);
    }
  }

  lemma CancelMovesAfter(s: State, p: State, id: Id, now: int)
    requires Thinned(s, p) && id in p.jobs
    ensures Moves(s, p.(jobs := p.jobs[id := CancelJob(p.jobs[id], now)]))
  {
    ThinnedMoves(s, p);
  }

  lemma ShutdownMoves(s: State, a: Action)
    requires Inv(s) && a.Shutdown?
    ensures Moves(s, Step(s, a))
  {
    hide Inv;
  }

  lemma TakeMoves(s: State, now: int)
    requires Inv(s)
    ensures Moves(s, TakeStep(s, now))
  {
    hide Listed, QueueInOrder, OneActive, WithinBounds;
    if s.queue != [] && s.queue[0] in s.jobs {
      assert s.queue[0] in s.queue;
    }
  }

  lemma WorkerMoves(s: State, a: Action)
    requires Inv(s) && Enabled(s, a) && (a.Report? || a.Finish?)
    ensures Moves(s, Step(s, a))
  {
    hide Listed, QueueInOrder, QueueHoldsQueued, WithinBounds, Moves;
    var id := s.worker.id;
    assert JobOk(s.jobs[id]);
    OneMoves(s, Step(s, a), id, Step(s, a).jobs[id]);
  }

  // ---- Whole runs ----

  /** A run: any interleaving of enabled steps from the empty manager. */
  ghost predicate IsRun(states: seq<State>, actions: seq<Action>) {
    && |states| == |actions| + 1
    && ValidBounds(states[0].bounds) && states[0] == Initial(states[0].bounds)
    && forall i :: 0 <= i < |actions| ==> Enabled(states[i], actions[i]) && states[i + 1] == Step(states[i], actions[i])
  }

  lemma {:induction false} RunInv(states: seq<State>, actions: seq<Action>, i: nat)
    requires IsRun(states, actions) && i < |states|
    ensures Inv(states[i])
  {
    hide Inv, Enabled, Step;
    if i == 0 {
      InitialInv(states[0].bounds);
    } else {
      RunInv(states, actions, i - 1);
      StepInv(states[i - 1], actions[i - 1]);
    }
  }

  /** At every moment of every run: at most one job is active, and it is the worker's; a job has a result
      exactly when it completed; the queued jobs stay within the bound and each is in the queue once;
      and no more than one job above the retention limit is held. */
  lemma RunIsSafe(states: seq<State>, actions: seq<Action>, i: nat)
    requires IsRun(states, actions) && i < |states|
    ensures forall a, b ::
              && a in states[i].jobs && b in states[i].jobs
              && Active(states[i].jobs[a]) && Active(states[i].jobs[b]) ==>
                a == b && states[i].worker == Busy(a)
    ensures forall a :: a in states[i].jobs ==>
        (states[i].jobs[a].result.Some? <==> states[i].jobs[a].status == Completed)
    ensures |QueuedIds(states[i])| <= states[i].bounds.maxQueued
    ensures forall a :: a in QueuedIds(states[i]) ==> multiset(states[i].queue)[a] == 1
    ensures |states[i].jobs| <= states[i].bounds.maxRetained + 1
  {
    hide IsRun, Active;
    RunInv(states, actions, i);
    QueueDistinct(states[i]);
    forall a | a in QueuedIds(states[i]) ensures multiset(states[i].queue)[a] == 1 {
      NoDuplicatesCount(states[i].queue, a);
    }
  }

  lemma RunStep(states: seq<State>, actions: seq<Action>, i: nat)
    requires IsRun(states, actions) && i < |actions|
    ensures Inv(states[i]) && Enabled(states[i], actions[i]) && states[i + 1] == Step(states[i], actions[i])
    ensures Moves(states[i], states[i + 1])
  {
    hide Inv, Enabled, Step, Moves;
    RunInv(states, actions, i);
    StepMoves(states[i], actions[i]);
  }

  /** The job is gone, or has the status, result and completion time of `j`. */
  ghost predicate FinalAs(s: State, id: Id, j: Job) {
    && id in s.issued
    && (id in s.jobs ==>
      s.jobs[id].status == j.status && s.jobs[id].result == j.result && s.jobs[id].completedAt == j.completedAt)
  }

  lemma FinalMoves(s: State, t: State, id: Id, j: Job)
    requires Moves(s, t) && FinalAs(s, id, j) && Terminal(j.status)
    ensures FinalAs(t, id, j)
  {
  }

  lemma JobsIssued(s: State, id: Id)
    requires Inv(s) && id in s.jobs
    ensures id in s.issued
  {
  }

  /** Finished is final: a finished job is later either gone or unchanged in status, result and times. */
  lemma {:induction false} TerminalIsFinal(states: seq<State>, actions: seq<Action>, i: nat, j: nat, id: Id)
    requires IsRun(states, actions) && i <= j < |states|
    requires id in states[i].jobs && Terminal(states[i].jobs[id].status)
    ensures FinalAs(states[j], id, states[i].jobs[id])
    decreases j - i
  {
    hide Enabled, Step, Moves, Inv, Terminal;
    if i == j {
      RunInv(states, actions, i);
      JobsIssued(states[i], id);
    } else {
      TerminalIsFinal(states, actions, i, j - 1, id);
      RunStep(states, actions, j - 1);
      FinalMoves(states[j - 1], states[j], id, states[i].jobs[id]);
    }
  }

  ghost predicate NeverCompleting(s: State, id: Id) {
    id in s.issued && (id in s.jobs ==> s.jobs[id].status in {CancelRequested, Failed, Cancelled})
  }

  lemma NeverCompletingMoves(s: State, t: State, id: Id)
    requires Moves(s, t) && NeverCompleting(s, id)
    ensures NeverCompleting(t, id)
  {
  }

  /** Once cancellation of a job has been requested or granted, it never completes. */
  lemma {:induction false} RequestedNeverCompletes(states: seq<State>, actions: seq<Action>, i: nat, j: nat, id: Id)
    requires IsRun(states, actions) && i <= j < |states|
    requires id in states[i].jobs && states[i].jobs[id].status in {CancelRequested, Cancelled}
    ensures NeverCompleting(states[j], id)
    decreases j - i
  {
    hide Enabled, Step, Moves, Inv;
    if i == j {
      RunInv(states, actions, i);
      JobsIssued(states[i], id);
    } else {
      RequestedNeverCompletes(states, actions, i, j - 1, id);
      RunStep(states, actions, j - 1);
      NeverCompletingMoves(states[j - 1], states[j], id);
    }
  }

  /** After a shutdown no job of the time ever completes that had not completed already. */
  lemma ShutdownSettles(states: seq<State>, actions: seq<Action>, i: nat, j: nat, id: Id)
    requires IsRun(states, actions) && i < j < |states| && actions[i].Shutdown?
    requires id in states[i].jobs && states[i].jobs[id].status != Completed
    ensures NeverCompleting(states[j], id)
  {
    hide Enabled, Step, Moves, Inv;
    RunStep(states, actions, i);
    ShutdownStops(states[i], actions[i], id);
    if states[i + 1].jobs[id].status == Failed {
      TerminalIsFinal(states, actions, i + 1, j, id);
    } else {
      RequestedNeverCompletes(states, actions, i + 1, j, id);
    }
  }

  lemma ShutdownStops(s: State, a: Action, id: Id)
    requires Inv(s) && a.Shutdown? && id in s.jobs && s.jobs[id].status != Completed
    ensures id in Step(s, a).jobs && Step(s, a).jobs[id].status in {CancelRequested, Failed, Cancelled}
  {
  }

  /** A job stays known, under the same id, for as long as it is not finished. */
  lemma LiveIsKept(states: seq<State>, actions: seq<Action>, i: nat, id: Id)
    requires IsRun(states, actions) && i < |actions| && id in states[i].jobs && !Terminal(states[i].jobs[id].status)
    ensures id in states[i + 1].jobs && Move(states[i].jobs[id].status, states[i + 1].jobs[id].status)
  {
    hide Enabled, Step, Inv;
    RunStep(states, actions, i);
  }

  /** Jobs start in the order in which they were accepted. */
  lemma FirstComeFirstServed(states: seq<State>, actions: seq<Action>, i: nat, p: nat, q: nat)
    requires IsRun(states, actions) && i < |states| && p < q < |states[i].issued|
    requires states[i].issued[q] in states[i].jobs && states[i].jobs[states[i].issued[q]].startedAt.Some?
    ensures states[i].issued[p] in states[i].jobs ==> states[i].jobs[states[i].issued[p]].status != Queued
  {
    hide IsRun;
    RunInv(states, actions, i);
    if states[i].issued[p] in states[i].queue {
      QueueIsSuffix(states[i], p, q);
    }
  }

  lemma QueueIsSuffix(s: State, p: nat, q: nat)
    requires QueueInOrder(s) && p < q < |s.issued| && s.issued[p] in s.queue
    ensures s.issued[q] in s.queue
  {
    var start := |s.issued| - |s.queue|;
    var k :| 0 <= k < |s.queue| && s.queue[k] == s.issued[p];
    assert s.issued[start + k] == s.issued[p];
    assert start + k == p;
    assert s.queue[q - start] == s.issued[q];
  }

  // ---- When `submit` fails with a lookup error ----

  /** A queued id names no job, or a cancelled one that pruning would remove. */
  ghost predicate GapAt(s: State, now: int) {
    exists id :: id in s.queue && (id !in s.jobs || (s.jobs[id].status == Cancelled && !Kept(s, now)(id)))
  }

  /** `submit` fails in its lookup exactly when the queue still holds the id of a job that is gone, or
      of a cancelled job that the pruning it starts with removes. */
  lemma SubmitLookupFails(s: State, a: Action)
    requires Inv(s) && a.Submit?
    ensures Answer(s, a).LookupFailed? <==> GapAt(s, a.now)
  {
    hide Kept, Listed, QueueInOrder, OneActive, WithinBounds, WaitingCount, JobOk;
    PruneInv(s, a.now);
    var p := Prune(s, a.now);
    if QueueHasGap(p) {
      var i :| 0 <= i < |p.queue| && p.queue[i] !in p.jobs;
      assert p.queue[i] in s.queue;
    }
    if id :| id in s.queue && (id !in s.jobs || (s.jobs[id].status == Cancelled && !Kept(s, a.now)(id))) {
      var i :| 0 <= i < |s.queue| && s.queue[i] == id;
      assert p.queue[i] !in p.jobs;
    }
  }

  /** While the queue holds such an id every submission fails, and only the worker's next take can
      remove it. */
  lemma GapRemains(s: State, a: Action, id: Id)
    requires Inv(s) && Enabled(s, a) && id in s.queue && id !in s.jobs
    ensures a.Submit? ==> Answer(s, a).LookupFailed?
    ensures id in Step(s, a).queue || (a.Take? && id == s.queue[0])
    ensures id !in Step(s, a).jobs
  {
    hide Kept, Listed, QueueHoldsQueued, OneActive, WithinBounds, WaitingCount, JobsOk, CancelJob, FinishJob,
      ShutdownJob;
    QueueDistinct(s);
    if a.Submit? {
      var i :| 0 <= i < |s.queue| && s.queue[i] == id;
      assert Prune(s, a.now).queue[i] !in Prune(s, a.now).jobs;
    }
  }

  /** From the first gap until the worker takes a job, every submission of the run fails. */
  lemma {:induction false} SubmitsFailUntilTake(states: seq<State>, actions: seq<Action>, i: nat, j: nat, id: Id)
    requires IsRun(states, actions) && i <= j < |actions| && id in states[i].queue && id !in states[i].jobs
    requires forall k :: i <= k < j ==> !actions[k].Take?
    ensures id in states[j].queue && id !in states[j].jobs
    ensures actions[j].Submit? ==> Answer(states[j], actions[j]).LookupFailed?
    decreases j - i
  {
    hide Inv, Enabled, Step, Answer, Moves;
    if i < j {
      SubmitsFailUntilTake(states, actions, i, j - 1, id);
      RunStep(states, actions, j - 1);
      GapRemains(states[j - 1], actions[j - 1], id);
    }
    RunStep(states, actions, j);
    GapRemains(states[j], actions[j], id);
  }

  /** Pruning does nothing while no job is finished and there is room. */
  lemma PruneNothing(s: State, now: int)
    requires Listed(s) && JobsOk(s) && |s.jobs| <= s.bounds.maxRetained
    requires forall id :: id in s.jobs ==> !Terminal(s.jobs[id].status)
    ensures Prune(s, now) == s
  {
    hide Dropped, Listed;
    PruneKeeps(s, now);
    assert Prune(s, now).jobs == s.jobs;
    NothingDropped(s, now);
    FilterAll(s.order, Kept(s, now));
  }

  lemma NothingDropped(s: State, now: int)
    requires Listed(s) && forall id :: id in s.jobs ==> !Terminal(s.jobs[id].status)
    ensures forall id :: id in s.order ==> Kept(s, now)(id)
  {
    hide Dropped;
    forall id | id in s.order ensures Kept(s, now)(id) {
      if id in Dropped(s, now) {
        DroppedAreDone(s, now, id);
      }
    }
  }

  // ---- The lookup failure is reachable ----

  lemma AcceptedStep(s: State, a: Action)
    requires Inv(s) && a.Submit? && s.queue == [] && |s.jobs| <= s.bounds.maxRetained
    requires forall id :: id in s.jobs ==> !Terminal(s.jobs[id].status)
    ensures Answer(s, a).Accepted? && Step(s, a) == Added(s, a.id, a.request, a.now)
  {
    hide Prune, Added, Inv;
    PrunesOk(s);
    PruneNothing(s, a.now);
    assert !QueueHasGap(s) && WaitingCount(s) == 0;
    StepIsAdded(s, a);
  }

  lemma PrunesOk(s: State)
    requires Inv(s)
    ensures Listed(s) && JobsOk(s) && s.bounds.maxQueued >= 1
  {
  }

  /** With any bounds: a job runs, a second one waits and is cancelled, and a third is submitted after
      the retention time of the second has passed. */
  lemma LookupFailureIsReachable(b: Bounds) returns (states: seq<State>, actions: seq<Action>, last: Action)
    requires ValidBounds(b)
    ensures IsRun(states, actions) && states[0].bounds == b
    ensures last.Submit? && Enabled(states[|actions|], last) && Answer(states[|actions|], last).LookupFailed?
  {
    hide Inv, Prune, Answer;
    actions := [Submit("a", "", 0), Take(0), Submit("b", "", 0), Cancel("b", 0)];
    last := Submit("c", "", b.retention + 1);
    var s0 := Initial(b);
    InitialInv(b);
    AcceptedStep(s0, actions[0]);
    StepInv(s0, actions[0]);
    var s1 := Step(s0, actions[0]);
    StepInv(s1, actions[1]);
    var s2 := Step(s1, actions[1]);
    AcceptedStep(s2, actions[2]);
    StepInv(s2, actions[2]);
    var s3 := Step(s2, actions[2]);
    CancelledLater(s3, b, last);
    StepInv(s3, actions[3]);
    var s4 := Step(s3, actions[3]);
    states := [s0, s1, s2, s3, s4];
  }

  lemma CancelledLater(s: State, b: Bounds, last: Action)
    requires Inv(s) && s.bounds == b && s.queue == ["b"] && "b" in s.jobs && s.jobs["b"].status == Queued
    requires |s.jobs| <= b.maxRetained && forall id :: id in s.jobs ==> !Terminal(s.jobs[id].status)
    requires last == Submit("c", "", b.retention + 1)
    ensures Answer(Step(s, Cancel("b", 0)), last).LookupFailed?
    ensures Step(s, Cancel("b", 0)).issued == s.issued
  {
    hide Prune, Inv, Answer;
    PrunesOk(s);
    PruneNothing(s, 0);
    StepInv(s, Cancel("b", 0));
    var t := Step(s, Cancel("b", 0));
    assert "b" in t.queue && t.jobs["b"].status == Cancelled && Expired(t, b.retention + 1, "b");
    SubmitLookupFails(t, last);
  }

  // ---- A worker that is ending ----

  /** A worker thread leaves its loop exactly when it finds the queue empty after a shutdown. */
  lemma ExitingEntered(s: State, a: Action)
    requires Enabled(s, a)
    ensures !s.worker.Exiting? && Step(s, a).worker.Exiting? <==> a.Take? && s.queue == []
    ensures a.Take? && s.queue == [] ==> s.shutdown
  {
    hide Prune, Answer, CancelJob, FinishJob, ShutdownJob;
    PruneLeaves(s, if a.Submit? || a.Get? || a.Cancel? || a.Clean? then a.now else 0);
  }

  lemma PruneLeaves(s: State, now: int)
    ensures Prune(s, now).worker == s.worker && Prune(s, now).queue == s.queue && Prune(s, now).issued == s.issued
    ensures Prune(s, now).bounds == s.bounds && Prune(s, now).shutdown == s.shutdown
  {
  }

  /** An accepted job waits in the queue. `submit` leaves a thread that is leaving its loop alone and starts
      none, and then the thread ends with the job still queued; otherwise there is a thread that goes on. */
  lemma AcceptedWithoutWorker(s: State, a: Action)
    requires Inv(s) && Enabled(s, a) && a.Submit? && Answer(s, a).Accepted?
    ensures var t := Step(s, a);
            && (t.worker.Exiting? <==> s.worker.Exiting?) && !t.worker.NoThread?
            && a.id in t.jobs && t.jobs[a.id].status == Queued && a.id in t.queue
            && (s.worker.Exiting? ==> Step(t, EndThread) == t.(worker := NoThread))
  {
    hide Prune, Answer, Inv;
    PruneLeaves(s, a.now);
    StepIsAdded(s, a);
  }

  /** The job has been accepted, and while it is in the queue there is a thread that will go on taking jobs. */
  ghost predicate Served(s: State, id: Id) {
    id in s.issued && (s.worker.NoThread? || s.worker.Exiting? ==> id !in s.queue)
  }

  lemma ServedStep(s: State, a: Action, id: Id)
    requires Enabled(s, a) && Served(s, id)
    ensures Served(Step(s, a), id)
  {
    hide Prune, Answer, CancelJob, FinishJob, ShutdownJob;
    PruneLeaves(s, if a.Submit? || a.Get? || a.Cancel? || a.Clean? then a.now else 0);
  }

  /** A job accepted while the worker is not leaving its loop is never left in the queue without a thread
      that will take it, however the run goes on. */
  lemma {:induction false} StaysServed(states: seq<State>, actions: seq<Action>, i: nat, j: nat)
    requires IsRun(states, actions) && i < |actions| && i < j < |states|
    requires actions[i].Submit? && Answer(states[i], actions[i]).Accepted? && !states[i].worker.Exiting?
    ensures Served(states[j], actions[i].id)
    decreases j
  {
    hide Inv, Enabled, Step, Answer, Moves, Served;
    if i + 1 < j {
      StaysServed(states, actions, i, j - 1);
      RunStep(states, actions, j - 1);
      ServedStep(states[j - 1], actions[j - 1], actions[i].id);
    } else {
      RunStep(states, actions, i);
      AcceptedServed(states[i], actions[i]);
    }
  }

  lemma AcceptedServed(s: State, a: Action)
    requires Inv(s) && Enabled(s, a) && a.Submit? && Answer(s, a).Accepted? && !s.worker.Exiting?
    ensures Served(Step(s, a), a.id)
  {
    hide Prune, Answer, Inv;
    PruneLeaves(s, a.now);
    StepIsAdded(s, a);
  }

  /** Some run that goes on from step `i` ends with the job queued and no thread. */
  ghost predicate CanStrand(states: seq<State>, actions: seq<Action>, i: nat, id: Id)
    requires i < |actions| && i + 1 < |states|
  {
    exists later: seq<State>, acts: seq<Action> ::
      IsRun(later, acts) && i < |acts| && later[..i + 2] == states[..i + 2] && acts[..i + 1] == actions[..i + 1]
      && EndsStranded(later, id)
  }

  ghost predicate EndsStranded(states: seq<State>, id: Id) {
    states != []
    && var last := states[|states| - 1];
       last.worker.NoThread? && id in last.queue && id in last.jobs && last.jobs[id].status == Queued
  }

  /** An accepted job can be left queued with no thread exactly when the worker was leaving its loop at the
      time of its submission. */
  lemma StrandedIff(states: seq<State>, actions: seq<Action>, i: nat)
    requires IsRun(states, actions) && i < |actions|
    requires actions[i].Submit? && Answer(states[i], actions[i]).Accepted?
    ensures CanStrand(states, actions, i, actions[i].id) <==> states[i].worker.Exiting?
  {
    hide Inv, Enabled, Step, Answer, Moves, Served, EndsStranded;
    var id := actions[i].id;
    if states[i].worker.Exiting? {
      var later, acts := states[..i + 2] + [Step(states[i + 1], EndThread)], actions[..i + 1] + [EndThread];
      RunStep(states, actions, i);
      AcceptedWithoutWorker(states[i], actions[i]);
      ExtendedRun(states, actions, i);
      assert later[..i + 2] == states[..i + 2] && acts[..i + 1] == actions[..i + 1];
      ThreadEnds(states[i + 1], later, id);
    } else if CanStrand(states, actions, i, id) {
      var later, acts :| IsRun(later, acts) && i < |acts| && later[..i + 2] == states[..i + 2]
                         && acts[..i + 1] == actions[..i + 1] && EndsStranded(later, id);
      assert later[i] == later[..i + 2][i] == states[i] && acts[i] == acts[..i + 1][i] == actions[i];
      StaysServed(later, acts, i, |later| - 1);
      ServedIsNotStranded(later, id);
    }
  }

  lemma ServedIsNotStranded(states: seq<State>, id: Id)
    requires states != [] && Served(states[|states| - 1], id)
    ensures !EndsStranded(states, id)
  {
  }

  lemma ThreadEnds(s: State, states: seq<State>, id: Id)
    requires states != [] && states[|states| - 1] == s.(worker := NoThread)
    requires id in s.queue && id in s.jobs && s.jobs[id].status == Queued
    ensures EndsStranded(states, id)
  {
  }

  lemma ExtendedRun(states: seq<State>, actions: seq<Action>, i: nat)
    requires IsRun(states, actions) && i < |actions| && states[i + 1].worker.Exiting?
    ensures IsRun(states[..i + 2] + [Step(states[i + 1], EndThread)], actions[..i + 1] + [EndThread])
  {
    hide Step;
    var later, acts := states[..i + 2] + [Step(states[i + 1], EndThread)], actions[..i + 1] + [EndThread];
    forall k | 0 <= k < |acts| ensures Enabled(later[k], acts[k]) && later[k + 1] == Step(later[k], acts[k]) {
      if k <= i {
        assert later[k] == states[k] && later[k + 1] == states[k + 1] && acts[k] == actions[k];
      }
    }
  }

  lemma PruneKeepsQueued(s: State, now: int)
    requires Inv(s)
    ensures QueuedIds(Prune(s, now)) == QueuedIds(s)
  {
    hide Inv, Prune;
    PruneInv(s, now);
  }

  /** A submission is accepted exactly when there is no gap in the queue and fewer jobs wait than the bound. */
  lemma AcceptedIff(s: State, a: Action)
    requires Inv(s) && a.Submit?
    ensures Answer(s, a).Accepted? <==> !GapAt(s, a.now) && |QueuedIds(s)| < s.bounds.maxQueued
    ensures Answer(s, a).LookupFailed? <==> GapAt(s, a.now)
    ensures Answer(s, a).QueueFull? <==> !GapAt(s, a.now) && |QueuedIds(s)| == s.bounds.maxQueued
  {
    hide Inv, Prune, Kept, QueueHasGap, WaitingCount;
    SubmitLookupFails(s, a);
    PrunedCount(s, a.now);
    PruneKeepsQueued(s, a.now);
    QueuedWithin(s);
  }

  lemma QueuedWithin(s: State)
    requires Inv(s)
    ensures |QueuedIds(s)| <= s.bounds.maxQueued
  {
  }

  lemma StillNoThread(s: State, a: Action)
    requires Inv(s) && Enabled(s, a) && s.worker.NoThread? && !(a.Submit? && Answer(s, a).Accepted?)
    ensures !a.Take? && Step(s, a).worker.NoThread? && Step(s, a).queue == s.queue
    ensures Step(s, a).bounds == s.bounds
    ensures !a.Cancel? && !a.Shutdown? ==> QueuedIds(Step(s, a)) == QueuedIds(s)
  {
    hide Prune, Answer, Inv, CancelJob, ShutdownJob;
    if a.Submit? || a.Get? || a.Cancel? {
      PruneLeaves(s, a.now);
      PruneKeepsQueued(s, a.now);
    }
  }

  /** Once there is no worker thread, no job is taken and the queue does not change until a submission is
      accepted. */
  lemma {:induction false} NothingTakenUntilAccepted(states: seq<State>, actions: seq<Action>, i: nat, j: nat)
    requires IsRun(states, actions) && i <= j < |states| && states[i].worker.NoThread?
    requires forall k :: i <= k < j ==> !(actions[k].Submit? && Answer(states[k], actions[k]).Accepted?)
    ensures states[j].worker.NoThread? && states[j].queue == states[i].queue
    ensures forall k :: i <= k < j ==> !actions[k].Take?
    decreases j - i
  {
    hide Inv, Enabled, Step, Answer, Moves;
    if i < j {
      NothingTakenUntilAccepted(states, actions, i, j - 1);
      RunStep(states, actions, j - 1);
      StillNoThread(states[j - 1], actions[j - 1]);
    }
  }

  /** With no worker thread and as many waiting jobs as the bound allows, every submission is refused before
      it could start a thread, for as long as no job is cancelled and nothing is shut down. */
  lemma {:induction false} FullQueueStaysStranded(states: seq<State>, actions: seq<Action>, i: nat, j: nat)
    requires IsRun(states, actions) && i <= j < |states| && states[i].worker.NoThread?
    requires |QueuedIds(states[i])| == states[i].bounds.maxQueued
    requires forall k :: i <= k < j ==> !actions[k].Cancel? && !actions[k].Shutdown?
    ensures states[j].worker.NoThread? && states[j].bounds == states[i].bounds
    ensures QueuedIds(states[j]) == QueuedIds(states[i])
    ensures forall a: Action :: a.Submit? ==> !Answer(states[j], a).Accepted?
    decreases j - i
  {
    hide Inv, Enabled, Step, Answer, Moves, QueuedIds;
    if i < j {
      FullQueueStaysStranded(states, actions, i, j - 1);
      RunStep(states, actions, j - 1);
      StillNoThread(states[j - 1], actions[j - 1]);
    }
    RunInv(states, actions, j);
    forall a: Action | a.Submit? ensures !Answer(states[j], a).Accepted? {
      AcceptedIff(states[j], a);
    }
  }

  lemma EmptyQueueAccepts(s: State, a: Action)
    requires Inv(s) && a.Submit? && s.queue == []
    ensures Answer(s, a).Accepted?
  {
    hide Kept;
    assert QueuedIds(s) == {};
    AcceptedIff(s, a);
  }

  /** For any bounds a run reaches a state with a queued job and no worker thread. When one waiting job fills
      the queue, no further submission is accepted in it. */
  lemma StrandedIsReachable(b: Bounds) returns (states: seq<State>, actions: seq<Action>)
    requires ValidBounds(b)
    ensures IsRun(states, actions) && states[0].bounds == b
    ensures var last := states[|actions|];
            && last.worker.NoThread? && last.queue == ["b"] && "b" in last.jobs && last.jobs["b"].status == Queued
            && (b.maxQueued == 1 ==> forall a: Action :: a.Submit? ==> !Answer(last, a).Accepted?)
  {
    hide Inv, Prune, Answer, ShutdownJob;
    actions := [Submit("a", "", 0), Shutdown(0), Take(0), Take(0), Submit("b", "", 0), EndThread];
    var s0 := Initial(b);
    InitialInv(b);
    EmptyQueueAccepts(s0, actions[0]);
    AcceptedAlone(s0, actions[0]);
    StepInv(s0, actions[0]);
    var s1 := Step(s0, actions[0]);
    StepInv(s1, actions[1]);
    var s2 := Step(s1, actions[1]);
    ShutdownCancels(s1, actions[1], "a");
    StepInv(s2, actions[2]);
    var s3 := Step(s2, actions[2]);
    StepInv(s3, actions[3]);
    var s4 := Step(s3, actions[3]);
    EmptyQueueAccepts(s4, actions[4]);
    AcceptedAlone(s4, actions[4]);
    StepInv(s4, actions[4]);
    var s5 := Step(s4, actions[4]);
    StepInv(s5, actions[5]);
    var s6 := Step(s5, actions[5]);
    states := [s0, s1, s2, s3, s4, s5, s6];
    LastIsFull(s6, "b");
  }

  lemma AcceptedAlone(s: State, a: Action)
    requires Inv(s) && a.Submit? && s.queue == [] && Answer(s, a).Accepted?
    ensures var t := Step(s, a);
            && t.queue == [a.id] && a.id in t.jobs && t.jobs[a.id].status == Queued && t.shutdown == s.shutdown
            && t.worker == (if s.worker.NoThread? then Waiting else s.worker)
            && t.issued == s.issued + [a.id] && t.bounds == s.bounds
  {
    hide Prune, Answer, Inv;
    PruneLeaves(s, a.now);
    StepIsAdded(s, a);
  }

  lemma ShutdownCancels(s: State, a: Action, id: Id)
    requires a.Shutdown? && id in s.jobs && s.jobs[id].status == Queued
    ensures var t := Step(s, a);
            && id in t.jobs && t.jobs[id].status == Cancelled && t.queue == s.queue && t.issued == s.issued
            && t.worker == s.worker && t.shutdown && t.bounds == s.bounds
  {
  }

  lemma LastIsFull(s: State, id: Id)
    requires Inv(s) && id in s.jobs && s.jobs[id].status == Queued
    ensures s.bounds.maxQueued == 1 ==> forall a: Action :: a.Submit? ==> !Answer(s, a).Accepted?
  {
    hide Answer, Inv;
    QueuedWithin(s);
    assert id in QueuedIds(s);
    forall a: Action | a.Submit? ensures s.bounds.maxQueued == 1 ==> !Answer(s, a).Accepted? {
      AcceptedIff(s, a);
    }
  }
}
