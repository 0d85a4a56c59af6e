/** The job manager itself: its fields and its locked sections, each proved to be the step of the same
    name (backend/src/verilogic_ns_api/orchestration/jobs.py). */
module JobManager {
  import opened Logic
  import opened Keys
  import opened StableSort
  import opened Jobs

  lemma {:induction false} FilterTwice(ids: seq<Id>, p: Id -> bool, q: Id -> bool, both: Id -> bool)
    requires forall id :: both(id) <==> p(id) && q(id)
    ensures Filter(Filter(ids, p), q) == Filter(ids, both)
  {
    if ids != [] {
      FilterTwice(ids[1..], p, q, both);
      FilterCons(ids[0], Filter(ids[1..], p), q);
    }
  }

  lemma {:induction false} InsertSameKey(id: Id, ids: seq<Id>, k: Id -> Key, m: Id -> Key)
    requires k(id) == m(id) && forall i :: i in ids ==> k(i) == m(i)
    ensures Insert(id, ids, k) == Insert(id, ids, m)
  {
    hide Leq;
    if ids != [] {
      InsertSameKey(id, ids[1..], k, m);
    }
  }

  lemma {:induction false} SortBySameKey(ids: seq<Id>, k: Id -> Key, m: Id -> Key)
    requires forall i :: i in ids ==> k(i) == m(i)
    ensures SortBy(ids, k) == SortBy(ids, m)
  {
    if ids != [] {
      SortBySameKey(ids[1..], k, m);
      SortByMultiset(ids[1..], k);
      InsertSameKey(ids[0], SortBy(ids[1..], k), k, m);
    }
  }

  function NotIn(ids: seq<Id>): Id -> bool {
    id => id !in ids
  }

  function HasExpired(s: State, now: int): Id -> bool {
    id => Expired(s, now, id)
  }

  /** The state once the expired jobs are gone. */
  function WithoutExpired(s: State, now: int): State {
    s.(jobs := Remaining(s, now), order := Filter(s.order, Unexpired(s, now)))
  }

  function DoneNow(s: State): seq<Id> {
    SortBy(Filter(s.order, IsDone(s)), CompletedKey(s))
  }

  lemma DoneNowIsDoneIds(s: State, now: int)
    requires Listed(s)
    ensures DoneNow(WithoutExpired(s, now)) == DoneIds(s, now)
  {
    hide SortBy;
    var t := WithoutExpired(s, now);
    FilterExact(s.order, Unexpired(s, now));
    FilterSame(t.order, IsDone(t), IsDone(s));
    FilterExact(t.order, IsDone(s));
    SortBySameKey(Filter(t.order, IsDone(s)), CompletedKey(t), CompletedKey(s));
  }

  lemma ExpiredOnce(s: State, now: int)
    requires Listed(s)
    ensures var expired := Filter(s.order, HasExpired(s, now));
            && s.jobs - Ids(expired) == Remaining(s, now)
            && Filter(s.order, NotIn(expired)) == Filter(s.order, Unexpired(s, now))
  {
    var expired := Filter(s.order, HasExpired(s, now));
    FilterExact(s.order, HasExpired(s, now));
    FilterSame(s.order, NotIn(expired), Unexpired(s, now));
  }

  lemma PruneInTwo(s: State, now: int)
    requires Listed(s)
    ensures var t := WithoutExpired(s, now);
            && t.jobs - Ids(Dropped(s, now)) == Prune(s, now).jobs
            && Filter(t.order, NotIn(Dropped(s, now))) == Prune(s, now).order
  {
    hide Dropped;
    FilterTwice(s.order, Unexpired(s, now), NotIn(Dropped(s, now)), Kept(s, now));
  }

  /** The oldest finished jobs in excess of the limit. */
  function Surplus(s: State): seq<Id> {
    Prefix(DoneNow(s), if |s.jobs| > s.bounds.maxRetained then |s.jobs| - s.bounds.maxRetained else 0)
  }

  lemma SurplusIsDropped(s: State, now: int)
    requires Listed(s)
    ensures Surplus(WithoutExpired(s, now)) == Dropped(s, now)
  {
    hide DoneNow, DoneIds, Listed;
    DoneNowIsDoneIds(s, now);
  }

  lemma PruneComplete(s: State, now: int, t: State, v: State)
    requires Inv(s) && t == WithoutExpired(s, now)
    requires v == t.(jobs := t.jobs - Ids(Surplus(t)), order := Filter(t.order, NotIn(Surplus(t))))
    ensures v == Prune(s, now) && Inv(v)
  {
    hide Inv, Dropped, Surplus, Listed;
    InvListed(s);
    SurplusIsDropped(s, now);
    PruneInTwo(s, now);
    PruneInv(s, now);
  }

  class InMemoryJobManager {
    const bounds: Bounds
    var jobs: map<Id, Job>
    var order: seq<Id>
    var queue: seq<Id>
    var stopping: bool
    var worker: Worker
    ghost var issued: seq<Id>

    ghost function Value(): State
      reads this
    {
      State(bounds, jobs, order, queue, stopping, worker, issued)
    }

    constructor (b: Bounds)
      requires ValidBounds(b)
      ensures Value() == Initial(b) && Inv(Value())
    {
      bounds := b;
      jobs, order, queue, stopping, worker, issued := map[], [], [], false, NoThread, [];
      new;
      InitialInv(b);
    }

    /** The checks of `__init__`. */
    static method Create(b: Bounds) returns (manager: Option<InMemoryJobManager>)
      ensures manager.Some? <==> ValidBounds(b)
      ensures manager.Some? <==> 1 <= b.maxQueued <= 16 && b.maxQueued < b.maxRetained
      ensures manager.Some? ==>
          fresh(manager.value) && manager.value.Value() == Initial(b) && Inv(manager.value.Value())
    {
      if !(1 <= b.maxQueued <= 16) || b.maxRetained < b.maxQueued + 1 {
        return None;
      }
      var created := new InMemoryJobManager(b);
      return Some(created);
    }

    /** `self._jobs.pop(run_id, None)` for each id. */
    method PopAll(ids: seq<Id>)
      modifies this`jobs, this`order
      ensures jobs == old(jobs) - Ids(ids) && order == Filter(old(order), NotIn(ids))
    {
      FilterAll(order, NotIn([]));
      for n := 0 to |ids|
        invariant jobs == old(jobs) - Ids(ids[..n]) && order == Filter(old(order), NotIn(ids[..n]))
      {
        assert ids[..n + 1] == ids[..n] + [ids[n]];
        FilterTwice(old(order), NotIn(ids[..n]), NotIn([ids[n]]), NotIn(ids[..n + 1]));
        jobs := jobs - {ids[n]};
        order := Filter(order, NotIn([ids[n]]));
      }
      assert ids[..|ids|] == ids;
    }

    /** The first half of `_prune_locked`. */
    method DropExpired(now: int)
      requires Listed(Value())
      modifies this`jobs, this`order
      ensures Value() == WithoutExpired(old(Value()), now)
    {
      hide Done, Listed;
      ghost var s := Value();
      ExpiredOnce(s, now);
      var current, retention := jobs, bounds.retention;
      var expired := Filter(order, id => id in current && Done(current[id]) && now - DoneAt(current[id]) > retention);
      ExpiredAgree(s, now, expired,
                   id => id in current && Done(current[id]) && now - DoneAt(current[id]) > retention);
      PopAll(expired);
    }

    /** The second half of `_prune_locked`. */
    method DropExcess()
      modifies this`jobs, this`order
      ensures jobs == old(jobs) - Ids(old(Surplus(Value())))
              && order == Filter(old(order), NotIn(old(Surplus(Value()))))
    {
      hide Done, SortBy;
      var current := jobs;
      var done := Filter(order, id => id in current && Done(current[id]));
      var retained := SortBy(
        done, id => if id in current && Done(current[id]) then Num(DoneAt(current[id])) else Nil);
      RetainedAgree(Value(), done, id => id in current && Done(current[id]),
                    id => if id in current && Done(current[id]) then Num(DoneAt(current[id])) else Nil);
      var excess := if |jobs| > bounds.maxRetained then |jobs| - bounds.maxRetained else 0;
      PopAll(Prefix(retained, excess));
    }

    /** `_prune_locked`. */
    method PruneLocked(now: int)
      requires Inv(Value())
      modifies this`jobs, this`order
      ensures Value() == Prune(old(Value()), now) && Inv(Value())
    {
      hide Inv, Prune, Listed, WithoutExpired, Surplus, Ids, NotIn, Dropped;
      ghost var s := Value();
      InvListed(s);
      DropExpired(now);
      ghost var t := Value();
      DropExcess();
      PruneComplete(s, now, t, Value());
    }

    /** The sum over the queue in `submit`; nothing when a queued id has no entry. */
    method CountWaiting() returns (waiting: Option<nat>)
      ensures waiting.None? <==> QueueHasGap(Value())
      ensures waiting.Some? ==> waiting.value == WaitingCount(Value())
    {
      hide QueueHasGap, WaitingCount;
      ghost var p := Value();
      var count := 0;
      for n := 0 to |queue|
        invariant count == |Filter(queue[..n], IsQueued(p))|
        invariant forall k :: 0 <= k < n ==> queue[k] in jobs
      {
        if queue[n] !in jobs {
          GapFound(p, n);
          return None;
        }
        assert queue[..n + 1] == queue[..n] + [queue[n]];
        FilterAppend(queue[..n], [queue[n]], IsQueued(p));
        if jobs[queue[n]].status == Queued {
          count := count + 1;
        }
      }
      assert queue[..|queue|] == queue;
      NoGap(p, count);
      return Some(count);
    }

    /** `submit`. */
    method Submit(id: Id, request: string, now: int) returns (reply: Reply)
      requires Inv(Value()) && id !in issued
      modifies this
      ensures Value() == Step(old(Value()), Action.Submit(id, request, now)) && Inv(Value())
      ensures reply == Answer(old(Value()), Action.Submit(id, request, now))
    {
      hide Inv, Prune, WaitingCount, QueueHasGap, NewJob;
      ghost var s := Value();
      StepInv(s, Action.Submit(id, request, now));
      PruneLocked(now);
      var waiting := CountWaiting();
      if waiting.None? {
        return LookupFailed;
      }
      if waiting.value >= bounds.maxQueued {
        return QueueFull;
      }
      jobs := jobs[id := NewJob(request, now)];
      order := order + [id];
      queue := queue + [id];
      issued := issued + [id];
      if worker.NoThread? {
        worker := Waiting;
      }
      reply := Accepted(id);
    }

    /** `get`. */
    method Get(id: Id, now: int) returns (reply: Reply)
      requires Inv(Value())
      modifies this
      ensures Value() == Step(old(Value()), Action.Get(id, now)) && Inv(Value())
      ensures reply == Answer(old(Value()), Action.Get(id, now))
    {
      hide Inv, Prune;
      PruneLocked(now);
      if id !in jobs {
        return UnknownRun;
      }
      return Found(jobs[id]);
    }

    /** `cancel`. */
    method Cancel(id: Id, now: int) returns (reply: Reply)
      requires Inv(Value())
      modifies this
      ensures Value() == Step(old(Value()), Action.Cancel(id, now)) && Inv(Value())
      ensures reply == Answer(old(Value()), Action.Cancel(id, now))
    {
      hide Inv, Prune;
      StepInv(Value(), Action.Cancel(id, now));
      PruneLocked(now);
      if id !in jobs {
        return UnknownRun;
      }
      var job := jobs[id];
      if job.status == Queued {
        job := job.(status := Cancelled, completedAt := Some(now));
        job := job.(cancelEvent := true);
      } else if job.status == Running {
        job := job.(status := CancelRequested, cancelEvent := true);
      }
      jobs := jobs[id := job];
      return Found(job);
    }

    /** `shutdown`, up to its wait for the worker. */
    method Shutdown(now: int)
      requires Inv(Value())
      modifies this
      ensures Value() == Step(old(Value()), Action.Shutdown(now)) && Inv(Value())
    {
      hide Inv;
      ghost var s := Value();
      StepInv(s, Action.Shutdown(now));
      InvListed(s);
      stopping := true;
      for n := 0 to |order|
        invariant Value() == s.(shutdown := true, jobs := jobs) && ShutSoFar(s, now, order[..n], jobs)
      {
        assert order[..n + 1] == order[..n] + [order[n]];
        assert order[n] in order && order[n] !in order[..n];
        var job := jobs[order[n]];
        if job.status == Queued {
          job := job.(status := Cancelled, completedAt := Some(now));
        } else if job.status in {Running, CancelRequested} {
          job := job.(status := CancelRequested);
        }
        ShutNext(s, now, order[..n], order[n], jobs);
        jobs := jobs[order[n] := job.(cancelEvent := true)];
      }
      assert order[..|order|] == order;
      assert jobs == Step(s, Action.Shutdown(now)).jobs;
    }

    /** The top of the worker's loop. */
    method Take(now: int)
      requires Inv(Value()) && Enabled(Value(), Action.Take(now))
      modifies this
      ensures Value() == Step(old(Value()), Action.Take(now)) && Inv(Value())
    {
      hide Inv;
      StepInv(Value(), Action.Take(now));
      if stopping && |queue| == 0 {
        worker := Exiting;
        return;
      }
      var id := queue[0];
      queue := queue[1..];
      if id !in jobs || jobs[id].status == Cancelled {
        return;
      }
      jobs := jobs[id := jobs[id].(status := Running, startedAt := Some(now))];
      worker := Busy(id);
    }

    /** `_stage`. */
    method Report(stage: string)
      requires Inv(Value()) && Enabled(Value(), Action.Report(stage))
      modifies this
      ensures Value() == Step(old(Value()), Action.Report(stage)) && Inv(Value())
    {
      hide Inv;
      StepInv(Value(), Action.Report(stage));
      WorkerHasJob(Value());
      jobs := jobs[worker.id := jobs[worker.id].(stage := Some(stage))];
    }

    /** The three ways in which a run ends. */
    method Finish(outcome: Outcome, now: int)
      requires Inv(Value()) && Enabled(Value(), Action.Finish(outcome, now))
      modifies this
      ensures Value() == Step(old(Value()), Action.Finish(outcome, now)) && Inv(Value())
    {
      hide Inv;
      StepInv(Value(), Action.Finish(outcome, now));
      WorkerHasJob(Value());
      var job := jobs[worker.id];
      match outcome {
        case RaisedCancelled =>
          job := job.(status := Cancelled, completedAt := Some(now), result := None);
        case RaisedError =>
          job := job.(status := Failed, completedAt := Some(now), result := None);
        case Returned(result) =>
          if job.cancelEvent {
            job := job.(status := Cancelled, result := None);
          } else {
            job := job.(status := Completed, result := Some(result));
          }
          job := job.(completedAt := Some(now), stage := Some("FINAL_DECISION"));
      }
      jobs := jobs[worker.id := job];
      worker := Cleaning;
    }

    /** The end of the worker's `finally`. */
    method Clean(now: int)
      requires Inv(Value()) && Enabled(Value(), Action.Clean(now))
      modifies this
      ensures Value() == Step(old(Value()), Action.Clean(now)) && Inv(Value())
    {
      hide Inv, Prune;
      StepInv(Value(), Action.Clean(now));
      PruneLocked(now);
      worker := Waiting;
    }

    /** The worker thread is gone. */
    method EndThread()
      requires Inv(Value()) && Enabled(Value(), Action.EndThread)
      modifies this
      ensures Value() == Step(old(Value()), Action.EndThread) && Inv(Value())
    {
      hide Inv;
      StepInv(Value(), Action.EndThread);
      worker := NoThread;
    }
  }

  /** The jobs of the ids passed so far are shut down, the others are as before. */
  ghost predicate ShutSoFar(s: State, now: int, passed: seq<Id>, jobs: map<Id, Job>) {
    && jobs.Keys == s.jobs.Keys
    && forall id :: id in jobs ==> jobs[id] == if id in passed then ShutdownJob(s.jobs[id], now) else s.jobs[id]
  }

  lemma ShutNext(s: State, now: int, passed: seq<Id>, id: Id, jobs: map<Id, Job>)
    requires ShutSoFar(s, now, passed, jobs) && id in jobs && id !in passed
    ensures jobs[id] == s.jobs[id]
    ensures ShutSoFar(s, now, passed + [id], jobs[id := ShutdownJob(s.jobs[id], now)])
  {
    hide ShutdownJob;
  }

  lemma InvListed(s: State)
    requires Inv(s)
    ensures Listed(s)
  {
  }

  lemma WorkerHasJob(s: State)
    requires Inv(s) && s.worker.Busy?
    ensures s.worker.id in s.jobs
  {
  }

  function DoneAt(j: Job): int
    requires Done(j)
  {
    j.completedAt.value
  }

  lemma ExpiredAgree(s: State, now: int, expired: seq<Id>, p: Id -> bool)
    requires expired == Filter(s.order, p)
    requires forall id :: p(id) <==> id in s.jobs && Done(s.jobs[id]) && now - DoneAt(s.jobs[id]) > s.bounds.retention
    ensures expired == Filter(s.order, HasExpired(s, now))
  {
    hide Done;
    FilterSame(s.order, p, HasExpired(s, now));
  }

  lemma RetainedAgree(t: State, done: seq<Id>, p: Id -> bool, key: Id -> Key)
    requires done == Filter(t.order, p) && forall id :: p(id) <==> id in t.jobs && Done(t.jobs[id])
    requires forall id :: key(id) == if id in t.jobs && Done(t.jobs[id]) then Num(DoneAt(t.jobs[id])) else Nil
    ensures SortBy(done, key) == DoneNow(t)
  {
    hide SortBy;
    FilterSame(t.order, p, IsDone(t));
    FilterExact(t.order, p);
    SortBySameKey(done, key, CompletedKey(t));
  }

  lemma GapFound(p: State, n: nat)
    requires n < |p.queue| && p.queue[n] !in p.jobs
    ensures QueueHasGap(p)
  {
  }

  lemma NoGap(p: State, waiting: nat)
    requires waiting == |Filter(p.queue, IsQueued(p))| && forall k :: 0 <= k < |p.queue| ==> p.queue[k] in p.jobs
    ensures !QueueHasGap(p) && WaitingCount(p) == waiting
  {
  }
}
