/** What became of a job, told by the steps of the run: a job's status, times, result and marks are exactly what
    the earlier steps that concern it say (backend/src/verilogic_ns_api/orchestration/jobs.py). */
module JobStory {
  import opened Logic
  import opened Keys
  import opened StableSort
  import opened Jobs

  // ---- The steps that concern a job ----

  ghost predicate Waits(s: State, id: Id) {
    id in s.jobs && s.jobs[id].status == Queued
  }

  /** The worker takes the job. */
  ghost predicate Starts(s: State, a: Action, id: Id) {
    a.Take? && s.queue != [] && s.queue[0] == id && Waits(s, id)
  }

  /** The worker records how the job's run ended. */
  ghost predicate Records(s: State, a: Action, id: Id) {
    a.Finish? && s.worker == Busy(id) && id in s.jobs
  }

  /** The step ends the job with this status: a run that raised an error failed; one that raised the cancellation,
      or returned after the job was marked, was cancelled; one that returned otherwise completed; and a waiting job
      is cancelled by a cancellation or a shutdown. */
  ghost predicate EndsAs(s: State, a: Action, id: Id, status: Status) {
    match status
    case Failed => Records(s, a, id) && a.outcome.RaisedError?
    case Completed => Records(s, a, id) && a.outcome.Returned? && !s.jobs[id].cancelEvent
    case Cancelled =>
      || (Waits(s, id) && ((a.Cancel? && a.id == id) || a.Shutdown?))
      || (Records(s, a, id) && (a.outcome.RaisedCancelled? || (a.outcome.Returned? && s.jobs[id].cancelEvent)))
    case _ => false
  }

  /** The step marks the job for cancellation. */
  ghost predicate Marks(s: State, a: Action, id: Id) {
    && id in s.jobs
    && ((a.Cancel? && a.id == id && s.jobs[id].status in {Queued, Running}) || a.Shutdown?)
  }

  /** The step accepts the job. */
  ghost predicate Accepts(s: State, a: Action, id: Id) {
    a.Submit? && a.id == id && Answer(s, a) == Accepted(id)
  }

  ghost predicate Ends(s: State, a: Action, id: Id) {
    EndsAs(s, a, id, Failed) || EndsAs(s, a, id, Completed) || EndsAs(s, a, id, Cancelled)
  }

  // ---- One step ----

  /** What the step makes of a job it finds and leaves in the table. */
  ghost predicate Follows(s: State, a: Action, id: Id, j: Job, k: Job) {
    && k.request == j.request && k.submittedAt == j.submittedAt
    && (k.cancelEvent <==> j.cancelEvent || Marks(s, a, id))
    && k.startedAt == (if Starts(s, a, id) then Some(a.now) else j.startedAt)
    && (forall status :: EndsAs(s, a, id, status) ==> k.status == status && k.completedAt == Some(a.now))
    && (EndsAs(s, a, id, Completed) ==> k.result == Some(a.outcome.result))
    && (!EndsAs(s, a, id, Completed) ==> k.result == j.result)
    && (!Ends(s, a, id) ==>
          && k.completedAt == j.completedAt
          && k.status ==
               if Starts(s, a, id) then Running
               else if j.status == Running && Marks(s, a, id) then CancelRequested
               else j.status)
    && k.stage ==
         if Records(s, a, id) && a.outcome.Returned? then Some("FINAL_DECISION")
         else if a.Report? && s.worker == Busy(id) then Some(a.stage)
         else j.stage
  }

  lemma QueuedIsNotBusy(s: State, id: Id)
    requires Inv(s) && id in s.jobs
    ensures s.worker == Busy(id) <==> Active(s.jobs[id])
    ensures s.jobs[id].status in {Queued, Running} ==> !s.jobs[id].cancelEvent
    ensures s.jobs[id].result.Some? <==> s.jobs[id].status == Completed
  {
    hide Listed, QueueInOrder, QueueHoldsQueued, WithinBounds;
    assert JobOk(s.jobs[id]);
  }

  lemma StepFollows(s: State, a: Action, id: Id)
    requires Inv(s) && Enabled(s, a) && id in s.jobs && id in Step(s, a).jobs
    ensures Follows(s, a, id, s.jobs[id], Step(s, a).jobs[id])
  {
    hide Inv, Step, Follows;
    if a.Submit? {
      SubmitFollows(s, a, id);
    } else if a.Cancel? {
      CancelFollows(s, a, id);
    } else if a.Shutdown? {
      ShutdownFollows(s, a, id);
    } else if a.Finish? {
      FinishFollows(s, a, id);
    } else if a.Take? {
      TakeFollows(s, a, id);
    } else if a.Report? {
      ReportFollows(s, a, id);
    } else {
      UnchangedFollows(s, a, id);
    }
  }

  lemma TakeFollows(s: State, a: Action, id: Id)
    requires Inv(s) && Enabled(s, a) && a.Take? && id in s.jobs && id in Step(s, a).jobs
    ensures Follows(s, a, id, s.jobs[id], Step(s, a).jobs[id])
  {
    hide Prune, Answer, Listed, QueueInOrder, OneActive, JobsOk, WithinBounds;
  }

  lemma ReportFollows(s: State, a: Action, id: Id)
    requires a.Report? && id in s.jobs && id in Step(s, a).jobs
    ensures Follows(s, a, id, s.jobs[id], Step(s, a).jobs[id])
  {
    hide Prune, Answer;
  }

  lemma UnchangedFollows(s: State, a: Action, id: Id)
    requires Inv(s) && (a.Get? || a.Clean? || a.EndThread?) && id in s.jobs && id in Step(s, a).jobs
    ensures Follows(s, a, id, s.jobs[id], Step(s, a).jobs[id])
  {
    hide Prune, Answer, Inv;
    if !a.EndThread? {
      PruneInv(s, a.now);
    }
  }

  lemma SubmitFollows(s: State, a: Action, id: Id)
    requires Inv(s) && Enabled(s, a) && a.Submit? && id in s.jobs && id in Step(s, a).jobs
    ensures Follows(s, a, id, s.jobs[id], Step(s, a).jobs[id])
  {
    hide Prune, Answer, Inv;
    PruneInv(s, a.now);
    JobsIssued(s, id);
  }

  /** A step that does not concern the job leaves it as it is. */
  lemma SameFollows(s: State, a: Action, id: Id, j: Job)
    requires !Ends(s, a, id) && !Starts(s, a, id) && !Marks(s, a, id) && !Records(s, a, id)
    requires !(a.Report? && s.worker == Busy(id))
    ensures Follows(s, a, id, j, j)
  {
  }

  lemma CancelFollows(s: State, a: Action, id: Id)
    requires Inv(s) && a.Cancel? && id in s.jobs && id in Step(s, a).jobs
    ensures Follows(s, a, id, s.jobs[id], Step(s, a).jobs[id])
  {
    hide Prune, Answer, Inv;
    PruneInv(s, a.now);
    if a.id == id {
      QueuedIsNotBusy(s, id);
      CancelJobFollows(s, a, id, s.jobs[id]);
    } else {
      SameFollows(s, a, id, s.jobs[id]);
    }
  }

  lemma CancelJobFollows(s: State, a: Action, id: Id, j: Job)
    requires a.Cancel? && a.id == id && id in s.jobs && j == s.jobs[id]
    requires j.result.Some? <==> j.status == Completed
    ensures Follows(s, a, id, j, CancelJob(j, a.now))
  {
  }

  lemma ShutdownFollows(s: State, a: Action, id: Id)
    requires Inv(s) && a.Shutdown? && id in s.jobs
    ensures id in Step(s, a).jobs && Follows(s, a, id, s.jobs[id], Step(s, a).jobs[id])
  {
    hide Prune, Answer, Inv;
    QueuedIsNotBusy(s, id);
  }

  lemma FinishFollows(s: State, a: Action, id: Id)
    requires Inv(s) && Enabled(s, a) && a.Finish? && id in s.jobs && id in Step(s, a).jobs
    ensures Follows(s, a, id, s.jobs[id], Step(s, a).jobs[id])
  {
    hide Prune, Answer, Inv;
    QueuedIsNotBusy(s, id);
  }

  /** A job enters the table only by being accepted, and then as its submission says. */
  lemma StepEnters(s: State, a: Action, id: Id)
    requires Inv(s) && Enabled(s, a) && id !in s.jobs && id in Step(s, a).jobs
    ensures Accepts(s, a, id)
    ensures Step(s, a).jobs[id] == Job(a.request, a.now, Queued, None, None, None, None, false)
  {
    hide Prune, Answer, Inv, CancelJob, FinishJob, ShutdownJob;
    if a.Submit? || a.Get? || a.Cancel? || a.Clean? {
      PruneInv(s, a.now);
    }
    if a.Submit? {
      AcceptsItsId(s, a);
    }
  }

  lemma AcceptsItsId(s: State, a: Action)
    requires a.Submit?
    ensures Answer(s, a).Accepted? ==> Answer(s, a) == Accepted(a.id)
  {
  }

  // ---- Whole runs ----

  /** A submission that was accepted put the job in the table. */
  lemma AcceptedEnters(s: State, a: Action, id: Id)
    requires Inv(s) && Accepts(s, a, id)
    ensures id in Step(s, a).jobs && id in Step(s, a).issued
  {
    hide Prune, Answer, Inv;
    StepIsAdded(s, a);
  }

  lemma IssuedGrows(s: State, a: Action, id: Id)
    requires id in s.issued
    ensures id in Step(s, a).issued
  {
    hide Prune, Answer, CancelJob, FinishJob, ShutdownJob;
    PruneLeaves(s, if a.Submit? || a.Get? || a.Cancel? || a.Clean? then a.now else 0);
  }

  lemma {:induction false} IssuedStays(states: seq<State>, actions: seq<Action>, i: nat, j: nat, id: Id)
    requires IsRun(states, actions) && i <= j < |states| && id in states[i].issued
    ensures id in states[j].issued
    decreases j - i
  {
    hide Inv, Enabled, Step, Moves;
    if i < j {
      IssuedStays(states, actions, i, j - 1, id);
      RunStep(states, actions, j - 1);
      IssuedGrows(states[j - 1], actions[j - 1], id);
    }
  }

  /** Before a job enters the table no step concerned it. */
  lemma NotThereBefore(states: seq<State>, actions: seq<Action>, i: nat, j: nat, id: Id)
    requires IsRun(states, actions) && i <= j < |actions| && id !in states[j].jobs && id in states[j + 1].jobs
    ensures id !in states[i].jobs
  {
    hide Inv, Enabled, Step, Moves, Answer;
    RunStep(states, actions, j);
    StepEnters(states[j], actions[j], id);
    if id in states[i].jobs {
      RunInv(states, actions, i);
      JobsIssued(states[i], id);
      IssuedStays(states, actions, i, j, id);
      SubmitIsFresh(states[j], actions[j]);
    }
  }

  lemma SubmitIsFresh(s: State, a: Action)
    requires Enabled(s, a) && a.Submit?
    ensures a.id !in s.issued
  {
  }

  /** The job says what step `i` made of it. */
  ghost predicate EndedBy(states: seq<State>, actions: seq<Action>, i: nat, id: Id, job: Job)
    requires i < |actions| && i < |states|
  {
    && EndsAs(states[i], actions[i], id, job.status) && job.completedAt == Some(actions[i].now)
    && (job.status == Completed ==> job.result == Some(actions[i].outcome.result))
  }

  /** A finished job was ended by an earlier step, with the status, time and result that the step gave it; and
      whatever step ends a job, that is what the job says from then on. */
  lemma {:induction false} EndIsTold(states: seq<State>, actions: seq<Action>, j: nat, id: Id)
    requires IsRun(states, actions) && j < |states| && id in states[j].jobs
    ensures Terminal(states[j].jobs[id].status) ==>
              exists i :: 0 <= i < j && EndedBy(states, actions, i, id, states[j].jobs[id])
    ensures forall i :: 0 <= i < j && Ends(states[i], actions[i], id) ==>
              EndedBy(states, actions, i, id, states[j].jobs[id])
    decreases j
  {
    hide Inv, Enabled, Step, Moves, Answer, Follows, EndsAs;
    if j > 0 {
      RunStep(states, actions, j - 1);
      if id in states[j - 1].jobs {
        EndIsTold(states, actions, j - 1, id);
        StepFollows(states[j - 1], actions[j - 1], id);
        EndStep(states, actions, j - 1, id, states[j - 1].jobs[id], states[j].jobs[id]);
      } else {
        StepEnters(states[j - 1], actions[j - 1], id);
        forall i | 0 <= i < j ensures !Ends(states[i], actions[i], id) {
          NotThereBefore(states, actions, i, j - 1, id);
          EndsFinds(states[i], actions[i], id);
        }
      }
    }
  }

  lemma EndsFinds(s: State, a: Action, id: Id)
    ensures Ends(s, a, id) ==> id in s.jobs
  {
  }

  /** A finished job is not ended again. */
  lemma EndsOnce(s: State, a: Action, id: Id)
    requires Inv(s) && id in s.jobs && Terminal(s.jobs[id].status)
    ensures !Ends(s, a, id) && !Starts(s, a, id)
  {
    hide Inv;
    QueuedIsNotBusy(s, id);
  }

  lemma EndStep(states: seq<State>, actions: seq<Action>, n: nat, id: Id, before: Job, after: Job)
    requires n < |actions| && n < |states| && Inv(states[n]) && id in states[n].jobs && before == states[n].jobs[id]
    requires Follows(states[n], actions[n], id, before, after)
    requires Terminal(before.status) ==> exists i :: 0 <= i < n && EndedBy(states, actions, i, id, before)
    requires forall i :: 0 <= i < n && Ends(states[i], actions[i], id) ==> EndedBy(states, actions, i, id, before)
    ensures Terminal(after.status) ==> exists i :: 0 <= i <= n && EndedBy(states, actions, i, id, after)
    ensures forall i :: 0 <= i <= n && Ends(states[i], actions[i], id) ==> EndedBy(states, actions, i, id, after)
  {
    hide Inv, EndsAs;
    var s, a := states[n], actions[n];
    forall i | 0 <= i < n ensures EndedBy(states, actions, i, id, before) ==> Terminal(before.status) {
      EndedIsTerminal(states, actions, i, id, before);
    }
    if Terminal(before.status) {
      EndsOnce(s, a, id);
      StaysEnded(s, a, id, before, after);
      var i :| 0 <= i < n && EndedBy(states, actions, i, id, before);
      assert EndedBy(states, actions, i, id, after);
    } else if Ends(s, a, id) {
      assert EndedBy(states, actions, n, id, after);
    } else {
      StillLive(s, a, id, before, after);
    }
  }

  lemma EndedIsTerminal(states: seq<State>, actions: seq<Action>, i: nat, id: Id, job: Job)
    requires i < |actions| && i < |states|
    ensures EndedBy(states, actions, i, id, job) ==> Terminal(job.status) && Ends(states[i], actions[i], id)
  {
  }

  lemma StaysEnded(s: State, a: Action, id: Id, before: Job, after: Job)
    requires Follows(s, a, id, before, after) && !Ends(s, a, id) && !Starts(s, a, id) && Terminal(before.status)
    ensures after.status == before.status && after.completedAt == before.completedAt && after.result == before.result
  {
  }

  lemma StillLive(s: State, a: Action, id: Id, before: Job, after: Job)
    requires Follows(s, a, id, before, after) && !Ends(s, a, id) && !Terminal(before.status)
    ensures !Terminal(after.status)
  {
  }

  /** For every job of every run: it failed exactly when an earlier step recorded that its run raised an error, it
      completed exactly when one recorded a result before it was marked, and it was cancelled exactly when one
      cancelled it while it waited, or recorded the cancellation or a result after it was marked. */
  lemma StatusIsTold(states: seq<State>, actions: seq<Action>, j: nat, id: Id, status: Status)
    requires IsRun(states, actions) && j < |states| && id in states[j].jobs && Terminal(status)
    ensures states[j].jobs[id].status == status <==> exists i :: 0 <= i < j && EndsAs(states[i], actions[i], id, status)
  {
    hide Enabled, Step, EndsAs;
    EndIsTold(states, actions, j, id);
    if states[j].jobs[id].status == status {
      var i :| 0 <= i < j && EndedBy(states, actions, i, id, states[j].jobs[id]);
    }
    if i :| 0 <= i < j && EndsAs(states[i], actions[i], id, status) {
      assert Ends(states[i], actions[i], id) by {
        EndsSomehow(states[i], actions[i], id, status);
      }
      assert EndedBy(states, actions, i, id, states[j].jobs[id]);
      EndsOneWay(states[i], actions[i], id, status, states[j].jobs[id].status);
    }
  }

  lemma EndsSomehow(s: State, a: Action, id: Id, status: Status)
    requires EndsAs(s, a, id, status)
    ensures Ends(s, a, id)
  {
  }

  lemma EndsOneWay(s: State, a: Action, id: Id, first: Status, second: Status)
    requires EndsAs(s, a, id, first) && EndsAs(s, a, id, second)
    ensures first == second
  {
  }

  // ---- Marks, starts and submissions ----

  /** The mark and the start of a job are those of earlier steps. */
  lemma {:induction false} MarkIsTold(states: seq<State>, actions: seq<Action>, j: nat, id: Id)
    requires IsRun(states, actions) && j < |states| && id in states[j].jobs
    ensures states[j].jobs[id].cancelEvent <==> exists i :: 0 <= i < j && Marks(states[i], actions[i], id)
    decreases j
  {
    hide Inv, Enabled, Step, Moves, Answer;
    if j > 0 {
      RunStep(states, actions, j - 1);
      if id in states[j - 1].jobs {
        MarkIsTold(states, actions, j - 1, id);
        StepFollows(states[j - 1], actions[j - 1], id);
      } else {
        StepEnters(states[j - 1], actions[j - 1], id);
        forall i | 0 <= i < j ensures !Marks(states[i], actions[i], id) {
          NotThereBefore(states, actions, i, j - 1, id);
        }
      }
    }
  }

  lemma {:induction false} StartIsTold(states: seq<State>, actions: seq<Action>, j: nat, id: Id)
    requires IsRun(states, actions) && j < |states| && id in states[j].jobs
    ensures states[j].jobs[id].startedAt.Some? ==> exists i :: 0 <= i < j && Starts(states[i], actions[i], id)
    ensures forall i :: 0 <= i < j && Starts(states[i], actions[i], id) ==>
              states[j].jobs[id].startedAt == Some(actions[i].now)
    decreases j
  {
    hide Inv, Enabled, Step, Moves, Answer;
    if j > 0 {
      RunStep(states, actions, j - 1);
      if id in states[j - 1].jobs {
        StartIsTold(states, actions, j - 1, id);
        StepFollows(states[j - 1], actions[j - 1], id);
        if states[j - 1].jobs[id].startedAt.Some? {
          NotStartedTwice(states[j - 1], actions[j - 1], id);
        }
      } else {
        StepEnters(states[j - 1], actions[j - 1], id);
        forall i | 0 <= i < j ensures !Starts(states[i], actions[i], id) {
          NotThereBefore(states, actions, i, j - 1, id);
        }
      }
    }
  }

  lemma NotStartedTwice(s: State, a: Action, id: Id)
    requires Inv(s) && id in s.jobs && s.jobs[id].startedAt.Some?
    ensures !Starts(s, a, id)
  {
    hide Listed, QueueInOrder, QueueHoldsQueued, WithinBounds, OneActive;
    assert JobOk(s.jobs[id]);
  }

  /** Every job in the table was accepted by an earlier submission, whose request and time it keeps. */
  lemma {:induction false} SubmissionIsTold(states: seq<State>, actions: seq<Action>, j: nat, id: Id) returns (i: nat)
    requires IsRun(states, actions) && j < |states| && id in states[j].jobs
    ensures i < j && Accepts(states[i], actions[i], id)
    ensures states[j].jobs[id].request == actions[i].request && states[j].jobs[id].submittedAt == actions[i].now
    decreases j
  {
    hide Inv, Enabled, Step, Moves, Answer;
    assert j > 0 by {
      assert states[0] == Initial(states[0].bounds);
    }
    RunStep(states, actions, j - 1);
    if id in states[j - 1].jobs {
      i := SubmissionIsTold(states, actions, j - 1, id);
      StepFollows(states[j - 1], actions[j - 1], id);
    } else {
      StepEnters(states[j - 1], actions[j - 1], id);
      i := j - 1;
    }
  }

  /** A job that has not ended waits until it starts, then runs, and once marked it waits for its run to notice. */
  lemma LiveIsTold(states: seq<State>, actions: seq<Action>, j: nat, id: Id)
    requires IsRun(states, actions) && j < |states| && id in states[j].jobs
    requires forall i :: 0 <= i < j ==> !Ends(states[i], actions[i], id)
    ensures var started := exists i :: 0 <= i < j && Starts(states[i], actions[i], id);
            var marked := exists i :: 0 <= i < j && Marks(states[i], actions[i], id);
            states[j].jobs[id].status == if !started then Queued else if !marked then Running else CancelRequested
  {
    hide Enabled, Step, Inv, EndsAs, Ends;
    EndIsTold(states, actions, j, id);
    StartIsTold(states, actions, j, id);
    MarkIsTold(states, actions, j, id);
    RunInv(states, actions, j);
    forall i | 0 <= i < j ensures !EndedBy(states, actions, i, id, states[j].jobs[id]) {
      EndedIsTerminal(states, actions, i, id, states[j].jobs[id]);
    }
    LiveStatus(states[j], id);
  }

  lemma LiveStatus(s: State, id: Id)
    requires Inv(s) && id in s.jobs && !Terminal(s.jobs[id].status)
    ensures s.jobs[id].status ==
              if s.jobs[id].startedAt.None? then Queued
              else if !s.jobs[id].cancelEvent then Running else CancelRequested
  {
    hide Listed, QueueInOrder, QueueHoldsQueued, WithinBounds, OneActive;
    assert JobOk(s.jobs[id]);
  }

  // ---- Replies ----

  /** `get` and `cancel` show the job as the step leaves it, or say that there is none. */
  lemma RepliesShowTheTable(s: State, a: Action)
    requires a.Get? || a.Cancel?
    ensures Answer(s, a) == if a.id in Step(s, a).jobs then Found(Step(s, a).jobs[a.id]) else UnknownRun
  {
    hide Prune, CancelJob;
  }

  // ---- Pruning ----

  /** The job finished longer ago than jobs are kept. */
  ghost predicate TooOld(s: State, now: int, id: Id) {
    id in s.jobs && s.jobs[id].completedAt.Some? && now - s.jobs[id].completedAt.value > s.bounds.retention
  }

  ghost function NotTooOld(s: State, now: int): set<Id> {
    set id | id in s.jobs && !TooOld(s, now, id)
  }

  lemma TooOldIsExpired(s: State, now: int, id: Id)
    requires Inv(s) && id in s.jobs
    ensures TooOld(s, now, id) <==> Expired(s, now, id)
    ensures s.jobs[id].completedAt.Some? <==> Terminal(s.jobs[id].status)
  {
    hide Listed, QueueInOrder, QueueHoldsQueued, WithinBounds, OneActive;
    assert JobOk(s.jobs[id]);
  }

  lemma RemainingIsYoung(s: State, now: int)
    requires Inv(s)
    ensures Remaining(s, now).Keys == NotTooOld(s, now)
  {
    hide Inv, TooOld, Expired;
    forall id | id in s.jobs ensures TooOld(s, now, id) <==> Expired(s, now, id) {
      TooOldIsExpired(s, now, id);
    }
  }

  /** After pruning no job is too old, no job is changed, and exactly as many of the others are held as fit the
      limit. */
  lemma PruneTells(s: State, now: int)
    requires Inv(s)
    ensures forall id :: id in Prune(s, now).jobs ==>
              id in s.jobs && Prune(s, now).jobs[id] == s.jobs[id] && !TooOld(s, now, id)
    ensures |Prune(s, now).jobs| ==
              if |NotTooOld(s, now)| <= s.bounds.maxRetained then |NotTooOld(s, now)| else s.bounds.maxRetained
  {
    hide Inv, TooOld, Expired, Dropped, DoneIds;
    forall id | id in Prune(s, now).jobs ensures !TooOld(s, now, id) {
      TooOldIsExpired(s, now, id);
    }
    RemainingIsYoung(s, now);
    assert |Remaining(s, now)| == |Remaining(s, now).Keys|;
    InvParts(s);
    InvListed(s);
    DroppedSize(s, now);
    PrunedSize(s, now);
    RemainingSplit(s, now);
  }

  lemma InvListed(s: State)
    requires Inv(s)
    ensures Listed(s) && s.bounds.maxQueued + 1 <= s.bounds.maxRetained
  {
  }

  /** A job that pruning drops had finished, and was too old or one of too many; and every job that pruning keeps
      had finished no earlier than a job dropped as one of too many. */
  lemma DroppedTells(s: State, now: int, gone: Id)
    requires Inv(s) && gone in s.jobs && gone !in Prune(s, now).jobs
    ensures Terminal(s.jobs[gone].status) && s.jobs[gone].completedAt.Some?
    ensures !TooOld(s, now, gone) ==> |NotTooOld(s, now)| > s.bounds.maxRetained
    ensures !TooOld(s, now, gone) ==> forall kept :: kept in Prune(s, now).jobs && Terminal(s.jobs[kept].status) ==>
              s.jobs[kept].completedAt.Some? && s.jobs[gone].completedAt.value <= s.jobs[kept].completedAt.value
  {
    hide Inv, TooOld, Expired, Prune, Done, Terminal;
    TooOldIsExpired(s, now, gone);
    RemainingIsYoung(s, now);
    assert |Remaining(s, now)| == |Remaining(s, now).Keys|;
    PruneInv(s, now);
    if !TooOld(s, now, gone) {
      OneOfTooMany(s, now, gone);
    }
  }

  lemma OneOfTooMany(s: State, now: int, gone: Id)
    requires Inv(s) && gone in s.jobs && gone !in Prune(s, now).jobs && !Expired(s, now, gone)
    ensures |Remaining(s, now)| > s.bounds.maxRetained
    ensures forall kept :: kept in Prune(s, now).jobs && kept in s.jobs && Terminal(s.jobs[kept].status) ==>
              s.jobs[kept].completedAt.Some? && s.jobs[gone].completedAt.Some?
              && s.jobs[gone].completedAt.value <= s.jobs[kept].completedAt.value
  {
    hide Inv, Expired, Prune, Remaining;
    DroppedMeansExcess(s, now, gone);
    forall kept | kept in Prune(s, now).jobs && kept in s.jobs && Terminal(s.jobs[kept].status)
      ensures s.jobs[kept].completedAt.Some? && s.jobs[gone].completedAt.Some?
              && s.jobs[gone].completedAt.value <= s.jobs[kept].completedAt.value
    {
      PruneDropsOldest(s, now, gone, kept);
    }
  }

  lemma DroppedMeansExcess(s: State, now: int, gone: Id)
    requires gone in s.jobs && gone !in Prune(s, now).jobs && !Expired(s, now, gone)
    ensures |Remaining(s, now)| > s.bounds.maxRetained
  {
    hide DoneIds, Remaining, Expired;
    assert gone in Dropped(s, now);
  }

  /** The table loses a job only in a call or at the end of a run, when the job has finished. */
  lemma LossesArePruned(s: State, a: Action, id: Id)
    requires Inv(s) && Enabled(s, a) && id in s.jobs && id !in Step(s, a).jobs
    ensures (a.Submit? || a.Get? || a.Cancel? || a.Clean?) && id !in Prune(s, a.now).jobs
  {
    hide Inv, Prune, Answer, CancelJob, FinishJob, ShutdownJob;
  }

  /** `submit`, `get`, `cancel` and the end of a run leave no job that is too old. */
  lemma CallsPrune(s: State, a: Action, id: Id)
    requires Inv(s) && Enabled(s, a) && (a.Submit? || a.Get? || a.Cancel? || a.Clean?)
    requires id in s.jobs && id in Step(s, a).jobs
    ensures !TooOld(s, a.now, id)
  {
    hide Inv, Prune, Answer, CancelJob, TooOld;
    PruneTells(s, a.now);
    if a.Submit? {
      JobsIssued(s, id);
    }
  }

  // ---- The queue, the worker and the order of the table ----

  /** What each step does to everything but the jobs themselves. */
  lemma StepTells(s: State, a: Action)
    requires Inv(s) && Enabled(s, a)
    ensures var t, accepted := Step(s, a), a.Submit? && Answer(s, a).Accepted?;
            && t.bounds == s.bounds && (t.shutdown <==> s.shutdown || a.Shutdown?)
            && t.issued == (if accepted then s.issued + [a.id] else s.issued)
            && t.queue == (if accepted then s.queue + [a.id]
                           else if a.Take? && s.queue != [] then s.queue[1..] else s.queue)
            && t.worker ==
                 match a
                 case Submit(_, _, _) => if accepted && s.worker.NoThread? then Waiting else s.worker
                 case Take(_) =>
                   if s.queue == [] then Exiting
                   else if Waits(s, s.queue[0]) then Busy(s.queue[0]) else s.worker
                 case Finish(_, _) => Cleaning
                 case Clean(_) => Waiting
                 case EndThread => NoThread
                 case _ => s.worker
  {
    hide Prune, Answer, CancelJob, FinishJob, ShutdownJob, Listed, QueueInOrder, WithinBounds, JobsOk;
    PruneLeaves(s, if a.Submit? || a.Get? || a.Cancel? || a.Clean? then a.now else 0);
  }

  // ---- Of equally old jobs the one accepted first goes ----

  function InTable(s: State): Id -> bool {
    id => id in s.jobs
  }

  /** The table lists its jobs in the order in which they were accepted. */
  ghost predicate InAcceptedOrder(s: State) {
    s.order == Filter(s.issued, InTable(s))
  }

  ghost predicate Ahead<T>(xs: seq<T>, a: T, b: T) {
    exists i, j :: 0 <= i < j < |xs| && xs[i] == a && xs[j] == b
  }

  lemma AheadCons<T>(x: T, xs: seq<T>, a: T, b: T)
    ensures Ahead([x] + xs, a, b) <==> (x == a && b in xs) || Ahead(xs, a, b)
  {
    var all := [x] + xs;
    if i, j :| 0 <= i < j < |all| && all[i] == a && all[j] == b {
      assert all[j] == xs[j - 1];
      if i > 0 {
        assert xs[i - 1] == a && xs[j - 1] == b;
      }
    }
    if x == a && b in xs {
      var j :| 0 <= j < |xs| && xs[j] == b;
      assert all[0] == a && all[j + 1] == b;
    }
    if i, j :| 0 <= i < j < |xs| && xs[i] == a && xs[j] == b {
      assert all[i + 1] == a && all[j + 1] == b;
    }
  }

  /** Filtering keeps the order of what it keeps. */
  lemma {:induction false} FilterAhead<T>(xs: seq<T>, p: T -> bool, a: T, b: T)
    requires p(a) && p(b)
    ensures Ahead(Filter(xs, p), a, b) <==> Ahead(xs, a, b)
  {
    if xs != [] {
      FilterAhead(xs[1..], p, a, b);
      FilterExact(xs[1..], p);
      assert xs == [xs[0]] + xs[1..];
      AheadCons(xs[0], xs[1..], a, b);
      AheadCons(xs[0], Filter(xs[1..], p), a, b);
    }
  }

  lemma {:induction false} FilterTwice<T>(xs: seq<T>, p: T -> bool, q: T -> bool, r: T -> bool)
    requires forall x :: x in xs ==> (r(x) <==> p(x) && q(x))
    ensures Filter(Filter(xs, p), q) == Filter(xs, r)
  {
    if xs != [] {
      FilterTwice(xs[1..], p, q, r);
      if p(xs[0]) {
        FilterCons(xs[0], Filter(xs[1..], p), q);
      }
    }
  }

  lemma PrunedOrder(s: State, now: int)
    requires InAcceptedOrder(s)
    ensures InAcceptedOrder(Prune(s, now))
  {
    hide Kept;
    FilterTwice(s.issued, InTable(s), Kept(s, now), InTable(Prune(s, now)));
  }

  lemma SameTableOrder(s: State, t: State)
    requires InAcceptedOrder(s) && t.jobs.Keys == s.jobs.Keys && t.order == s.order && t.issued == s.issued
    ensures InAcceptedOrder(t)
  {
    FilterSame(s.issued, InTable(s), InTable(t));
  }

  lemma AddedOrder(p: State, id: Id, request: string, now: int)
    requires InAcceptedOrder(p) && id !in p.issued
    ensures InAcceptedOrder(Added(p, id, request, now))
  {
    var t := Added(p, id, request, now);
    FilterSame(p.issued, InTable(p), InTable(t));
    FilterAppend(p.issued, [id], InTable(t));
    assert [id][1..] == [];
  }

  lemma StepOrder(s: State, a: Action)
    requires Inv(s) && Enabled(s, a) && InAcceptedOrder(s)
    ensures InAcceptedOrder(Step(s, a))
  {
    hide Prune, Answer, Inv, CancelJob, FinishJob, ShutdownJob, InAcceptedOrder;
    if a.Submit? || a.Get? || a.Cancel? || a.Clean? {
      PrunedOrder(s, a.now);
      PruneLeaves(s, a.now);
    }
    if a.Submit? && Answer(s, a).Accepted? {
      StepIsAdded(s, a);
      AddedOrder(Prune(s, a.now), a.id, a.request, a.now);
    } else if a.Submit? || a.Get? || a.Cancel? || a.Clean? {
      SameTableOrder(Prune(s, a.now), Step(s, a));
    } else {
      SameTableOrder(s, Step(s, a));
    }
  }

  lemma {:induction false} RunOrder(states: seq<State>, actions: seq<Action>, i: nat)
    requires IsRun(states, actions) && i < |states|
    ensures InAcceptedOrder(states[i])
  {
    hide Inv, Enabled, Step;
    if i > 0 {
      RunOrder(states, actions, i - 1);
      RunInv(states, actions, i - 1);
      StepOrder(states[i - 1], actions[i - 1]);
    }
  }

  /** Of two jobs that finished at the same time, pruning for the limit drops the one accepted first. */
  lemma FirstAcceptedGoes(states: seq<State>, actions: seq<Action>, i: nat, now: int, gone: Id, kept: Id)
    requires IsRun(states, actions) && i < |states|
    requires var s := states[i];
             && gone in s.jobs && gone !in Prune(s, now).jobs && !TooOld(s, now, gone)
             && kept in Prune(s, now).jobs && kept in s.jobs && Terminal(s.jobs[kept].status)
             && s.jobs[kept].completedAt == s.jobs[gone].completedAt
    ensures Ahead(states[i].issued, gone, kept)
  {
    hide Inv, Enabled, Step, Prune, TooOld, Expired, Ahead;
    RunInv(states, actions, i);
    RunOrder(states, actions, i);
    TooOldIsExpired(states[i], now, gone);
    TooOldIsExpired(states[i], now, kept);
    OlderFirst(states[i], now, gone, kept);
    FilterAhead(states[i].issued, InTable(states[i]), gone, kept);
  }

  lemma OlderFirst(s: State, now: int, gone: Id, kept: Id)
    requires Inv(s) && gone in s.jobs && gone !in Prune(s, now).jobs && !Expired(s, now, gone)
    requires kept in s.jobs && kept in Prune(s, now).jobs && Terminal(s.jobs[kept].status)
    requires s.jobs[kept].completedAt == s.jobs[gone].completedAt
    ensures Ahead(s.order, gone, kept)
  {
    hide Inv, Expired, SortBy, Ahead, Filter;
    var all, done := DoneIds(s, now), Filter(Filter(s.order, Unexpired(s, now)), IsDone(s));
    PrefixFirst(s, now, gone, kept);
    var k := CompletedKey(s)(gone);
    FilterAhead(all, HasKey(CompletedKey(s), k), gone, kept);
    SortByStable(done, CompletedKey(s), k);
    FilterAhead(done, HasKey(CompletedKey(s), k), gone, kept);
    DoneIn(s, now, gone);
    DoneIn(s, now, kept);
    FilterAhead(Filter(s.order, Unexpired(s, now)), IsDone(s), gone, kept);
    FilterAhead(s.order, Unexpired(s, now), gone, kept);
  }

  lemma PrefixFirst(s: State, now: int, gone: Id, kept: Id)
    requires Inv(s) && gone in s.jobs && gone !in Prune(s, now).jobs && !Expired(s, now, gone)
    requires kept in s.jobs && kept in Prune(s, now).jobs && Terminal(s.jobs[kept].status)
    ensures Ahead(DoneIds(s, now), gone, kept)
    ensures gone in DoneIds(s, now) && kept in DoneIds(s, now)
  {
    hide Inv, DoneIds, Excess;
    InvListed(s);
    DoneIdsExact(s, now);
    TooOldIsExpired(s, now, kept);
    assert gone in Dropped(s, now) && kept !in Dropped(s, now);
    var i, j := SplitByPrefix(DoneIds(s, now), Excess(s, now), gone, kept);
  }

  lemma DoneIn(s: State, now: int, id: Id)
    requires Inv(s) && id in DoneIds(s, now)
    ensures Unexpired(s, now)(id) && IsDone(s)(id)
  {
    hide Inv, DoneIds, Expired;
    InvListed(s);
    DoneIdsExact(s, now);
  }
}
