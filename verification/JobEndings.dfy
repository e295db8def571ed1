/** How a job gets from one status to the next: what brings each of them about, for one
    step and for whole runs. */
module JobEndings {
  import opened Prelude
  import opened JobTable
  import opened JobQueue
  import opened JobProtocol
  import opened JobSafety
  import opened JobGuarantees

  /** The step is the end of this job's handler. */
  ghost predicate HandlerEnds(w: World, a: Action, id: JobId) {
    a.Return? && At(w, a.worker, InHandler) && w.workers[a.worker].job == id
  }

  /** The step is the attempt of this job's worker to get its locks. */
  ghost predicate AsksForLocks(w: World, a: Action, id: JobId) {
    a.Acquire? && At(w, a.worker, HasClaim) && w.workers[a.worker].job == id
  }

  /** The reaper, or a start, finds it running in nobody's hands. */
  ghost predicate FoundAbandoned(w: World, a: Action, id: JobId)
    requires id in w.table.jobs
  {
    || (a.EndAbandoned? && w.reaper.Sweeping? && Abandoned(w, id))
    || (a.Recover? && w.life.Recovering? && w.table.jobs[id].status.Running?)
  }

  /** A start asks for the verdict on a job that was handed over. */
  ghost predicate IsSettled(w: World, a: Action, id: JobId) {
    a.Settle? && w.life.Down? && id in w.handedOver
  }

  /** What ends a job, and how: by its own handler, by what failed before it, by whoever
      finds it abandoned, by the exit code of what it was handed to, or in the queue. */
  ghost predicate Ends(w: World, a: Action, id: JobId, status: Status)
    requires id in w.table.jobs
  {
    match status
    case Successful =>
      || (HandlerEnds(w, a, id) && a.outcome.Returned? && !a.outcome.cancelSeen && a.outcome.failed == 0)
      || (IsSettled(w, a, id) && id in a.exit && a.exit[id] == 0)
    case PartiallySuccessful =>
      && HandlerEnds(w, a, id) && a.outcome.Returned? && !a.outcome.cancelSeen
      && a.outcome.failed > 0 && a.outcome.succeeded > 0
    case Failed =>
      || (HandlerEnds(w, a, id) && a.outcome.Raised?)
      || (HandlerEnds(w, a, id) && a.outcome.Returned? && !a.outcome.cancelSeen
          && a.outcome.failed > 0 && a.outcome.succeeded == 0)
      || (AsksForLocks(w, a, id) && !w.table.jobs[id].known)
      || (IsSettled(w, a, id) && !(id in a.exit && a.exit[id] == 0))
      || (FoundAbandoned(w, a, id) && !w.table.jobs[id].cancelRequested)
    case Cancelled =>
      || (HandlerEnds(w, a, id) && a.outcome.Returned? && a.outcome.cancelSeen)
      || (HandlerEnds(w, a, id) && a.outcome.Interrupted? && !w.table.jobs[id].status.Detached?)
      || (a == Cancel(id) && w.table.jobs[id].status.Queued?)
      || (FoundAbandoned(w, a, id) && w.table.jobs[id].cancelRequested)
    case _ => false
  }

  lemma HandlerEndsIt(w: World, a: Action, id: JobId)
    requires Inv(w) && HandlerEnds(w, a, id)
    ensures id in w.table.jobs && id in Apply(w, a).table.jobs
    ensures w.table.jobs[id].status.Running? || w.table.jobs[id].status.Detached?
    ensures var after := Apply(w, a).table.jobs[id].status;
      && (after == Successful <==> a.outcome.Returned? && !a.outcome.cancelSeen && a.outcome.failed == 0)
      && (after == PartiallySuccessful <==>
            a.outcome.Returned? && !a.outcome.cancelSeen && a.outcome.failed > 0 && a.outcome.succeeded > 0)
      && (after == Failed <==>
            || a.outcome.Raised?
            || (a.outcome.Returned? && !a.outcome.cancelSeen && a.outcome.failed > 0 && a.outcome.succeeded == 0))
      && (after == Cancelled <==>
            || (a.outcome.Returned? && a.outcome.cancelSeen)
            || (a.outcome.Interrupted? && !w.table.jobs[id].status.Detached?))
      && (!after.Terminal() <==> a.outcome.Interrupted? && w.table.jobs[id].status.Detached?)
      && (!after.Terminal() ==> after == w.table.jobs[id].status)
  {
    assert StageFits(w, id, InHandler);
  }

  lemma WorkerEnds(w: World, a: Action, id: JobId, status: Status)
    requires Inv(w) && ByWorker(a) && id in w.table.jobs && !w.table.jobs[id].status.Terminal() && status.Terminal()
    ensures id in Apply(w, a).table.jobs
    ensures Apply(w, a).table.jobs[id].status == status <==> Ends(w, a, id, status)
  {
    hide Inv, Apply;
    if HandlerEnds(w, a, id) {
      HandlerEndsIt(w, a, id);
    } else if AsksForLocks(w, a, id) {
      LocksEnd(w, a, id);
    } else {
      OthersEndNothing(w, a, id);
    }
  }

  lemma LocksEnd(w: World, a: Action, id: JobId)
    requires Inv(w) && AsksForLocks(w, a, id)
    ensures id in w.table.jobs && id in Apply(w, a).table.jobs
    ensures var job := w.table.jobs[id];
      Apply(w, a).table.jobs[id].status ==
        if !job.known then Failed
        else if Distinct(job.resources) && forall r <- job.resources :: r !in w.table.locks then Running else Queued
    ensures var job, after := w.table.jobs[id], Apply(w, a).table.jobs[id];
      && (after.status.Running? ==> after.blocker == NotBlocked && after.startedAt == job.startedAt)
      && (after.status.Queued? ==> after.startedAt == None)
      && (after.status.Queued? ==>
            match after.blocker
            case BlockedBy(holder) => StandsInTheWay(w.table, id, holder, w.clock)
            case LostRace => forall holder :: !StandsInTheWay(w.table, id, holder, w.clock)
            case NotBlocked => false)
  {
    hide StandsInTheWay, TryAcquire;
    assert StageFits(w, id, HasClaim);
    AcquireAllOrNothing(w.table, id, w.clock);
    if TryAcquire(w.table, id, w.clock).1.Refused? {
      RefusalExactly(w.table, id, w.clock);
    }
  }

  lemma OthersEndNothing(w: World, a: Action, id: JobId)
    requires Inv(w) && ByWorker(a) && id in w.table.jobs && !w.table.jobs[id].status.Terminal()
    requires !HandlerEnds(w, a, id) && !AsksForLocks(w, a, id)
    ensures id in Apply(w, a).table.jobs && !Apply(w, a).table.jobs[id].status.Terminal()
  {
    if a.Acquire? || a.Return? {
      WorkerStepStatus(w, a, id);
    } else {
      OnlyTheseFinish(w, a, id);
    }
  }

  lemma AbandonedEnds(w: World, a: Action, id: JobId)
    requires Inv(w) && (a.EndAbandoned? || a.Recover?) && id in w.table.jobs && !w.table.jobs[id].status.Terminal()
    ensures id in Apply(w, a).table.jobs
    ensures Apply(w, a).table.jobs[id].status ==
      if !FoundAbandoned(w, a, id) then w.table.jobs[id].status
      else if w.table.jobs[id].cancelRequested then Cancelled else Failed
  {
    hide Carriage, Stages, Leases, OwnsNone;
    assert JobFits(w, id);
  }

  lemma ProcessEnds(w: World, a: Action, id: JobId, status: Status)
    requires Inv(w) && !ByWorker(a) && id in w.table.jobs && !w.table.jobs[id].status.Terminal() && status.Terminal()
    ensures id in Apply(w, a).table.jobs
    ensures Apply(w, a).table.jobs[id].status == status <==> Ends(w, a, id, status)
  {
    hide Inv, Apply;
    if a.Poll? {
      PollStatus(w, a, id);
    } else if a.Crash? {
      CrashStatus(w, a.undone, id);
    } else if a.EndAbandoned? || a.Recover? {
      AbandonedEnds(w, a, id);
    } else if a.Settle? {
      SettleEnds(w, a, id);
    } else {
      QueueEnds(w, a, id);
    }
  }

  lemma SettleEnds(w: World, a: Action, id: JobId)
    requires a.Settle? && id in w.table.jobs && !w.table.jobs[id].status.Terminal()
    ensures id in Apply(w, a).table.jobs
    ensures Apply(w, a).table.jobs[id].status ==
      if !IsSettled(w, a, id) then w.table.jobs[id].status
      else if id in a.exit && a.exit[id] == 0 then Successful else Failed
  {
  }

  lemma QueueEnds(w: World, a: Action, id: JobId)
    requires !ByWorker(a) && !a.Poll? && !a.Crash? && !a.EndAbandoned? && !a.Recover? && !a.Settle?
    requires id in w.table.jobs && !w.table.jobs[id].status.Terminal()
    ensures id in Apply(w, a).table.jobs
    ensures Apply(w, a).table.jobs[id].status ==
      if a == Cancel(id) && w.table.jobs[id].status.Queued? then Cancelled else w.table.jobs[id].status
  {
  }

  /** A step brings an open job to this end exactly where it is one of these. */
  lemma EndsExactly(w: World, a: Action, id: JobId, status: Status)
    requires Inv(w) && id in w.table.jobs && !w.table.jobs[id].status.Terminal() && status.Terminal()
    ensures id in Apply(w, a).table.jobs
    ensures Apply(w, a).table.jobs[id].status == status <==> Ends(w, a, id, status)
  {
    hide Inv, Apply, Ends;
    if ByWorker(a) {
      WorkerEnds(w, a, id, status);
    } else {
      ProcessEnds(w, a, id, status);
    }
  }

  // --- Steps between open statuses -----------------------------------------

  /** Its worker's claim was not committed and is undone. */
  ghost predicate ClaimUndone(w: World, a: Action, id: JobId) {
    exists i :: CarriedBy(w, id, i) && w.workers[i].stage.HasClaim?
                && ((a.Abort? && a.worker == i && a.rolledBack) || (a.Crash? && id in a.undone))
  }

  /** Between open statuses a job moves by a claim, a hand-over, a hand-back or a claim that
      is undone, each from the status before it, and stays where it is otherwise. */
  lemma MovesExactly(w: World, a: Action, id: JobId)
    requires Inv(w) && id in w.table.jobs && id in Apply(w, a).table.jobs
    requires !w.table.jobs[id].status.Terminal() && !Apply(w, a).table.jobs[id].status.Terminal()
    ensures var job, after := w.table.jobs[id], Apply(w, a).table.jobs[id].status;
      && (after.Running? && !job.status.Running? <==>
            job.status.Queued? && a.Poll? && CanPoll(w, a.worker, a.candidates) && FirstOpen(w.table, a.candidates, id, a.busy))
      && (after.Detached? && !job.status.Detached? <==>
            job.status.Running? && a.HandOver? && At(w, a.worker, InHandler) && w.workers[a.worker].job == id)
      && (after.Queued? && !job.status.Queued? <==>
            job.status.Running?
            && (ClaimUndone(w, a, id)
                || (AsksForLocks(w, a, id) && job.known
                    && !(Distinct(job.resources) && forall r <- job.resources :: r !in w.table.locks))))
  {
    if a.Acquire? {
      if AsksForLocks(w, a, id) {
        LocksEnd(w, a, id);
      } else {
        WorkerStepStatus(w, a, id);
      }
    } else if a.Poll? {
      PollMoves(w, a, id);
    } else if a.Abort? || a.Crash? {
      UndoMoves(w, a, id);
    } else {
      OtherMoves(w, a, id);
    }
  }

  lemma PollMoves(w: World, a: Action, id: JobId)
    requires a.Poll? && id in w.table.jobs
    ensures id in Apply(w, a).table.jobs
    ensures Apply(w, a).table.jobs[id].status != w.table.jobs[id].status ==>
      w.table.jobs[id].status.Queued? && Apply(w, a).table.jobs[id].status.Running?
    ensures Apply(w, a).table.jobs[id].status != w.table.jobs[id].status <==>
      CanPoll(w, a.worker, a.candidates) && FirstOpen(w.table, a.candidates, id, a.busy)
  {
    PollStatus(w, a, id);
    if CanPoll(w, a.worker, a.candidates) {
      ClaimScanFrame(w.table, a.candidates, a.busy, w.clock);
      ClaimTakesFirst(w.table, a.candidates, a.busy, w.clock);
      if FirstOpen(w.table, a.candidates, id, a.busy) {
        OnlyOneIsFirst(w.table, a.candidates, id, a.busy, w.clock);
      }
    }
  }

  lemma OnlyOneIsFirst(t: Table, candidates: seq<JobId>, id: JobId, busy: map<Resource, JobId>, now: int)
    requires (forall c <- candidates :: c in t.jobs) && FirstOpen(t, candidates, id, busy)
    ensures ClaimScan(t, candidates, busy, now).1 == Some(id)
  {
    ClaimTakesFirst(t, candidates, busy, now);
    var got := ClaimScan(t, candidates, busy, now).1;
    var k :| 0 <= k < |candidates| && candidates[k] == id && !Passed(t, id, busy)
             && forall j :: 0 <= j < k ==> Passed(t, candidates[j], busy);
    assert candidates[k] in candidates;
    var j :| 0 <= j < |candidates| && candidates[j] == got.value && !Passed(t, got.value, busy)
             && forall i :: 0 <= i < j ==> Passed(t, candidates[i], busy);
    assert j == k;
  }

  lemma UndoMoves(w: World, a: Action, id: JobId)
    requires Inv(w) && (a.Abort? || a.Crash?) && id in w.table.jobs
    ensures id in Apply(w, a).table.jobs
    ensures Apply(w, a).table.jobs[id].status == if ClaimUndone(w, a, id) then Queued else w.table.jobs[id].status
    ensures ClaimUndone(w, a, id) ==> w.table.jobs[id].status.Running? && Apply(w, a).table.jobs[id].startedAt == None
  {
    if ClaimUndone(w, a, id) {
      var i :| CarriedBy(w, id, i) && w.workers[i].stage.HasClaim?
               && ((a.Abort? && a.worker == i && a.rolledBack) || (a.Crash? && id in a.undone));
      assert StageFits(w, id, HasClaim);
    } else if a.Abort? && a.worker < |w.workers| && w.workers[a.worker].Carrying? {
      assert CarriedBy(w, w.workers[a.worker].job, a.worker);
    }
  }

  lemma OtherMoves(w: World, a: Action, id: JobId)
    requires Inv(w) && id in w.table.jobs && !a.Acquire? && !a.Poll? && !a.Abort? && !a.Crash?
    requires id in Apply(w, a).table.jobs && !Apply(w, a).table.jobs[id].status.Terminal()
    requires !w.table.jobs[id].status.Terminal()
    ensures Apply(w, a).table.jobs[id].status != w.table.jobs[id].status <==>
      w.table.jobs[id].status.Running? && a.HandOver? && At(w, a.worker, InHandler) && w.workers[a.worker].job == id
    ensures Apply(w, a).table.jobs[id].status != w.table.jobs[id].status ==> Apply(w, a).table.jobs[id].status.Detached?
  {
    hide Carriage, Rows, Leases, Resting, OwnsNone, OwnsAll;
    if a.HandOver? && At(w, a.worker, InHandler) {
      assert StageFits(w, w.workers[a.worker].job, InHandler);
    }
  }

  // --- Rows of the lock table ----------------------------------------------

  /** The step frees this row: its job's own worker on the way out, the reaper for its age,
      or whoever ends a job nobody carries. */
  ghost predicate Frees(w: World, a: Action, r: Resource)
    requires r in w.table.locks && w.table.locks[r].job in w.table.jobs
  {
    var id := w.table.locks[r].job;
    || (a.Unlock? && At(w, a.worker, Closing) && w.workers[a.worker].job == id)
    || (a.Abort? && a.unlocks && CarriedBy(w, id, a.worker)
        && (w.workers[a.worker].stage.InHandler? || w.workers[a.worker].stage.Closing?))
    || (a.ReapRows? && CanReap(w) && w.table.locks[r].expires <= w.clock && id !in w.reaper.carried)
    || FoundAbandoned(w, a, id)
    || (IsSettled(w, a, id) && !w.table.jobs[id].status.Terminal())
  }

  lemma RowGoesExactly(w: World, a: Action, r: Resource)
    requires Inv(w) && r in w.table.locks
    ensures r in Apply(w, a).table.locks <==> !Frees(w, a, r)
  {
    hide Carriage, Stages, Leases, Resting, Apply;
    if a.Acquire? || a.Poll? {
      ClaimKeepsRows(w, a, r);
    } else if ByWorker(a) {
      WorkerFrees(w, a, r);
    } else if a.EndAbandoned? || a.Recover? {
      AbandonedFrees(w, a, r);
    } else {
      ProcessFrees(w, a, r);
    }
  }

  lemma ClaimKeepsRows(w: World, a: Action, r: Resource)
    requires (a.Acquire? || a.Poll?) && r in w.table.locks
    ensures r in Apply(w, a).table.locks
  {
    if a.Acquire? && At(w, a.worker, HasClaim) {
      AcquireAllOrNothing(w.table, w.workers[a.worker].job, w.clock);
    } else if a.Poll? && CanPoll(w, a.worker, a.candidates) {
      ClaimScanFrame(w.table, a.candidates, a.busy, w.clock);
    }
  }

  lemma WorkerFrees(w: World, a: Action, r: Resource)
    requires Rows(w) && ByWorker(a) && !a.Acquire? && r in w.table.locks
    ensures r in Apply(w, a).table.locks <==> !Frees(w, a, r)
  {
    hide JobFits;
  }

  lemma AbandonedFrees(w: World, a: Action, r: Resource)
    requires Rows(w) && (a.EndAbandoned? || a.Recover?) && r in w.table.locks
    ensures r in Apply(w, a).table.locks <==> !Frees(w, a, r)
  {
    hide OwnsNone;
    assert JobFits(w, w.table.locks[r].job);
  }

  lemma ProcessFrees(w: World, a: Action, r: Resource)
    requires Rows(w) && !ByWorker(a) && !a.Poll? && !a.EndAbandoned? && !a.Recover? && r in w.table.locks
    ensures r in Apply(w, a).table.locks <==> !Frees(w, a, r)
  {
    hide JobFits;
  }

  /** A row comes for a resource its job declared, to the worker that asks for all of them
      while each is free, and with a whole lease. */
  lemma RowComesExactly(w: World, a: Action, r: Resource)
    requires Inv(w) && r !in w.table.locks
    ensures r in Apply(w, a).table.locks <==>
      && a.Acquire? && At(w, a.worker, HasClaim)
      && var id := w.workers[a.worker].job;
         var job := w.table.jobs[id];
         job.known && r in job.resources && Distinct(job.resources) && forall q <- job.resources :: q !in w.table.locks
    ensures r in Apply(w, a).table.locks ==>
      Apply(w, a).table.locks[r] == Lock(w.workers[a.worker].job, w.clock + LOCK_LEASE)
  {
    if a.Acquire? && At(w, a.worker, HasClaim) {
      AcquireAllOrNothing(w.table, w.workers[a.worker].job, w.clock);
    } else if r in Apply(w, a).table.locks {
      NewRowsAreFresh(w, a, r);
    }
  }

  // --- The process, the reaper and the set of carried jobs -----------------

  /** Time passes by waiting; a crash stops the process, a start settles and then recovers;
      a hand-over is remembered until it is settled; and a start of a handler is counted. */
  lemma BooksExactly(w: World, a: Action)
    ensures Apply(w, a).clock == w.clock + if a.Pass? then a.seconds else 0
    ensures Apply(w, a).life ==
      if a.Crash? then Down
      else if a.Settle? && w.life.Down? then Recovering
      else if a.Recover? && w.life.Recovering? then Up
      else w.life
    ensures Apply(w, a).handedOver ==
      if a.Settle? && w.life.Down? then {}
      else if a.HandOver? && At(w, a.worker, InHandler) then w.handedOver + {w.workers[a.worker].job}
      else w.handedOver
    ensures Apply(w, a).starts ==
      if a.Begin? && At(w, a.worker, HasLocks) then w.starts + multiset{w.workers[a.worker].job} else w.starts
  {
  }

  /** The reaper lists who is carried, renews, reaps and looks for the abandoned, in this
      order; a failure or a crash ends its pass. */
  lemma ReaperExactly(w: World, a: Action)
    ensures Apply(w, a).reaper ==
      if a.ReaperFails? || a.Crash? then Asleep
      else if a.ListCarried? && w.life.Up? && w.reaper.Asleep? then Listed(w.active, w.clock)
      else if a.RenewCarried? && w.reaper.Listed? then Renewing(w.reaper.carried, w.reaper.since)
      else if a.ReapRows? && CanReap(w) then Sweeping
      else if a.EndAbandoned? && w.reaper.Sweeping? then Asleep
      else w.reaper
  {
  }

  /** Its worker drops the job, or the process does with all of them. */
  ghost predicate Drops(w: World, a: Action, id: JobId) {
    || a.Crash?
    || (a.Abort? && CarriedBy(w, id, a.worker))
    || (a.Forget? && CarriedBy(w, id, a.worker) && (At(w, a.worker, Unlocked) || At(w, a.worker, HandingBack)))
    || (AsksForLocks(w, a, id) && !a.lingers && w.table.jobs[id].known
        && !(Distinct(w.table.jobs[id].resources) && forall r <- w.table.jobs[id].resources :: r !in w.table.locks))
  }

  /** A job comes to `active` by a claim and leaves it when it is dropped. */
  lemma ActiveExactly(w: World, a: Action, id: JobId)
    ensures id in w.active && !a.Poll? ==> (id in Apply(w, a).active <==> !Drops(w, a, id))
    ensures id in w.active && a.Poll? ==> id in Apply(w, a).active
    ensures id !in w.active ==>
      (id in Apply(w, a).active <==>
        a.Poll? && CanPoll(w, a.worker, a.candidates) && FirstOpen(w.table, a.candidates, id, a.busy))
  {
    if a.Poll? {
      PollActive(w, a, id);
    } else if a.Acquire? {
      if At(w, a.worker, HasClaim) {
        AcquireAllOrNothing(w.table, w.workers[a.worker].job, w.clock);
      }
    }
  }

  lemma PollActive(w: World, a: Action, id: JobId)
    requires a.Poll?
    ensures id in Apply(w, a).active <==>
      id in w.active || (CanPoll(w, a.worker, a.candidates) && FirstOpen(w.table, a.candidates, id, a.busy))
  {
    if CanPoll(w, a.worker, a.candidates) {
      ClaimTakesFirst(w.table, a.candidates, a.busy, w.clock);
      if FirstOpen(w.table, a.candidates, id, a.busy) {
        OnlyOneIsFirst(w.table, a.candidates, id, a.busy, w.clock);
      }
    }
  }

  // --- Requests to cancel --------------------------------------------------

  /** A request is recorded for a job that is running or handed over, and never taken
      back. */
  lemma RequestIsRecorded(w: World, a: Action, id: JobId)
    requires Inv(w) && id in w.table.jobs
    ensures id in Apply(w, a).table.jobs
    ensures Apply(w, a).table.jobs[id].cancelRequested <==>
      || w.table.jobs[id].cancelRequested
      || (a == Cancel(id) && (w.table.jobs[id].status.Running? || w.table.jobs[id].status.Detached?))
    ensures Apply(w, a).table.jobs[id].resources == w.table.jobs[id].resources
    ensures Apply(w, a).table.jobs[id].known == w.table.jobs[id].known
  {
    hide Inv, Apply;
    if a.Acquire? || a.Poll? {
      ClaimRecords(w, a, id);
    } else if ByWorker(a) {
      WorkerRecords(w, a, id);
    } else {
      ProcessRecords(w, a, id);
    }
  }

  lemma ClaimRecords(w: World, a: Action, id: JobId)
    requires (a.Acquire? || a.Poll?) && id in w.table.jobs
    ensures id in Apply(w, a).table.jobs
    ensures SameRecord(w.table.jobs[id], Apply(w, a).table.jobs[id])
  {
    if a.Acquire? && At(w, a.worker, HasClaim) {
      AcquireAllOrNothing(w.table, w.workers[a.worker].job, w.clock);
    } else if a.Poll? && CanPoll(w, a.worker, a.candidates) {
      ClaimScanFrame(w.table, a.candidates, a.busy, w.clock);
    }
  }

  predicate SameRecord(job: Job, job': Job) {
    job'.cancelRequested == job.cancelRequested && job'.resources == job.resources && job'.known == job.known
  }

  lemma WorkerRecords(w: World, a: Action, id: JobId)
    requires ByWorker(a) && !a.Acquire? && id in w.table.jobs
    ensures id in Apply(w, a).table.jobs
    ensures SameRecord(w.table.jobs[id], Apply(w, a).table.jobs[id])
  {
  }

  lemma ProcessRecords(w: World, a: Action, id: JobId)
    requires !ByWorker(a) && !a.Poll? && id in w.table.jobs
    ensures id in Apply(w, a).table.jobs
    ensures var job, after := w.table.jobs[id], Apply(w, a).table.jobs[id];
      && after.resources == job.resources && after.known == job.known
      && (after.cancelRequested <==>
            || job.cancelRequested
            || (a == Cancel(id) && (job.status.Running? || job.status.Detached?)))
  {
  }

  // --- Whole runs ----------------------------------------------------------

  ghost predicate EndedAt(workers: nat, actions: seq<Action>, k: nat, id: JobId, status: Status)
    requires k < |actions|
  {
    var w := Reach(workers, actions[..k]);
    id in w.table.jobs && !w.table.jobs[id].status.Terminal() && Ends(w, actions[k], id, status)
  }

  lemma CreatedIsQueued(w: World, a: Action, id: JobId)
    requires Inv(w) && id !in w.table.jobs && id in Apply(w, a).table.jobs
    ensures Apply(w, a).table.jobs[id].status.Queued?
  {
    hide Inv;
    if a.Poll? && CanPoll(w, a.worker, a.candidates) {
      ClaimScanFrame(w.table, a.candidates, a.busy, w.clock);
    } else if a.Acquire? && At(w, a.worker, HasClaim) {
      AcquireAllOrNothing(w.table, w.workers[a.worker].job, w.clock);
    }
  }

  lemma {:induction false} EndHasACause(workers: nat, actions: seq<Action>, id: JobId, status: Status) returns (k: nat)
    requires NeverReclaims(workers, actions) && status.Terminal()
    requires id in Reach(workers, actions).table.jobs && Reach(workers, actions).table.jobs[id].status == status
    ensures k < |actions| && EndedAt(workers, actions, k, id, status)
  {
    hide Apply, Ends, Carriage, Stages, Rows, Leases, Resting, Reclaims;
    var n := |actions| - 1;
    NothingAtFirst(workers, actions, id);
    var before := actions[..n];
    PrefixNeverReclaims(workers, actions, n);
    ReachKeeps(workers, before);
    var w := Reach(workers, before);
    if id !in w.table.jobs {
      CreatedIsQueued(w, actions[n], id);
    } else if w.table.jobs[id].status.Terminal() {
      TerminalStays(w, actions[n], id);
      k := EndHasACause(workers, before, id, status);
      assert actions[..n][..k] == actions[..k];
    } else {
      EndsExactly(w, actions[n], id, status);
      k := n;
    }
  }

  lemma NothingAtFirst(workers: nat, actions: seq<Action>, id: JobId)
    requires id in Reach(workers, actions).table.jobs
    ensures actions != []
  {
  }

  /** In a run a job stands at this end if and only if, at some point of it, it was open
      and one of these steps brought it there. */
  lemma EndedExactly(workers: nat, actions: seq<Action>, id: JobId, status: Status)
    requires NeverReclaims(workers, actions) && status.Terminal()
    ensures (id in Reach(workers, actions).table.jobs && Reach(workers, actions).table.jobs[id].status == status)
            <==> exists k: nat :: k < |actions| && EndedAt(workers, actions, k, id, status)
  {
    hide Reach, Apply, Ends, Carriage, Stages, Rows, Leases, Resting, Reclaims;
    if k: nat :| k < |actions| && EndedAt(workers, actions, k, id, status) {
      PrefixNeverReclaims(workers, actions, k);
      ReachKeeps(workers, actions[..k]);
      EndsExactly(Reach(workers, actions[..k]), actions[k], id, status);
      ReachNext(workers, actions, k);
      TerminalForever(workers, actions, k + 1, |actions|, id);
      assert actions[..|actions|] == actions;
    }
    if id in Reach(workers, actions).table.jobs && Reach(workers, actions).table.jobs[id].status == status {
      var k := EndHasACause(workers, actions, id, status);
    }
  }

  predicate ReturnsWell(a: Action) {
    a.Return? && a.outcome.Returned? && a.outcome.failed == 0 && !a.outcome.cancelSeen
  }

  /** So a job is successful only where its handler returned without a failure and without
      seeing a cancellation, or what it was handed to exited with 0. */
  lemma SuccessIsEarned(workers: nat, actions: seq<Action>, id: JobId)
    requires NeverReclaims(workers, actions)
    requires id in Reach(workers, actions).table.jobs && Reach(workers, actions).table.jobs[id].status == Successful
    ensures exists a :: a in actions && (ReturnsWell(a) || (a.Settle? && id in a.exit && a.exit[id] == 0))
  {
    hide Reach, Apply, NeverReclaims, At;
    var k := EndHasACause(workers, actions, id, Successful);
    assert actions[k] in actions;
  }
}
