/** The runner's promises, over every run from an empty table: claims, lost races,
    lease expiry, renewal, reaping, cancellation, hand-over, crash and restart, in any
    order and any number. */
module JobGuarantees {
  import opened Prelude
  import opened JobTable
  import opened JobQueue
  import opened JobProtocol
  import opened JobSafety

  /** Handing a job back and dropping it from `active` is one step in this run. */
  ghost predicate HandsBackAtOnce(actions: seq<Action>) {
    forall a <- actions :: a.Acquire? ==> !a.lingers
  }

  /** No claim of this run takes a job that `active` still names. */
  ghost predicate NeverReclaims(workers: nat, actions: seq<Action>) {
    forall k :: 0 <= k < |actions| ==> !Reclaims(Reach(workers, actions[..k]), actions[k])
  }

  ghost predicate NobodyLingers(w: World) {
    forall i :: 0 <= i < |w.workers| && w.workers[i].Carrying? ==> !w.workers[i].stage.HandingBack?
  }

  lemma {:induction false} ReachKeeps(workers: nat, actions: seq<Action>)
    requires NeverReclaims(workers, actions)
    ensures Inv(Reach(workers, actions))
  {
    if actions != [] {
      var n := |actions| - 1;
      var before := actions[..n];
      forall k | 0 <= k < |before| ensures !Reclaims(Reach(workers, before[..k]), before[k]) {
        assert before[..k] == actions[..k];
      }
      ReachKeeps(workers, before);
      StepKeeps(Reach(workers, before), actions[n]);
    }
  }

  lemma LingeringNeedsAcquire(w: World, a: Action)
    requires NobodyLingers(w) && (a.Acquire? ==> !a.lingers)
    ensures NobodyLingers(Apply(w, a))
  {
  }

  /** A job in `active` is not in the queue unless some worker is still handing it back. */
  lemma CarriedIsNotQueued(w: World)
    requires Inv(w) && NobodyLingers(w)
    ensures forall id <- w.active :: id in w.table.jobs && !w.table.jobs[id].status.Queued?
  {
    forall id <- w.active ensures !w.table.jobs[id].status.Queued? {
      var i :| CarriedBy(w, id, i);
      assert StageFits(w, id, w.workers[i].stage);
    }
  }

  lemma QueuedIsFree(w: World, a: Action)
    requires Inv(w) && NobodyLingers(w)
    ensures !Reclaims(w, a)
  {
    CarriedIsNotQueued(w);
    if a.Poll? && CanPoll(w, a.worker, a.candidates) {
      ClaimScanFrame(w.table, a.candidates, a.busy, w.clock);
    }
  }

  /** Where a hand-back is one step, nothing can be reclaimed too early. */
  lemma {:induction false} AtOnceNeverReclaims(workers: nat, actions: seq<Action>)
    requires HandsBackAtOnce(actions)
    ensures NeverReclaims(workers, actions) && NobodyLingers(Reach(workers, actions))
  {
    if actions != [] {
      var n := |actions| - 1;
      var before := actions[..n];
      AtOnceNeverReclaims(workers, before);
      ReachKeeps(workers, before);
      QueuedIsFree(Reach(workers, before), actions[n]);
      LingeringNeedsAcquire(Reach(workers, before), actions[n]);
      forall k | 0 <= k < |actions| ensures !Reclaims(Reach(workers, actions[..k]), actions[k]) {
        if k < n {
          assert before[..k] == actions[..k] && before[k] == actions[k];
        } else {
          assert actions[..k] == before;
        }
      }
    }
  }

  // --- Exclusion and single start ------------------------------------------

  ghost predicate Executing(w: World, id: JobId) {
    exists i :: CarriedBy(w, id, i) && w.workers[i].stage.InHandler?
  }

  ghost predicate Disjoint(w: World, a: JobId, b: JobId)
    requires a in w.table.jobs && b in w.table.jobs
  {
    forall r <- w.table.jobs[a].resources :: r !in w.table.jobs[b].resources
  }

  /** Two executing jobs share no resource; an executing job owns a lock row for each
      resource it declared - even past its lease - and is not declared finished while its
      handler is at work; and no handler is entered twice. */
  ghost predicate Safe(w: World) {
    && (forall a, b | Executing(w, a) && Executing(w, b) && a != b ::
          a in w.table.jobs && b in w.table.jobs && Disjoint(w, a, b))
    && (forall id | Executing(w, id) ::
          && id in w.table.jobs && OwnsAll(w.table, id)
          && (w.table.jobs[id].status.Running? || w.table.jobs[id].status.Detached?))
    && (forall id :: w.starts[id] <= 1)
  }

  lemma InvIsSafe(w: World)
    requires Inv(w)
    ensures Safe(w)
  {
    forall id | Executing(w, id)
      ensures id in w.table.jobs && OwnsAll(w.table, id)
      ensures w.table.jobs[id].status.Running? || w.table.jobs[id].status.Detached?
    {
      var i :| CarriedBy(w, id, i) && w.workers[i].stage.InHandler?;
      assert StageFits(w, id, InHandler);
    }
    forall id ensures w.starts[id] <= 1 {
      if id in w.table.jobs {
        assert JobFits(w, id);
      }
    }
  }

  /** The promise, for any interleaving in which a hand-back is one step. */
  lemma RunnerIsSafe(workers: nat, actions: seq<Action>)
    requires HandsBackAtOnce(actions)
    ensures Safe(Reach(workers, actions))
  {
    AtOnceNeverReclaims(workers, actions);
    ReachKeeps(workers, actions);
    InvIsSafe(Reach(workers, actions));
  }

  /** The same with the two halves of a hand-back apart, as long as no claim falls
      between them. */
  lemma RunnerIsSafeUnlessReclaimed(workers: nat, actions: seq<Action>)
    requires NeverReclaims(workers, actions)
    ensures Safe(Reach(workers, actions))
  {
    ReachKeeps(workers, actions);
    InvIsSafe(Reach(workers, actions));
  }

  // --- Terminal means terminal ---------------------------------------------

  ghost predicate ByWorker(a: Action) {
    a.Acquire? || a.Begin? || a.HandOver? || a.Return? || a.Unlock? || a.Forget? || a.Abort?
  }

  lemma AcquireStatus(w: World, a: Action, id: JobId)
    requires Inv(w) && a.Acquire? && id in w.table.jobs
    ensures Apply(w, a).table.jobs.Keys == w.table.jobs.Keys
    ensures Apply(w, a).table.jobs[id].status != w.table.jobs[id].status ==>
      CarriedBy(w, id, a.worker) && !w.table.jobs[id].status.Terminal()
  {
    if At(w, a.worker, HasClaim) {
      assert StageFits(w, w.workers[a.worker].job, HasClaim);
      AcquireAllOrNothing(w.table, w.workers[a.worker].job, w.clock);
    }
  }

  lemma HandlerStatus(w: World, a: Action, id: JobId)
    requires Inv(w) && (a.HandOver? || a.Return?) && id in w.table.jobs
    ensures Apply(w, a).table.jobs.Keys == w.table.jobs.Keys
    ensures Apply(w, a).table.jobs[id].status != w.table.jobs[id].status ==>
      CarriedBy(w, id, a.worker) && !w.table.jobs[id].status.Terminal()
  {
    if At(w, a.worker, InHandler) {
      assert StageFits(w, w.workers[a.worker].job, InHandler);
    }
  }

  lemma LeaverStatus(w: World, a: Action, id: JobId)
    requires Inv(w) && (a.Begin? || a.Unlock? || a.Forget? || a.Abort?) && id in w.table.jobs
    ensures Apply(w, a).table.jobs.Keys == w.table.jobs.Keys
    ensures Apply(w, a).table.jobs[id].status != w.table.jobs[id].status ==>
      CarriedBy(w, id, a.worker) && !w.table.jobs[id].status.Terminal()
  {
    if a.Abort? && a.worker < |w.workers| && w.workers[a.worker].Carrying? {
      assert StageFits(w, w.workers[a.worker].job, w.workers[a.worker].stage);
    }
  }

  /** A worker's own step changes the status of no job but its own, and of that only
      while it is open. */
  lemma WorkerStepStatus(w: World, a: Action, id: JobId)
    requires Inv(w) && ByWorker(a) && id in w.table.jobs
    ensures Apply(w, a).table.jobs.Keys == w.table.jobs.Keys
    ensures Apply(w, a).table.jobs[id].status != w.table.jobs[id].status ==>
      CarriedBy(w, id, a.worker) && !w.table.jobs[id].status.Terminal()
  {
    hide Apply, Inv;
    if a.Acquire? {
      AcquireStatus(w, a, id);
    } else if a.HandOver? || a.Return? {
      HandlerStatus(w, a, id);
    } else {
      LeaverStatus(w, a, id);
    }
  }

  lemma OnlyTheseFinish(w: World, a: Action, id: JobId)
    requires Inv(w) && id in w.table.jobs && !w.table.jobs[id].status.Terminal()
    requires a.Begin? || a.Unlock? || a.Forget? || a.HandOver? || a.Abort?
    ensures id in Apply(w, a).table.jobs && !Apply(w, a).table.jobs[id].status.Terminal()
  {
    hide Inv;
  }

  /** A claim takes a queued job and no other. */
  lemma PollStatus(w: World, a: Action, id: JobId)
    requires a.Poll? && id in w.table.jobs
    ensures id in Apply(w, a).table.jobs
    ensures Apply(w, a).table.jobs[id].status != w.table.jobs[id].status ==>
      w.table.jobs[id].status.Queued? && Apply(w, a).table.jobs[id].status.Running?
  {
    if CanPoll(w, a.worker, a.candidates) {
      ClaimScanFrame(w.table, a.candidates, a.busy, w.clock);
    }
  }

  /** Operators, the reaper and a start leave finished jobs as they are, and carried
      ones but for a cancellation in the queue. */
  lemma OtherStepStatus(w: World, a: Action, id: JobId)
    requires Inv(w) && !ByWorker(a) && !a.Crash? && !a.Poll? && id in w.table.jobs
    ensures id in Apply(w, a).table.jobs
    ensures w.table.jobs[id].status.Terminal() ==> Apply(w, a).table.jobs[id].status == w.table.jobs[id].status
    ensures id in w.active && Apply(w, a).table.jobs[id].status.Terminal() ==>
      w.table.jobs[id].status.Terminal() || (a == Cancel(id) && w.table.jobs[id].status.Queued?)
  {
  }

  lemma CrashStatus(w: World, undone: set<JobId>, id: JobId)
    requires Inv(w) && id in w.table.jobs
    ensures id in Apply(w, Crash(undone)).table.jobs
    ensures w.table.jobs[id].status.Terminal() ==> Apply(w, Crash(undone)).table.jobs[id].status == w.table.jobs[id].status
    ensures Apply(w, Crash(undone)).table.jobs[id].status.Terminal() ==> w.table.jobs[id].status.Terminal()
  {
    if id in undone * Claims(w.workers) {
      var i :| 0 <= i < |w.workers| && w.workers[i].Carrying? && w.workers[i].stage.HasClaim? && w.workers[i].job == id;
      assert StageFits(w, id, HasClaim);
    }
  }

  /** No step, whatever it is, changes the status of a finished job. */
  lemma TerminalStays(w: World, a: Action, id: JobId)
    requires Inv(w) && id in w.table.jobs && w.table.jobs[id].status.Terminal()
    ensures var w' := Apply(w, a);
      id in w'.table.jobs && w'.table.jobs[id].status == w.table.jobs[id].status
  {
    if ByWorker(a) {
      WorkerStepStatus(w, a, id);
    } else if a.Crash? {
      CrashStatus(w, a.undone, id);
    } else if a.Poll? {
      PollStatus(w, a, id);
    } else {
      OtherStepStatus(w, a, id);
    }
  }

  lemma PrefixNeverReclaims(workers: nat, actions: seq<Action>, n: nat)
    requires NeverReclaims(workers, actions) && n <= |actions|
    ensures NeverReclaims(workers, actions[..n])
  {
    forall k | 0 <= k < n ensures !Reclaims(Reach(workers, actions[..n][..k]), actions[..n][k]) {
      assert actions[..n][..k] == actions[..k];
    }
  }

  lemma ReachNext(workers: nat, actions: seq<Action>, n: nat)
    requires n < |actions|
    ensures Reach(workers, actions[..n + 1]) == Apply(Reach(workers, actions[..n]), actions[n])
  {
    assert actions[..n + 1][..n] == actions[..n];
  }

  /** Once finished at some point of a run, a job has the same status at every later
      point of it. */
  lemma {:induction false} TerminalForever(workers: nat, actions: seq<Action>, n: nat, m: nat, id: JobId)
    requires NeverReclaims(workers, actions) && n <= m <= |actions|
    requires var early := Reach(workers, actions[..n]).table.jobs; id in early && early[id].status.Terminal()
    ensures var late := Reach(workers, actions[..m]).table.jobs;
      id in late && late[id].status == Reach(workers, actions[..n]).table.jobs[id].status
    decreases m
  {
    hide Apply, Reach, NeverReclaims, Carriage, Stages, Rows, Leases, Resting;
    if n < m {
      TerminalForever(workers, actions, n, m - 1, id);
      PrefixNeverReclaims(workers, actions, m - 1);
      ReachKeeps(workers, actions[..m - 1]);
      TerminalStays(Reach(workers, actions[..m - 1]), actions[m - 1], id);
      ReachNext(workers, actions, m - 1);
    }
  }

  /** A job in `active` is finished by the worker carrying it and nobody else; the one
      exception is a job on its way back to the queue, which an operator may cancel
      like any other queued job. */
  lemma EndedByItsOwnWorker(w: World, a: Action, id: JobId)
    requires Inv(w) && id in w.active && id in w.table.jobs && !w.table.jobs[id].status.Terminal()
    requires id in Apply(w, a).table.jobs && Apply(w, a).table.jobs[id].status.Terminal()
    ensures
      || ((a.Acquire? || a.Return?) && CarriedBy(w, id, a.worker))
      || (a == Cancel(id) && w.table.jobs[id].status.Queued? && !NobodyLingers(w))
  {
    if ByWorker(a) {
      WorkerStepStatus(w, a, id);
      if !a.Acquire? && !a.Return? {
        OnlyTheseFinish(w, a, id);
      }
    } else if a.Crash? {
      CrashStatus(w, a.undone, id);
    } else if a.Poll? {
      PollStatus(w, a, id);
    } else {
      OtherStepStatus(w, a, id);
      if NobodyLingers(w) {
        CarriedIsNotQueued(w);
      }
    }
  }

  // --- Leases --------------------------------------------------------------

  lemma WorkerStepLeases(w: World, a: Action, r: Resource)
    requires Inv(w) && ByWorker(a) && r in w.table.locks && r in Apply(w, a).table.locks
    ensures Apply(w, a).table.locks[r] == w.table.locks[r]
  {
    if a.Acquire? && At(w, a.worker, HasClaim) {
      AcquireAllOrNothing(w.table, w.workers[a.worker].job, w.clock);
    }
  }

  /** A lease grows only by the reaper's renewal of a job it has listed as carried. */
  lemma OnlyCarriedAreRenewed(w: World, a: Action, r: Resource)
    requires Inv(w) && r in w.table.locks && r in Apply(w, a).table.locks
    requires Apply(w, a).table.locks[r] != w.table.locks[r]
    ensures a.RenewCarried? && w.reaper.Listed?
    ensures w.table.locks[r].job in w.reaper.carried
    ensures Apply(w, a).table.locks[r].job == w.table.locks[r].job
  {
    if ByWorker(a) {
      WorkerStepLeases(w, a, r);
    } else if a.Poll? && CanPoll(w, a.worker, a.candidates) {
      ClaimScanFrame(w.table, a.candidates, a.busy, w.clock);
    }
  }

  function Sweep(w: World): World {
    Apply(Apply(Apply(w, ListCarried), RenewCarried), ReapRows)
  }

  lemma SweepTable(w: World)
    requires w.life.Up? && w.reaper.Asleep?
    ensures Sweep(w) == w.(table := Reaped(Renewed(w.table, w.active, w.clock), w.active, w.clock), reaper := Sweeping)
  {
  }

  /** One whole pass of the reaper: afterwards every expired row belongs to a job some
      worker carries, every row of such a job is still there with a full lease, and an
      expired row of any other job is gone. */
  lemma PassFreesWhatNobodyCarries(w: World)
    requires Inv(w) && w.life.Up? && w.reaper.Asleep?
    ensures forall r <- Sweep(w).table.locks ::
      Sweep(w).table.locks[r].expires <= w.clock ==> Sweep(w).table.locks[r].job in w.active
    ensures forall r <- w.table.locks :: w.table.locks[r].job in w.active ==>
      r in Sweep(w).table.locks && Sweep(w).table.locks[r] == Lock(w.table.locks[r].job, w.clock + LOCK_LEASE)
    ensures forall r <- w.table.locks ::
      w.table.locks[r].job !in w.active && w.table.locks[r].expires <= w.clock ==> r !in Sweep(w).table.locks
  {
    SweepTable(w);
  }

  function FullPass(w: World): World {
    Apply(Sweep(w), EndAbandoned)
  }

  lemma FullPassTable(w: World)
    requires w.life.Up? && w.reaper.Asleep?
    ensures FullPass(w) == w.(table :=
      OrphansEnded(Reaped(Renewed(w.table, w.active, w.clock), w.active, w.clock), w.active, Some(ORPHAN_GRACE), w.clock))
  {
    SweepTable(w);
  }

  /** And the same pass ends every running job that nobody carries, unless it is
      younger than the grace period, and frees what it held. */
  lemma PassEndsWhatNobodyCarries(w: World, id: JobId)
    requires Inv(w) && w.life.Up? && w.reaper.Asleep?
    requires id in w.table.jobs && w.table.jobs[id].status.Running? && id !in w.active
    ensures id in FullPass(w).table.jobs && w.table.jobs[id].startedAt.Some?
    ensures
      if w.table.jobs[id].startedAt.value < w.clock - ORPHAN_GRACE
      then FullPass(w).table.jobs[id].status.Terminal() && OwnsNone(FullPass(w).table, id)
      else FullPass(w).table.jobs[id] == w.table.jobs[id]
  {
    FullPassTable(w);
    assert JobFits(w, id);
  }

  // --- The reaper in the middle of a run -----------------------------------

  /** A row there after a step and not before it was taken for a whole lease. */
  lemma NewRowsAreFresh(w: World, a: Action, r: Resource)
    requires Inv(w) && r !in w.table.locks && r in Apply(w, a).table.locks
    ensures a.Acquire? && Apply(w, a).table.locks[r].expires == w.clock + LOCK_LEASE
  {
    if a.Acquire? && At(w, a.worker, HasClaim) {
      AcquireAllOrNothing(w.table, w.workers[a.worker].job, w.clock);
    } else if a.Poll? && CanPoll(w, a.worker, a.candidates) {
      ClaimScanFrame(w.table, a.candidates, a.busy, w.clock);
    }
  }

  /** Between renewing and reaping, the rows of the jobs the reaper listed have their
      full lease, counted from the listing. */
  ghost predicate RenewedRows(w: World) {
    w.reaper.Renewing? ==>
      forall r <- w.table.locks :: w.table.locks[r].job in w.reaper.carried ==>
        w.table.locks[r].expires >= w.reaper.since + LOCK_LEASE
  }

  lemma ReaperMoves(w: World, a: Action)
    requires Apply(w, a).reaper.Renewing?
    ensures (a.RenewCarried? && w.reaper.Listed?) || Apply(w, a).reaper == w.reaper
  {
  }

  lemma RenewedStep(w: World, a: Action)
    requires Inv(w) && RenewedRows(w)
    ensures RenewedRows(Apply(w, a))
  {
    var w' := Apply(w, a);
    if w'.reaper.Renewing? {
      ReaperMoves(w, a);
      if !(a.RenewCarried? && w.reaper.Listed?) {
        forall r <- w'.table.locks | w'.table.locks[r].job in w'.reaper.carried
          ensures w'.table.locks[r].expires >= w'.reaper.since + LOCK_LEASE
        {
          RowStep(w, a, r);
        }
      }
    }
  }

  lemma RowStep(w: World, a: Action, r: Resource)
    requires Inv(w) && w.reaper.Renewing? && r in Apply(w, a).table.locks
    ensures
      || (r in w.table.locks && Apply(w, a).table.locks[r] == w.table.locks[r])
      || Apply(w, a).table.locks[r].expires == w.clock + LOCK_LEASE
  {
    if r !in w.table.locks {
      NewRowsAreFresh(w, a, r);
    } else if Apply(w, a).table.locks[r] != w.table.locks[r] {
      OnlyCarriedAreRenewed(w, a, r);
    }
  }

  lemma {:induction false} ReachRenewed(workers: nat, actions: seq<Action>)
    requires NeverReclaims(workers, actions)
    ensures RenewedRows(Reach(workers, actions))
  {
    if actions != [] {
      var n := |actions| - 1;
      PrefixNeverReclaims(workers, actions, n);
      ReachRenewed(workers, actions[..n]);
      ReachKeeps(workers, actions[..n]);
      RenewedStep(Reach(workers, actions[..n]), actions[n]);
    }
  }

  predicate CanReap(w: World) {
    w.reaper.Renewing? && w.clock < w.reaper.since + LOCK_LEASE
  }

  /** The rows that go are the expired ones, and none of a job some worker carries. */
  ghost predicate LosesExpired(w: World, w': World) {
    && w'.table.jobs == w.table.jobs
    && (forall r <- w'.table.locks :: r in w.table.locks && w'.table.locks[r] == w.table.locks[r])
    && (forall r <- w.table.locks :: r in w'.table.locks <==> w.table.locks[r].expires > w.clock)
    && (forall r <- w.table.locks :: w.table.locks[r].job in w.active ==> r in w'.table.locks)
  }

  lemma ReapLosesExpired(w: World)
    requires Leases(w) && RenewedRows(w) && CanReap(w)
    ensures LosesExpired(w, Apply(w, ReapRows))
  {
  }

  /** Wherever the reaper reaps in the course of a run, whatever went on since it made
      its list: the rows that go are exactly the expired ones, and none of them is of a
      job some worker carries, listed or claimed since. */
  lemma ReapTakesExpiredExactly(workers: nat, actions: seq<Action>)
    requires NeverReclaims(workers, actions) && CanReap(Reach(workers, actions))
    ensures LosesExpired(Reach(workers, actions), Apply(Reach(workers, actions), ReapRows))
  {
    hide Reach, Apply, LosesExpired, NeverReclaims, RenewedRows, Carriage, Stages, Rows, Leases, Resting;
    ReachKeeps(workers, actions);
    ReachRenewed(workers, actions);
    ReapLosesExpired(Reach(workers, actions));
  }

  /** A running job no worker carries, older than the grace period. */
  predicate Abandoned(w: World, id: JobId)
    requires id in w.table.jobs
  {
    var job := w.table.jobs[id];
    job.status.Running? && id !in w.active && job.startedAt.Some? && job.startedAt.value < w.clock - ORPHAN_GRACE
  }

  /** Abandoned jobs finish and hold nothing, every other job has its row and its
      locks, and what runs afterwards is carried or young. */
  ghost predicate EndsAbandoned(w: World, w': World) {
    && w'.table.jobs.Keys == w.table.jobs.Keys
    && (forall id <- w.table.jobs ::
          if Abandoned(w, id) then w'.table.jobs[id].status.Terminal() && OwnsNone(w'.table, id)
          else w'.table.jobs[id] == w.table.jobs[id])
    && (forall r <- w'.table.locks :: r in w.table.locks && w'.table.locks[r] == w.table.locks[r])
    && (forall r <- w.table.locks :: w.table.locks[r].job in w.table.jobs &&
          (r in w'.table.locks <==> !Abandoned(w, w.table.locks[r].job)))
    && (forall id <- w'.table.jobs :: w'.table.jobs[id].status.Running? ==> CarriedOrYoung(w', id))
  }

  ghost predicate CarriedOrYoung(w: World, id: JobId)
    requires id in w.table.jobs
  {
    || (exists i :: CarriedBy(w, id, i))
    || (w.table.jobs[id].startedAt.Some? && w.table.jobs[id].startedAt.value >= w.clock - ORPHAN_GRACE)
  }

  lemma OrphansAreAbandoned(w: World)
    requires Rows(w)
    ensures forall id <- w.table.jobs ::
      && (id in Orphans(w.table, w.active, Some(ORPHAN_GRACE), w.clock) <==> Abandoned(w, id))
      && (w.table.jobs[id].status.Running? ==> w.table.jobs[id].startedAt.Some?)
  {
    forall id <- w.table.jobs ensures w.table.jobs[id].status.Running? ==> w.table.jobs[id].startedAt.Some? {
      assert JobFits(w, id);
    }
  }

  lemma LeftIsCarriedOrYoung(w: World, w': World, id: JobId)
    requires Carriage(w) && w'.workers == w.workers && w'.clock == w.clock
    requires id in w.table.jobs && w.table.jobs[id].startedAt.Some? && w.table.jobs[id].status.Running? && !Abandoned(w, id)
    requires id in w'.table.jobs && w'.table.jobs[id] == w.table.jobs[id]
    ensures CarriedOrYoung(w', id)
  {
    if id in w.active {
      var i :| CarriedBy(w, id, i);
      assert CarriedBy(w', id, i);
    }
  }

  lemma SweepEndsAbandoned(w: World)
    requires Carriage(w) && Rows(w) && w.reaper.Sweeping?
    ensures EndsAbandoned(w, Apply(w, EndAbandoned))
  {
    var w' := Apply(w, EndAbandoned);
    OrphansAreAbandoned(w);
    forall id <- w'.table.jobs | w'.table.jobs[id].status.Running? ensures CarriedOrYoung(w', id) {
      LeftIsCarriedOrYoung(w, w', id);
    }
  }

  /** And wherever in a run it looks for abandoned jobs. */
  lemma SweepEndsAbandonedExactly(workers: nat, actions: seq<Action>)
    requires NeverReclaims(workers, actions) && Reach(workers, actions).reaper.Sweeping?
    ensures EndsAbandoned(Reach(workers, actions), Apply(Reach(workers, actions), EndAbandoned))
  {
    hide Reach, Apply, EndsAbandoned, NeverReclaims, Carriage, Stages, Rows, Leases, Resting;
    ReachKeeps(workers, actions);
    SweepEndsAbandoned(Reach(workers, actions));
  }

  // --- Starting up ---------------------------------------------------------

  function StartUp(w: World, exit: map<JobId, int>): World {
    Apply(Apply(w, Settle(exit)), Recover)
  }

  lemma StartUpTable(w: World, exit: map<JobId, int>)
    requires w.life.Down?
    ensures StartUp(w, exit) == w.(
      table := OrphansEnded(Settled(w.table, w.handedOver, exit), {}, None, w.clock), handedOver := {}, life := Up)
  {
  }

  /** After settling and recovering, a job that was open and not queued is finished and
      holds no lock, a queued one is as it was, and so nothing is running or handed over. */
  lemma StartUpLeavesNothingRunning(w: World, exit: map<JobId, int>, id: JobId)
    requires Inv(w) && w.life.Down? && id in w.table.jobs
    ensures StartUp(w, exit).life.Up? && id in StartUp(w, exit).table.jobs
    ensures var before := w.table.jobs[id].status;
      var up := StartUp(w, exit).table;
      && (up.jobs[id].status.Queued? || up.jobs[id].status.Terminal())
      && (before.Running? || before.Detached? ==> up.jobs[id].status.Terminal() && OwnsNone(up, id))
      && (before.Terminal() ==> up.jobs[id] == w.table.jobs[id])
      && (before.Queued? && id !in w.handedOver ==> up.jobs[id] == w.table.jobs[id])
  {
    StartUpTable(w, exit);
    assert JobFits(w, id);
  }

  /** An update that outlived its process is successful exactly when its container
      exited with 0; any other code, and a container that cannot be asked, is a failure. */
  lemma HandedOverVerdict(w: World, exit: map<JobId, int>, id: JobId)
    requires Inv(w) && w.life.Down? && id in w.table.jobs
    requires id in w.handedOver && !w.table.jobs[id].status.Terminal()
    ensures id in StartUp(w, exit).table.jobs
    ensures StartUp(w, exit).table.jobs[id].status ==
      if id in exit && exit[id] == 0 then Successful else Failed
    ensures OwnsNone(StartUp(w, exit).table, id)
  {
    StartUpTable(w, exit);
  }

  // --- The gap in a hand-back ----------------------------------------------

  lemma ReclaimBreaksCarriage(w: World, i: nat, candidates: seq<JobId>, busy: map<Resource, JobId>)
    requires Inv(w) && CanPoll(w, i, candidates) && Reclaims(w, Poll(i, candidates, busy))
    ensures !Inv(DoPoll(w, i, candidates, busy))
  {
    var got := ClaimScan(w.table, candidates, busy, w.clock).1;
    var k :| CarriedBy(w, got.value, k);
    var w' := DoPoll(w, i, candidates, busy);
    assert w'.workers[k].Carrying? && w'.workers[i].Carrying? && w'.workers[k].job == w'.workers[i].job && k != i;
  }

  /** The invariant survives a poll exactly when the job it claims, if any, is not in
      `active` any more. */
  lemma PollKeepsExactly(w: World, i: nat, candidates: seq<JobId>, busy: map<Resource, JobId>)
    requires Inv(w) && CanPoll(w, i, candidates)
    ensures Inv(DoPoll(w, i, candidates, busy)) <==> !Reclaims(w, Poll(i, candidates, busy))
  {
    if !Reclaims(w, Poll(i, candidates, busy)) {
      PollKeeps(w, i, candidates, busy);
    } else {
      ReclaimBreaksCarriage(w, i, candidates, busy);
    }
  }
}
