/** Every step of the runner keeps the invariant of JobProtocol.dfy.

    Most steps touch the rows of one job.  The first lemmas say what such a step has
    to show about that job alone; the others follow. */
module JobSafety {
  import opened Prelude
  import opened JobTable
  import opened JobQueue
  import opened JobProtocol

  // --- Steps that touch one job --------------------------------------------

  /** Rows of other jobs, in either table, are as they were; rows this job gains are
      good for a whole lease. */
  ghost predicate OnlyTouches(w: World, w': World, id: JobId) {
    && w.table.jobs.Keys <= w'.table.jobs.Keys == w.table.jobs.Keys + {id}
    && (forall k <- w.table.jobs :: k != id ==> w'.table.jobs[k] == w.table.jobs[k])
    && (forall k :: k != id ==> w'.starts[k] == w.starts[k])
    && (forall r <- w.table.locks :: w.table.locks[r].job != id ==> r in w'.table.locks && w'.table.locks[r] == w.table.locks[r])
    && (forall r <- w'.table.locks ::
          || (r in w.table.locks && w'.table.locks[r] == w.table.locks[r])
          || w'.table.locks[r] == Lock(id, w.clock + LOCK_LEASE))
    && w.handedOver <= w'.handedOver
    && w'.clock == w.clock && w'.reaper == w.reaper && w'.life == w.life
  }

  lemma OthersFit(w: World, w': World, id: JobId)
    requires Rows(w) && OnlyTouches(w, w', id) && JobFits(w', id)
    ensures Rows(w')
    ensures forall k, stage :: k in w.table.jobs && k != id && StageFits(w, k, stage) ==> StageFits(w', k, stage)
  {
    forall k | k in w'.table.jobs && k != id
      ensures JobFits(w', k)
    {
      assert JobFits(w, k);
    }
    forall k, stage | k in w.table.jobs && k != id && StageFits(w, k, stage)
      ensures StageFits(w', k, stage)
    {
    }
    assert forall k <- w'.starts :: k == id || k in w.starts;
  }

  lemma LeasesKept(w: World, w': World, id: JobId)
    requires Leases(w) && OnlyTouches(w, w', id) && w'.active <= w.active + {id}
    requires id !in w.active ==> OwnsNone(w.table, id)
    ensures Leases(w')
  {
  }

  /** Some row of `id` changes while every worker stays where it is. */
  lemma RowChanges(w: World, w': World, id: JobId)
    requires Inv(w) && OnlyTouches(w, w', id) && JobFits(w', id)
    requires w'.workers == w.workers && w'.active == w.active
    requires id in w.active || (id !in w.table.jobs && OwnsNone(w.table, id)) || w'.table.locks == w.table.locks
    requires forall i :: CarriedBy(w, id, i) ==> StageFits(w', id, w.workers[i].stage)
    requires w.life.Recovering? ==> !w'.table.jobs[id].status.Detached?
    ensures Inv(w')
  {
    OthersFit(w, w', id);
    forall j <- w'.active ensures exists i :: CarriedBy(w', j, i) {
      var i :| CarriedBy(w, j, i);
      assert CarriedBy(w', j, i);
    }
    forall i | 0 <= i < |w'.workers| && w'.workers[i].Carrying?
      ensures StageFits(w', w'.workers[i].job, w'.workers[i].stage)
    {
      assert StageFits(w, w.workers[i].job, w.workers[i].stage);
      assert CarriedBy(w, w.workers[i].job, i);
    }
  }

  /** A worker moves on with the job it carries. */
  lemma WorkerMoves(w: World, w': World, i: nat, stage: Stage)
    requires Inv(w) && w.life.Up? && i < |w.workers| && w.workers[i].Carrying?
    requires var id := w.workers[i].job;
      && OnlyTouches(w, w', id) && StageFits(w', id, stage) && JobFits(w', id)
      && w'.workers == w.workers[i := Carrying(id, stage)] && w'.active == w.active
    ensures Inv(w')
  {
    var id := w.workers[i].job;
    OthersFit(w, w', id);
    forall j <- w'.active ensures exists k :: CarriedBy(w', j, k) {
      var k :| CarriedBy(w, j, k);
      assert CarriedBy(w', j, k);
    }
    forall k | 0 <= k < |w'.workers| && w'.workers[k].Carrying?
      ensures StageFits(w', w'.workers[k].job, w'.workers[k].stage)
    {
      assert StageFits(w, w.workers[k].job, w.workers[k].stage);
    }
  }

  /** A worker drops its job. */
  lemma WorkerLetsGo(w: World, w': World, i: nat)
    requires Inv(w) && w.life.Up? && i < |w.workers| && w.workers[i].Carrying?
    requires var id := w.workers[i].job;
      && OnlyTouches(w, w', id) && JobFits(w', id)
      && w'.workers == w.workers[i := Idle] && w'.active == w.active - {id}
    ensures Inv(w')
  {
    var id := w.workers[i].job;
    OthersFit(w, w', id);
    forall j <- w'.active ensures exists k :: CarriedBy(w', j, k) {
      var k :| CarriedBy(w, j, k);
      assert CarriedBy(w', j, k);
    }
    forall k | 0 <= k < |w'.workers| && w'.workers[k].Carrying?
      ensures StageFits(w', w'.workers[k].job, w'.workers[k].stage)
      ensures w'.workers[k].job in w'.active
    {
      assert StageFits(w, w.workers[k].job, w.workers[k].stage);
    }
  }

  // --- Operators -----------------------------------------------------------

  lemma CreateKeeps(w: World, id: JobId, resources: seq<Resource>, known: bool)
    requires Inv(w) && id !in w.table.jobs
    ensures Inv(Apply(w, Create(id, resources, known)))
  {
    assert OwnsNone(w.table, id);
    RowChanges(w, Apply(w, Create(id, resources, known)), id);
  }

  lemma CancelKeeps(w: World, id: JobId)
    requires Inv(w) && id in w.table.jobs
    ensures Inv(Apply(w, Cancel(id)))
  {
    var w' := Apply(w, Cancel(id));
    assert JobFits(w, id);
    forall i | CarriedBy(w, id, i) ensures StageFits(w', id, w.workers[i].stage) {
      assert StageFits(w, id, w.workers[i].stage);
    }
    RowChanges(w, w', id);
  }

  // --- Workers -------------------------------------------------------------

  /** The claim takes a job that `active` names already. */
  ghost predicate Reclaims(w: World, a: Action) {
    && a.Poll?
    && CanPoll(w, a.worker, a.candidates)
    && var got := ClaimScan(w.table, a.candidates, a.busy, w.clock).1;
       got.Some? && got.value in w.active
  }

  /** Reasons written along the way change nothing the invariant looks at. */
  lemma NotesKeep(w: World, w': World)
    requires Inv(w)
    requires w' == w.(table := w'.table) && w'.table.locks == w.table.locks && w'.table.jobs.Keys == w.table.jobs.Keys
    requires forall id <- w.table.jobs ::
      && w'.table.jobs[id].status == w.table.jobs[id].status
      && w'.table.jobs[id].resources == w.table.jobs[id].resources
      && w'.table.jobs[id].startedAt == w.table.jobs[id].startedAt
    ensures Inv(w')
  {
    forall i | 0 <= i < |w'.workers| && w'.workers[i].Carrying?
      ensures StageFits(w', w'.workers[i].job, w'.workers[i].stage)
    {
      assert StageFits(w, w.workers[i].job, w.workers[i].stage);
    }
    forall j <- w'.active ensures exists k :: CarriedBy(w', j, k) {
      var k :| CarriedBy(w, j, k);
      assert CarriedBy(w', j, k);
    }
    forall id <- w'.table.jobs ensures JobFits(w', id) {
      assert JobFits(w, id);
    }
  }

  /** A worker picks up a queued job nobody carries. */
  lemma WorkerPicksUp(w: World, w': World, i: nat, id: JobId)
    requires Inv(w) && w.life.Up? && i < |w.workers| && w.workers[i].Idle?
    requires id in w.table.jobs && w.table.jobs[id].status.Queued? && id !in w.active
    requires w' == w.(table := Claimed(w.table, id, w.clock), active := w.active + {id},
                      workers := w.workers[i := Carrying(id, HasClaim)])
    ensures Inv(w')
  {
    assert JobFits(w, id);
    OthersFit(w, w', id);
    LeasesKept(w, w', id);
    forall j <- w'.active ensures exists k :: CarriedBy(w', j, k) {
      if j == id {
        assert CarriedBy(w', j, i);
      } else {
        var k :| CarriedBy(w, j, k);
        assert CarriedBy(w', j, k);
      }
    }
    forall k | 0 <= k < |w'.workers| && w'.workers[k].Carrying?
      ensures StageFits(w', w'.workers[k].job, w'.workers[k].stage)
    {
      if k != i {
        assert StageFits(w, w.workers[k].job, w.workers[k].stage);
      }
    }
  }

  /** A poll that finds a job notes reasons first and claims it last. */
  lemma ClaimScanSplits(t: Table, candidates: seq<JobId>, busy: map<Resource, JobId>, now: int) returns (noted: Table)
    requires forall c <- candidates :: c in t.jobs
    requires ClaimScan(t, candidates, busy, now).1.Some?
    ensures ClaimScan(t, candidates, busy, now).1.value in t.jobs
    ensures noted.locks == t.locks && noted.jobs.Keys == t.jobs.Keys
    ensures forall id <- t.jobs ::
      && noted.jobs[id].status == t.jobs[id].status
      && noted.jobs[id].resources == t.jobs[id].resources
      && noted.jobs[id].startedAt == t.jobs[id].startedAt
    ensures var (t', got) := ClaimScan(t, candidates, busy, now);
      noted.jobs[got.value].status.Queued? && t' == Claimed(noted, got.value, now)
  {
    ClaimScanFrame(t, candidates, busy, now);
    var (t', got) := ClaimScan(t, candidates, busy, now);
    var id := got.value;
    noted := t'.(jobs := t'.jobs[id := t'.jobs[id].(status := Queued, startedAt := t.jobs[id].startedAt)]);
  }

  lemma PollKeeps(w: World, i: nat, candidates: seq<JobId>, busy: map<Resource, JobId>)
    requires Inv(w) && CanPoll(w, i, candidates)
    requires !Reclaims(w, Poll(i, candidates, busy))
    ensures Inv(DoPoll(w, i, candidates, busy))
  {
    var (table, got) := ClaimScan(w.table, candidates, busy, w.clock);
    if got.None? {
      ClaimScanFrame(w.table, candidates, busy, w.clock);
      NotesKeep(w, w.(table := table));
    } else {
      var noted := ClaimScanSplits(w.table, candidates, busy, w.clock);
      NotesKeep(w, w.(table := noted));
      WorkerPicksUp(w.(table := noted), DoPoll(w, i, candidates, busy), i, got.value);
    }
  }

  lemma AcquireKeeps(w: World, i: nat, lingers: bool)
    requires Inv(w) && At(w, i, HasClaim)
    ensures Inv(DoAcquire(w, i, lingers))
  {
    var id := w.workers[i].job;
    var w' := DoAcquire(w, i, lingers);
    assert StageFits(w, id, HasClaim);
    assert JobFits(w, id);
    AcquireAllOrNothing(w.table, id, w.clock);
    if !w.table.jobs[id].known {
      WorkerMoves(w, w', i, Unlocked);
    } else if TryAcquire(w.table, id, w.clock).1.Acquired? {
      WorkerMoves(w, w', i, HasLocks);
    } else if lingers {
      WorkerMoves(w, w', i, HandingBack);
    } else {
      WorkerLetsGo(w, w', i);
    }
  }

  lemma BeginKeeps(w: World, i: nat)
    requires Inv(w) && At(w, i, HasLocks)
    ensures Inv(DoBegin(w, i))
  {
    var id := w.workers[i].job;
    assert StageFits(w, id, HasLocks);
    assert JobFits(w, id);
    WorkerMoves(w, DoBegin(w, i), i, InHandler);
  }

  lemma HandOverKeeps(w: World, i: nat)
    requires Inv(w) && At(w, i, InHandler)
    ensures Inv(DoHandOver(w, i))
  {
    var id := w.workers[i].job;
    assert StageFits(w, id, InHandler);
    assert JobFits(w, id);
    forall k | CarriedBy(w, id, k) ensures k == i {}
    RowChanges(w, DoHandOver(w, i), id);
  }

  lemma ReturnKeeps(w: World, i: nat, outcome: Outcome)
    requires Inv(w) && At(w, i, InHandler)
    ensures Inv(DoReturn(w, i, outcome))
  {
    var id := w.workers[i].job;
    assert StageFits(w, id, InHandler);
    assert JobFits(w, id);
    WorkerMoves(w, DoReturn(w, i, outcome), i, Closing);
  }

  lemma UnlockKeeps(w: World, i: nat)
    requires Inv(w) && At(w, i, Closing)
    ensures Inv(DoUnlock(w, i))
  {
    var id := w.workers[i].job;
    assert StageFits(w, id, Closing);
    assert JobFits(w, id);
    WorkerMoves(w, DoUnlock(w, i), i, Unlocked);
  }

  lemma LetGoKeeps(w: World, i: nat)
    requires Inv(w) && w.life.Up? && i < |w.workers| && w.workers[i].Carrying?
    ensures Inv(LetGo(w, i))
  {
    assert JobFits(w, w.workers[i].job);
    WorkerLetsGo(w, LetGo(w, i), i);
  }

  lemma AbortKeeps(w: World, i: nat, rolledBack: bool, unlocks: bool)
    requires Inv(w) && i < |w.workers| && w.workers[i].Carrying?
    ensures Inv(DoAbort(w, i, rolledBack, unlocks))
  {
    var id := w.workers[i].job;
    assert StageFits(w, id, w.workers[i].stage);
    assert JobFits(w, id);
    WorkerLetsGo(w, DoAbort(w, i, rolledBack, unlocks), i);
  }

  // --- The reaper and the process ------------------------------------------

  /** Jobs nobody carries may change and lose rows; carried ones keep everything but
      the length of their leases. */
  lemma SweepKeeps(w: World, w': World)
    requires Inv(w)
    requires w'.workers == w.workers && w'.active == w.active && w'.starts == w.starts
    requires forall r <- w'.table.locks :: r in w.table.locks && w'.table.locks[r].job == w.table.locks[r].job
    requires forall r <- w.table.locks :: w.table.locks[r].job in w.active ==> r in w'.table.locks
    requires w'.table.jobs.Keys == w.table.jobs.Keys
    requires forall id <- w.active :: id in w.table.jobs && w'.table.jobs[id] == w.table.jobs[id]
    requires forall id <- w'.table.jobs :: JobFits(w', id)
    requires Leases(w') && Resting(w')
    ensures Inv(w')
  {
    forall j <- w'.active ensures exists k :: CarriedBy(w', j, k) {
      var k :| CarriedBy(w, j, k);
      assert CarriedBy(w', j, k);
    }
    forall k | 0 <= k < |w'.workers| && w'.workers[k].Carrying?
      ensures StageFits(w', w'.workers[k].job, w'.workers[k].stage)
    {
      assert StageFits(w, w.workers[k].job, w.workers[k].stage);
    }
  }

  lemma ReaperKeeps(w: World, a: Action)
    requires Inv(w) && (a.ListCarried? || a.RenewCarried? || a.ReapRows? || a.ReaperFails? || a.Pass?)
    ensures Inv(Apply(w, a))
  {
    var w' := Apply(w, a);
    forall id <- w'.table.jobs ensures JobFits(w', id) {
      assert JobFits(w, id);
    }
    SweepKeeps(w, w');
  }

  lemma EndAbandonedKeeps(w: World)
    requires Inv(w) && w.reaper.Sweeping?
    ensures Inv(Apply(w, EndAbandoned))
  {
    var w' := Apply(w, EndAbandoned);
    forall id <- w'.table.jobs ensures JobFits(w', id) {
      assert JobFits(w, id);
    }
    SweepKeeps(w, w');
  }

  lemma SettleKeeps(w: World, exit: map<JobId, int>)
    requires Inv(w) && w.life.Down?
    ensures Inv(DoSettle(w, exit))
  {
    var w' := DoSettle(w, exit);
    forall id <- w'.table.jobs ensures JobFits(w', id) && !w'.table.jobs[id].status.Detached? {
      assert JobFits(w, id);
    }
    SweepKeeps(w, w');
  }

  lemma RecoverKeeps(w: World)
    requires Inv(w) && w.life.Recovering?
    ensures Inv(Apply(w, Recover))
  {
    var w' := Apply(w, Recover);
    forall id <- w'.table.jobs ensures JobFits(w', id) {
      assert JobFits(w, id);
    }
    SweepKeeps(w, w');
  }

  lemma CrashKeeps(w: World, undone: set<JobId>)
    requires Inv(w)
    ensures Inv(DoCrash(w, undone))
  {
    var w' := DoCrash(w, undone);
    forall id <- w'.table.jobs ensures JobFits(w', id) {
      assert JobFits(w, id);
      if id in undone * Claims(w.workers) {
        var i :| 0 <= i < |w.workers| && w.workers[i].Carrying? && w.workers[i].stage.HasClaim? && w.workers[i].job == id;
        assert StageFits(w, id, HasClaim);
      }
    }
  }

  /** One step, whatever it is, as long as no claim takes a job `active` still names. */
  lemma StepKeeps(w: World, a: Action)
    requires Inv(w) && !Reclaims(w, a)
    ensures Inv(Apply(w, a))
  {
    match a
    case Create(id, resources, known) => if id !in w.table.jobs { CreateKeeps(w, id, resources, known); }
    case Cancel(id) => if id in w.table.jobs { CancelKeeps(w, id); }
    case Pass(_) => ReaperKeeps(w, a);
    case Poll(i, candidates, busy) => if CanPoll(w, i, candidates) { PollKeeps(w, i, candidates, busy); }
    case Acquire(i, lingers) => if At(w, i, HasClaim) { AcquireKeeps(w, i, lingers); }
    case Begin(i) => if At(w, i, HasLocks) { BeginKeeps(w, i); }
    case HandOver(i) => if At(w, i, InHandler) { HandOverKeeps(w, i); }
    case Return(i, outcome) => if At(w, i, InHandler) { ReturnKeeps(w, i, outcome); }
    case Unlock(i) => if At(w, i, Closing) { UnlockKeeps(w, i); }
    case Forget(i) => if At(w, i, Unlocked) || At(w, i, HandingBack) { LetGoKeeps(w, i); }
    case Abort(i, rolledBack, unlocks) =>
      if i < |w.workers| && w.workers[i].Carrying? { AbortKeeps(w, i, rolledBack, unlocks); }
    case ListCarried => ReaperKeeps(w, a);
    case RenewCarried => ReaperKeeps(w, a);
    case ReapRows => ReaperKeeps(w, a);
    case ReaperFails => ReaperKeeps(w, a);
    case EndAbandoned => if w.reaper.Sweeping? { EndAbandonedKeeps(w); }
    case Crash(undone) => CrashKeeps(w, undone);
    case Settle(exit) => if w.life.Down? { SettleKeeps(w, exit); }
    case Recover => if w.life.Recovering? { RecoverKeeps(w); }
  }
}
