/** The service that owns the two tables, with the loops it really runs.

    Every method is proved to have the effect JobTable.dfy gives it on the whole
    state.  A query result arrives as an argument (`candidates`) or is walked in an
    arbitrary order, because the source orders none of its other queries. */
module JobService {
  import opened Prelude
  import opened JobTable
  import opened JobQueue

  class JobService {
    var jobs: map<JobId, Job>
    var locks: map<Resource, Lock>

    constructor ()
      ensures Rows() == Table(map[], map[])
    {
      jobs, locks := map[], map[];
    }

    ghost function Rows(): Table
      reads this
    {
      Table(jobs, locks)
    }

    method Create(id: JobId, resources: seq<Resource>, known: bool)
      requires id !in jobs
      modifies this
      ensures Rows() == Created(old(Rows()), id, resources, known)
    {
      jobs := jobs[id := Job(Queued, resources, known, None, false, NotBlocked)];
    }

    /** False where the job had finished already; then nothing changes. */
    method RequestCancel(id: JobId) returns (accepted: bool)
      requires id in jobs
      modifies this
      ensures accepted <==> !old(jobs[id].status.Terminal())
      ensures Rows() == CancelRequested(old(Rows()), id)
    {
      if jobs[id].status.Terminal() {
        return false;
      }
      if jobs[id].status.Queued? {
        Finish(id, Cancelled);
        return true;
      }
      jobs := jobs[id := jobs[id].(cancelRequested := true)];
      return true;
    }

    method Finish(id: JobId, status: Status)
      requires id in jobs
      modifies this`jobs
      ensures Rows() == WithStatus(old(Rows()), id, status)
    {
      jobs := jobs[id := jobs[id].(status := status)];
    }

    /** Takes ownership of the oldest runnable candidate; `writes` counts the reason
        rows rewritten on the way. */
    method ClaimFrom(candidates: seq<JobId>, busy: map<Resource, JobId>, now: int)
      returns (claimed: Option<JobId>, writes: nat)
      requires forall c <- candidates :: c in jobs
      modifies this`jobs
      ensures (Rows(), claimed) == ClaimScan(old(Rows()), candidates, busy, now)
      ensures writes == NotesWritten(old(Rows()), candidates, busy)
    {
      ghost var before := Rows();
      writes := 0;
      claimed := None;
      var i := 0;
      while i < |candidates|
        invariant 0 <= i <= |candidates|
        invariant jobs.Keys == before.jobs.Keys && locks == before.locks
        invariant ClaimScan(Rows(), candidates[i..], busy, now) == ClaimScan(before, candidates, busy, now)
        invariant writes + NotesWritten(Rows(), candidates[i..], busy) == NotesWritten(before, candidates, busy)
      {
        var id := candidates[i];
        assert candidates[i..][0] == id && candidates[i..][1..] == candidates[i + 1..];
        var blocking := Blocking(id, jobs[id].resources, busy);
        if blocking.Some? {
          if jobs[id].blocker != BlockedBy(blocking.value) {
            jobs := jobs[id := jobs[id].(blocker := BlockedBy(blocking.value))];
            writes := writes + 1;
          } else {
            assert BlockNoted(Rows(), id, blocking.value) == Rows();
          }
        } else if jobs[id].status.Queued? {
          jobs := jobs[id := jobs[id].(status := Running, startedAt := Some(now))];
          return Some(id), writes;
        }
        i := i + 1;
      }
    }

    /** Every resource currently spoken for, mapped to the job holding it. */
    method BusyResources(now: int) returns (busy: map<Resource, JobId>)
      ensures busy == Busy(locks, now)
    {
      busy := map[];
      var todo := locks.Keys;
      while todo != {}
        invariant todo <= locks.Keys
        invariant busy == map r | r in locks && r !in todo && locks[r].expires > now :: locks[r].job
        decreases todo
      {
        var r :| r in todo;
        todo := todo - {r};
        if locks[r].expires > now {
          busy := busy[r := locks[r].job];
        }
      }
    }

    /** Takes every resource the job declared, or none of them. */
    method TryAcquireLocks(id: JobId, now: int) returns (outcome: Acquisition)
      requires id in jobs
      modifies this`locks
      ensures (Rows(), outcome) == TryAcquire(old(Rows()), id, now)
    {
      var resources := jobs[id].resources;
      var blocking := Blocking(id, resources, Busy(locks, now));
      if blocking.Some? {
        return Refused(BlockedBy(blocking.value));
      }
      ghost var before := locks;
      var row := Lock(id, now + LOCK_LEASE);
      var rows := locks;
      var i := 0;
      while i < |resources|
        invariant 0 <= i <= |resources|
        invariant InsertAll(rows, resources[i..], row) == InsertAll(before, resources, row)
      {
        assert resources[i..][0] == resources[i] && resources[i..][1..] == resources[i + 1..];
        if resources[i] in rows {
          // The unique constraint refuses the row; the whole insert is rolled back.
          return Refused(LostRace);
        }
        rows := rows[resources[i] := row];
        i := i + 1;
      }
      locks := rows;
      return Acquired;
    }

    method ReleaseLocks(id: JobId)
      modifies this`locks
      ensures Rows() == Released(old(Rows()), id)
    {
      ghost var before := locks;
      var todo := set r | r in locks && locks[r].job == id;
      while todo != {}
        invariant forall r <- todo :: r in before && before[r].job == id
        invariant locks == map r | r in before && (before[r].job != id || r in todo) :: before[r]
        decreases todo
      {
        var r :| r in todo;
        todo := todo - {r};
        locks := map q | q in locks && q != r :: locks[q];
      }
    }

    /** Pushes the lease out for jobs a worker is still carrying. */
    method RenewLocks(ids: set<JobId>, now: int)
      modifies this`locks
      ensures Rows() == Renewed(old(Rows()), ids, now)
    {
      if ids == {} {
        return;
      }
      locks := map r | r in locks ::
        if locks[r].job in ids then locks[r].(expires := now + LOCK_LEASE) else locks[r];
    }

    /** Frees resources whose worker never came back; returns how many rows went. */
    method ReapExpiredLocks(keep: set<JobId>, now: int) returns (released: nat)
      modifies this`locks
      ensures Rows() == Reaped(old(Rows()), keep, now)
      ensures released == |set r | r in old(locks) && old(locks)[r].expires <= now && old(locks)[r].job !in keep|
    {
      ghost var before := locks;
      var expired := set r | r in locks && locks[r].expires <= now && locks[r].job !in keep;
      ghost var all := expired;
      released := 0;
      while expired != {}
        invariant expired <= all
        invariant released + |expired| == |all|
        invariant locks == map r | r in before && (r !in all || r in expired) :: before[r]
        decreases expired
      {
        var r :| r in expired;
        expired := expired - {r};
        locks := map q | q in locks && q != r :: locks[q];
        released := released + 1;
      }
    }

    method ReleaseToQueue(id: JobId, blocker: Blocker)
      requires id in jobs
      modifies this`jobs
      ensures Rows() == HandedBack(old(Rows()), id, blocker)
    {
      jobs := jobs[id := jobs[id].(status := Queued, startedAt := None, blocker := blocker)];
    }

    method Detach(id: JobId)
      requires id in jobs
      modifies this`jobs
      ensures Rows() == WithStatus(old(Rows()), id, Detached)
    {
      jobs := jobs[id := jobs[id].(status := Detached)];
    }

    /** Reported as cancelled where somebody had asked for it, as failed otherwise. */
    method EndAbandoned(id: JobId)
      requires id in jobs
      modifies this
      ensures Rows() == Released(WithStatus(old(Rows()), id, OrphanVerdict(old(jobs)[id])), id)
    {
      var cancelled := jobs[id].cancelRequested;
      Finish(id, if cancelled then Cancelled else Failed);
      ReleaseLocks(id);
    }

    /** Finishes every running job no worker of this process is carrying. */
    method EndAbandonedJobs(active: set<JobId>, grace: Option<int>, now: int)
      modifies this
      ensures Rows() == OrphansEnded(old(Rows()), active, grace, now)
    {
      EndEach(Suspects(Table(jobs, locks), grace, now), active);
    }

    /** The loop over the rows read; a job some worker carries is passed over. */
    method EndEach(suspects: set<JobId>, active: set<JobId>)
      requires suspects <= jobs.Keys
      modifies this
      ensures Rows() == Ended(old(Rows()), suspects - active)
    {
      ghost var before := Rows();
      ghost var seen := {};
      var rows := suspects;
      assert Ended(before, {}) == before;
      while rows != {}
        invariant rows <= before.jobs.Keys
        invariant seen == (suspects - active) - rows
        invariant Rows() == Ended(before, seen)
        decreases rows
      {
        var id :| id in rows;
        rows := rows - {id};
        if id !in active {
          EndOneMore(before, seen, id);
          EndAbandoned(id);
          seen := seen + {id};
        }
      }
      assert seen == suspects - active;
    }

    /** Records the outcome of every update that outlived its own process. */
    method SettleInterrupted(handedOver: set<JobId>, exit: map<JobId, int>)
      modifies this
      ensures Rows() == Settled(old(Rows()), handedOver, exit)
    {
      ghost var before := Rows();
      var pending := handedOver;
      ghost var seen := {};
      assert Settled(before, seen, exit) == before;
      while pending != {}
        invariant pending + seen == handedOver && pending !! seen
        invariant Rows() == Settled(before, seen, exit)
        decreases pending
      {
        var id :| id in pending;
        pending := pending - {id};
        if Unsettled(before, id, {id}) {
          SettleOneMore(before, seen, id, exit);
        } else {
          NothingToSettle(before, seen, id, exit);
        }
        seen := seen + {id};
        if id in jobs && !jobs[id].status.Terminal() {
          var code := if id in exit then Some(exit[id]) else None;
          if code.None? {
            Finish(id, Failed);
          } else if code.value == 0 {
            Finish(id, Successful);
          } else {
            Finish(id, Failed);
          }
          ReleaseLocks(id);
        }
      }
    }
  }

  /** Ending one more abandoned job is finishing it and dropping its locks. */
  lemma EndOneMore(t: Table, seen: set<JobId>, id: JobId)
    requires id in t.jobs && id !in seen
    ensures Ended(t, seen).jobs[id] == t.jobs[id]
    ensures Ended(t, seen + {id}) == Released(WithStatus(Ended(t, seen), id, OrphanVerdict(t.jobs[id])), id)
  {
  }

  /** Settling one more record is finishing its job and dropping its locks. */
  lemma SettleOneMore(t: Table, seen: set<JobId>, id: JobId, exit: map<JobId, int>)
    requires id !in seen && Unsettled(t, id, {id})
    ensures id in Settled(t, seen, exit).jobs && Settled(t, seen, exit).jobs[id] == t.jobs[id]
    ensures var verdict := ExitVerdict(if id in exit then Some(exit[id]) else None);
      Settled(t, seen + {id}, exit) == Released(WithStatus(Settled(t, seen, exit), id, verdict), id)
  {
    assert forall j :: Unsettled(t, j, seen + {id}) <==> j == id || Unsettled(t, j, seen);
  }

  /** A record whose job is gone or has finished already changes nothing. */
  lemma NothingToSettle(t: Table, seen: set<JobId>, id: JobId, exit: map<JobId, int>)
    requires id !in seen && !Unsettled(t, id, {id})
    ensures id in Settled(t, seen, exit).jobs <==> id in t.jobs
    ensures id in t.jobs ==> Settled(t, seen, exit).jobs[id] == t.jobs[id]
    ensures Settled(t, seen + {id}, exit) == Settled(t, seen, exit)
  {
    assert forall j :: Unsettled(t, j, seen + {id}) <==> Unsettled(t, j, seen);
  }
}
