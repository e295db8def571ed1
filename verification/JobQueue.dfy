/** What one poll of the queue promises: the oldest job that can run is the one
    taken, and a poll that only meets blocked jobs twice writes the second time
    nothing. */
module JobQueue {
  import opened Prelude
  import opened JobTable

  /** Nothing but reasons and the one claim changes, and no lock row is touched. */
  lemma {:induction false} ClaimScanFrame(t: Table, candidates: seq<JobId>, busy: map<Resource, JobId>, now: int)
    requires forall c <- candidates :: c in t.jobs
    ensures var (t', got) := ClaimScan(t, candidates, busy, now);
      && t'.locks == t.locks
      && t'.jobs.Keys == t.jobs.Keys
      && (got.Some? ==> got.value in candidates)
      && forall id <- t.jobs ::
        && t'.jobs[id].resources == t.jobs[id].resources
        && t'.jobs[id].known == t.jobs[id].known
        && t'.jobs[id].cancelRequested == t.jobs[id].cancelRequested
        && (got == Some(id) ==> t.jobs[id].status.Queued? && t'.jobs[id].status.Running? && t'.jobs[id].startedAt == Some(now))
        && (got != Some(id) ==> t'.jobs[id].status == t.jobs[id].status && t'.jobs[id].startedAt == t.jobs[id].startedAt)
        && (id !in candidates ==> t'.jobs[id] == t.jobs[id])
    decreases |candidates|
  {
    if candidates != [] {
      var id := candidates[0];
      match Blocking(id, t.jobs[id].resources, busy)
      case Some(holder) =>
        ClaimScanFrame(BlockNoted(t, id, holder), candidates[1..], busy, now);
      case None =>
        if !t.jobs[id].status.Queued? {
          ClaimScanFrame(t, candidates[1..], busy, now);
        }
    }
  }

  /** The candidate cannot be taken: something is in its way, or another worker was
      first. */
  predicate Passed(t: Table, id: JobId, busy: map<Resource, JobId>)
    requires id in t.jobs
  {
    Blocked(t, id, busy) || !t.jobs[id].status.Queued?
  }

  /** `id` can be taken and everything ahead of it in the list cannot. */
  ghost predicate FirstOpen(t: Table, candidates: seq<JobId>, id: JobId, busy: map<Resource, JobId>)
    requires forall c <- candidates :: c in t.jobs
  {
    exists k ::
      && 0 <= k < |candidates|
      && candidates[k] == id
      && !Passed(t, id, busy)
      && forall j :: 0 <= j < k ==> Passed(t, candidates[j], busy)
  }

  /** The claim takes the first candidate that can be taken, and comes back with
      nothing exactly when there is none.  The candidates may have been read before
      other workers moved. */
  lemma {:induction false} ClaimTakesFirst(t: Table, candidates: seq<JobId>, busy: map<Resource, JobId>, now: int)
    requires forall c <- candidates :: c in t.jobs
    ensures var got := ClaimScan(t, candidates, busy, now).1;
      && (got.Some? ==> FirstOpen(t, candidates, got.value, busy))
      && (got.None? <==> forall c <- candidates :: Passed(t, c, busy))
    decreases |candidates|
  {
    if candidates != [] {
      var id := candidates[0];
      var rest := candidates[1..];
      if Passed(t, id, busy) {
        var t1 := match Blocking(id, t.jobs[id].resources, busy)
          case Some(holder) => BlockNoted(t, id, holder)
          case None => t;
        NotingKeepsPassed(t, t1, candidates, busy);
        ClaimTakesFirst(t1, rest, busy, now);
        var got := ClaimScan(t1, rest, busy, now).1;
        if got.Some? {
          FirstOpenLater(t, t1, candidates, got.value, busy);
        }
        assert forall c <- candidates :: c == id || c in rest;
      } else {
        assert candidates[0] == id;
      }
    }
  }

  lemma NotingKeepsPassed(t: Table, t1: Table, candidates: seq<JobId>, busy: map<Resource, JobId>)
    requires t1.jobs.Keys == t.jobs.Keys
    requires forall id <- t.jobs :: t1.jobs[id].resources == t.jobs[id].resources && t1.jobs[id].status == t.jobs[id].status
    ensures forall id <- t.jobs :: Passed(t1, id, busy) <==> Passed(t, id, busy)
  {
  }

  lemma FirstOpenLater(t: Table, t1: Table, candidates: seq<JobId>, id: JobId, busy: map<Resource, JobId>)
    requires (forall c <- candidates :: c in t.jobs) && t1.jobs.Keys == t.jobs.Keys
    requires forall c <- t.jobs :: Passed(t1, c, busy) <==> Passed(t, c, busy)
    requires candidates != [] && Passed(t, candidates[0], busy)
    requires FirstOpen(t1, candidates[1..], id, busy)
    ensures FirstOpen(t, candidates, id, busy)
  {
    var rest := candidates[1..];
    var k :| 0 <= k < |rest| && rest[k] == id && !Passed(t1, id, busy) && forall j :: 0 <= j < k ==> Passed(t1, rest[j], busy);
    assert candidates[k + 1] == id;
    forall j | 0 <= j < k + 1 ensures Passed(t, candidates[j], busy) {
      if j > 0 {
        assert candidates[j] == rest[j - 1];
      }
    }
  }

  /** A poll over the first twenty queued jobs takes the smallest identifier among
      those no other job's live lock stands in the way of. */
  lemma PollTakesOldestRunnable(t: Table, ids: seq<JobId>, busy: map<Resource, JobId>, now: int)
    requires OldestQueued(t.jobs, ids)
    requires ClaimScan(t, ids, busy, now).1.Some?
    ensures var id := ClaimScan(t, ids, busy, now).1.value;
      && id in ids
      && t.jobs[id].status.Queued?
      && !Blocked(t, id, busy)
      && (forall q <- Queue(t.jobs) :: q < id ==> Blocked(t, q, busy))
  {
    ClaimTakesFirst(t, ids, busy, now);
    var id := ClaimScan(t, ids, busy, now).1.value;
    var k :| 0 <= k < |ids| && ids[k] == id && !Passed(t, id, busy) && forall j :: 0 <= j < k ==> Passed(t, ids[j], busy);
    forall q <- Queue(t.jobs) | q < id
      ensures Blocked(t, q, busy)
    {
      var j :| 0 <= j < |ids| && ids[j] == q;
      assert j < k;
      assert Passed(t, ids[j], busy);
    }
  }

  /** A poll comes back with nothing exactly when each of those twenty is blocked;
      with fewer than twenty queued that is every queued job there is. */
  lemma PollTakesNothingExactly(t: Table, ids: seq<JobId>, busy: map<Resource, JobId>, now: int)
    requires OldestQueued(t.jobs, ids)
    ensures ClaimScan(t, ids, busy, now).1.None? <==> forall c <- ids :: Blocked(t, c, busy)
    ensures ClaimScan(t, ids, busy, now).1.None? && |ids| < CLAIM_CANDIDATES ==>
      forall q <- Queue(t.jobs) :: Blocked(t, q, busy)
  {
    ClaimTakesFirst(t, ids, busy, now);
    assert forall c <- ids :: Passed(t, c, busy) <==> Blocked(t, c, busy);
  }

  /** A resource blocks exactly when it is under a live lease of another job. */
  lemma BlockingMeansBusy(id: JobId, resources: seq<Resource>, busy: map<Resource, JobId>)
    ensures Blocking(id, resources, busy).Some? <==> exists r <- resources :: r in busy && busy[r] != id
    ensures Blocking(id, resources, busy).Some? ==>
      exists r <- resources :: r in busy && busy[r] != id && Blocking(id, resources, busy).value == busy[r]
  {
    if resources != [] && !(resources[0] in busy && busy[resources[0]] != id) {
      BlockingMeansBusy(id, resources[1..], busy);
      assert forall r <- resources :: r == resources[0] || r in resources[1..];
    }
  }

  /** How many reason rows a poll writes before it stops. */
  function NotesWritten(t: Table, candidates: seq<JobId>, busy: map<Resource, JobId>): nat
    requires forall c <- candidates :: c in t.jobs
    decreases |candidates|
  {
    if candidates == [] then 0
    else
      var id := candidates[0];
      match Blocking(id, t.jobs[id].resources, busy)
      case Some(holder) =>
        (if t.jobs[id].blocker != BlockedBy(holder) then 1 else 0)
        + NotesWritten(BlockNoted(t, id, holder), candidates[1..], busy)
      case None =>
        if t.jobs[id].status.Queued? then 0 else NotesWritten(t, candidates[1..], busy)
  }

  /** Every candidate that something blocks already carries that reason. */
  predicate Noted(t: Table, candidates: seq<JobId>, busy: map<Resource, JobId>)
    requires forall c <- candidates :: c in t.jobs
  {
    forall c <- candidates ::
      Blocked(t, c, busy) ==> t.jobs[c].blocker == BlockedBy(Blocking(c, t.jobs[c].resources, busy).value)
  }

  lemma {:induction false} NotedPollWritesNothing(
      t: Table, candidates: seq<JobId>, busy: map<Resource, JobId>, now: int)
    requires forall c <- candidates :: c in t.jobs
    requires Noted(t, candidates, busy)
    ensures NotesWritten(t, candidates, busy) == 0
    ensures ClaimScan(t, candidates, busy, now).1.None? ==> ClaimScan(t, candidates, busy, now).0 == t
    decreases |candidates|
  {
    if candidates != [] {
      var id := candidates[0];
      match Blocking(id, t.jobs[id].resources, busy)
      case Some(holder) =>
        assert Blocked(t, id, busy);
        assert BlockNoted(t, id, holder) == t;
        NotedPollWritesNothing(t, candidates[1..], busy, now);
      case None =>
        NotedPollWritesNothing(t, candidates[1..], busy, now);
    }
  }

  lemma {:induction false} PollLeavesNoted(t: Table, candidates: seq<JobId>, busy: map<Resource, JobId>, now: int)
    requires forall c <- candidates :: c in t.jobs
    requires ClaimScan(t, candidates, busy, now).1.None?
    ensures ClaimScan(t, candidates, busy, now).0.jobs.Keys == t.jobs.Keys
    ensures Noted(ClaimScan(t, candidates, busy, now).0, candidates, busy)
    decreases |candidates|
  {
    ClaimScanFrame(t, candidates, busy, now);
    if candidates != [] {
      var id := candidates[0];
      var rest := candidates[1..];
      match Blocking(id, t.jobs[id].resources, busy)
      case Some(holder) =>
        var t1 := BlockNoted(t, id, holder);
        PollLeavesNoted(t1, rest, busy, now);
        ClaimScanFrame(t1, rest, busy, now);
        var t' := ClaimScan(t1, rest, busy, now).0;
        if id in rest {
          assert Blocked(t', id, busy);
        } else {
          assert t'.jobs[id] == t1.jobs[id];
        }
        assert forall c <- candidates :: c == id || c in rest;
      case None =>
        PollLeavesNoted(t, rest, busy, now);
        ClaimScanFrame(t, rest, busy, now);
        var t' := ClaimScan(t, rest, busy, now).0;
        assert !Blocked(t', id, busy);
        assert forall c <- candidates :: c == id || c in rest;
    }
  }

  /** A poll that found nothing leaves a table in which the same poll over the same
      live locks writes not a single row, however often it is repeated. */
  lemma SecondPollWritesNothing(t: Table, candidates: seq<JobId>, busy: map<Resource, JobId>, now: int, later: int)
    requires forall c <- candidates :: c in t.jobs
    requires ClaimScan(t, candidates, busy, now).1.None?
    ensures var t' := ClaimScan(t, candidates, busy, now).0;
      && t'.jobs.Keys == t.jobs.Keys
      && NotesWritten(t', candidates, busy) == 0
      && ClaimScan(t', candidates, busy, later) == (t', None)
  {
    ClaimScanFrame(t, candidates, busy, now);
    PollLeavesNoted(t, candidates, busy, now);
    var t' := ClaimScan(t, candidates, busy, now).0;
    NotedPollWritesNothing(t', candidates, busy, later);
    ClaimTakesFirst(t, candidates, busy, now);
    ClaimTakesFirst(t', candidates, busy, later);
    assert forall c <- candidates :: Passed(t', c, busy) == Passed(t, c, busy);
  }

  // --- Taking the locks ----------------------------------------------------

  /** Inserting one row per resource works exactly when no resource has a row yet,
      live or expired, and none is declared twice. */
  lemma {:induction false} InsertAllWorks(locks: map<Resource, Lock>, resources: seq<Resource>, row: Lock)
    ensures InsertAll(locks, resources, row).Some? <==> Distinct(resources) && forall r <- resources :: r !in locks
    decreases |resources|
  {
    if resources != [] {
      var first, rest := resources[0], resources[1..];
      DistinctCons(resources);
      assert forall r <- resources :: r == first || r in rest;
      if first !in locks {
        InsertAllWorks(locks[first := row], rest, row);
      }
    }
  }

  /** The rows inserted are all that is new. */
  lemma {:induction false} InsertAllAdds(locks: map<Resource, Lock>, resources: seq<Resource>, row: Lock)
    requires InsertAll(locks, resources, row).Some?
    ensures InsertAll(locks, resources, row).value == locks + RowsFor(resources, row)
    decreases |resources|
  {
    if resources == [] {
      assert locks + RowsFor(resources, row) == locks;
    } else {
      var first, rest := resources[0], resources[1..];
      InsertAllAdds(locks[first := row], rest, row);
      assert RowsFor(resources, row) == map[first := row] + RowsFor(rest, row);
      assert locks[first := row] + RowsFor(rest, row) == locks + (map[first := row] + RowsFor(rest, row));
    }
  }

  function RowsFor(resources: seq<Resource>, row: Lock): map<Resource, Lock> {
    map r | r in resources :: row
  }

  /** All or nothing: a job that gets its locks owns exactly what it declared for a
      whole lease, every other row is as it was, and a job that is refused leaves the
      table untouched.  It is refused exactly when one of its resources still has a
      row - its own, another job's, or one whose lease ran out - or is declared twice. */
  lemma AcquireAllOrNothing(t: Table, id: JobId, now: int)
    requires id in t.jobs
    ensures var (t', outcome) := TryAcquire(t, id, now);
      var resources := t.jobs[id].resources;
      && t'.jobs == t.jobs
      && (outcome.Acquired? <==> Distinct(resources) && forall r <- resources :: r !in t.locks)
      && (outcome.Acquired? ==> t'.locks == t.locks + RowsFor(resources, Lock(id, now + LOCK_LEASE)))
      && (outcome.Refused? ==> t' == t)
      && (outcome == Refused(LostRace) ==>
            forall r <- resources :: r in t.locks && t.locks[r].job != id ==> t.locks[r].expires <= now)
  {
    var resources := t.jobs[id].resources;
    BlockingMeansBusy(id, resources, Busy(t.locks, now));
    InsertAllWorks(t.locks, resources, Lock(id, now + LOCK_LEASE));
    if InsertAll(t.locks, resources, Lock(id, now + LOCK_LEASE)).Some? {
      InsertAllAdds(t.locks, resources, Lock(id, now + LOCK_LEASE));
    }
  }

  /** That job has a lease on a resource this one declared, and it has not run out. */
  ghost predicate StandsInTheWay(t: Table, id: JobId, holder: JobId, now: int)
    requires id in t.jobs
  {
    holder != id && exists r <- t.jobs[id].resources :: r in t.locks && t.locks[r].job == holder && t.locks[r].expires > now
  }

  /** A refused job is told a job that stands in its way, and where there is none that it
      lost a race. */
  lemma RefusalExactly(t: Table, id: JobId, now: int)
    requires id in t.jobs && TryAcquire(t, id, now).1.Refused?
    ensures match TryAcquire(t, id, now).1.blocker
      case BlockedBy(holder) => StandsInTheWay(t, id, holder, now)
      case LostRace => forall holder :: !StandsInTheWay(t, id, holder, now)
      case NotBlocked => false
  {
    BlockingMeansBusy(id, t.jobs[id].resources, Busy(t.locks, now));
  }
}
