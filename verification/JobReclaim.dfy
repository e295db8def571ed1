/** A run in which the runner's promise fails: a claim falls into the gap between
    writing a job back to the queue and dropping it from `active`. */
module JobReclaim {
  import opened Prelude
  import opened JobTable
  import opened JobQueue
  import opened JobProtocol
  import opened JobGuarantees

  const SHARED := Resource("probe", "p1")
  const HELD := [SHARED]
  const FRESH := Job(Queued, HELD, true, None, false, NotBlocked)
  const STARTED := Job(Running, HELD, true, Some(0), false, NotBlocked)
  const DONE := Job(Successful, HELD, true, Some(0), false, NotBlocked)
  const WAITING := Job(Queued, HELD, true, None, false, BlockedBy(1))

  /** Two workers, job 1 and job 2 in the table, no reaper at work. */
  function Scene(one: Job, two: Job, locks: map<Resource, Lock>, active: set<JobId>, first: Worker, second: Worker,
                 starts: multiset<JobId>): World {
    World(Table(map[1 := one, 2 := two], locks), active, [first, second], Asleep, 0, Up, {}, starts)
  }

  lemma Then(actions: seq<Action>, a: Action)
    ensures Reach(2, actions + [a]) == Apply(Reach(2, actions), a)
  {
    assert (actions + [a])[..|actions + [a]| - 1] == actions;
  }

  lemma PollsOne(w: World, i: nat, id: JobId)
    requires w.life.Up? && i < |w.workers| && w.workers[i].Idle?
    requires id in w.table.jobs && w.table.jobs[id].status.Queued?
    ensures Apply(w, Poll(i, [id], map[])) ==
      w.(table := Claimed(w.table, id, w.clock), active := w.active + {id},
         workers := w.workers[i := Carrying(id, HasClaim)])
  {
    BlockingMeansBusy(id, w.table.jobs[id].resources, map[]);
    assert ClaimScan(w.table, [id], map[], w.clock) == (Claimed(w.table, id, w.clock), Some(id));
  }

  lemma TakesTheProbe(w: World, i: nat)
    requires At(w, i, HasClaim) && w.table.locks == map[]
    requires w.table.jobs[w.workers[i].job].known && w.table.jobs[w.workers[i].job].resources == HELD
    ensures var id := w.workers[i].job;
      Apply(w, Acquire(i, false)) ==
        Moved(w.(table := Announced(w.table, id).(locks := map[SHARED := Lock(id, w.clock + LOCK_LEASE)])), i, HasLocks)
  {
    var id := w.workers[i].job;
    AcquireAllOrNothing(w.table, id, w.clock);
    DistinctCons(HELD);
    assert RowsFor(HELD, Lock(id, w.clock + LOCK_LEASE)) == map[SHARED := Lock(id, w.clock + LOCK_LEASE)];
    assert map[] + RowsFor(HELD, Lock(id, w.clock + LOCK_LEASE)) == RowsFor(HELD, Lock(id, w.clock + LOCK_LEASE));
  }

  lemma IsUp() returns (run: seq<Action>)
    ensures Reach(2, run) == World(Table(map[], map[]), {}, [Idle, Idle], Asleep, 0, Up, {}, multiset{})
  {
    StartUpTable(Init(2), map[]);
    Then([], Settle(map[]));
    run := [] + [Settle(map[])];
    Then(run, Recover);
    run := run + [Recover];
  }

  lemma BothQueued() returns (run: seq<Action>)
    ensures Reach(2, run) == Scene(FRESH, FRESH, map[], {}, Idle, Idle, multiset{})
  {
    run := IsUp();
    Then(run, Create(1, HELD, true));
    run := run + [Create(1, HELD, true)];
    Then(run, Create(2, HELD, true));
    run := run + [Create(2, HELD, true)];
  }

  lemma FirstClaimed() returns (run: seq<Action>)
    ensures Reach(2, run) == Scene(STARTED, FRESH, map[], {1}, Carrying(1, HasClaim), Idle, multiset{})
  {
    run := BothQueued();
    PollsOne(Reach(2, run), 0, 1);
    Then(run, Poll(0, [1], map[]));
    run := run + [Poll(0, [1], map[])];
  }

  /** Both jobs are claimed before either has its locks. */
  lemma BothClaimed() returns (run: seq<Action>)
    ensures Reach(2, run) == Scene(STARTED, STARTED, map[], {1, 2}, Carrying(1, HasClaim), Carrying(2, HasClaim), multiset{})
  {
    run := FirstClaimed();
    PollsOne(Reach(2, run), 1, 2);
    Then(run, Poll(1, [2], map[]));
    run := run + [Poll(1, [2], map[])];
  }

  /** Job 1 gets the probe; job 2 is written back and worker 1 has not let go yet. */
  lemma WrittenBack() returns (run: seq<Action>)
    ensures Reach(2, run) == Scene(STARTED, WAITING, map[SHARED := Lock(1, LOCK_LEASE)], {1, 2},
                                   Carrying(1, HasLocks), Carrying(2, HandingBack), multiset{})
  {
    run := BothClaimed();
    TakesTheProbe(Reach(2, run), 0);
    Then(run, Acquire(0, false));
    run := run + [Acquire(0, false)];
    var w := Reach(2, run);
    assert w == Scene(STARTED, STARTED, map[SHARED := Lock(1, LOCK_LEASE)], {1, 2},
                      Carrying(1, HasLocks), Carrying(2, HasClaim), multiset{});
    assert Busy(w.table.locks, 0) == map[SHARED := 1];
    assert TryAcquire(w.table, 2, 0) == (w.table, Refused(BlockedBy(1)));
    Then(run, Acquire(1, true));
    run := run + [Acquire(1, true)];
  }

  /** Worker 0 runs job 1 to its end. */
  lemma FirstFinished() returns (run: seq<Action>)
    ensures Reach(2, run) == Scene(DONE, WAITING, map[SHARED := Lock(1, LOCK_LEASE)], {1, 2},
                                   Carrying(1, Closing), Carrying(2, HandingBack), multiset{1})
  {
    run := WrittenBack();
    Then(run, Begin(0));
    run := run + [Begin(0)];
    Then(run, Return(0, Returned(1, 0, false)));
    run := run + [Return(0, Returned(1, 0, false))];
  }

  /** It frees the probe and is idle again. */
  lemma FirstGone() returns (run: seq<Action>)
    ensures Reach(2, run) == Scene(DONE, WAITING, map[], {2}, Idle, Carrying(2, HandingBack), multiset{1})
  {
    run := FirstFinished();
    Then(run, Unlock(0));
    run := run + [Unlock(0)];
    Then(run, Forget(0));
    run := run + [Forget(0)];
  }

  /** Worker 0 claims job 2, which worker 1 still holds in `active`, and gets the probe. */
  lemma ReclaimedEarly() returns (run: seq<Action>)
    ensures Reach(2, run) == Scene(DONE, STARTED, map[SHARED := Lock(2, LOCK_LEASE)], {2},
                                   Carrying(2, HasLocks), Carrying(2, HandingBack), multiset{1})
  {
    run := FirstGone();
    PollsOne(Reach(2, run), 0, 2);
    Then(run, Poll(0, [2], map[]));
    run := run + [Poll(0, [2], map[])];
    TakesTheProbe(Reach(2, run), 0);
    Then(run, Acquire(0, false));
    run := run + [Acquire(0, false)];
  }

  /** It runs job 2, and then worker 1 lets go of it. */
  lemma RunsUncarried() returns (run: seq<Action>)
    ensures Reach(2, run) == Scene(DONE, STARTED, map[SHARED := Lock(2, LOCK_LEASE)], {},
                                   Carrying(2, InHandler), Idle, multiset{1, 2})
  {
    run := ReclaimedEarly();
    Then(run, Begin(0));
    run := run + [Begin(0)];
    Then(run, Forget(1));
    run := run + [Forget(1)];
  }

  /** Half an hour later the reaper, whose list of carried jobs is empty, frees the
      probe of a job that is still running on it. */
  lemma LockTakenAway() returns (run: seq<Action>)
    ensures Reach(2, run) == Scene(DONE, STARTED, map[], {}, Carrying(2, InHandler), Idle, multiset{1, 2})
      .(clock := LOCK_LEASE, reaper := Sweeping)
  {
    run := RunsUncarried();
    Then(run, Pass(LOCK_LEASE));
    run := run + [Pass(LOCK_LEASE)];
    SweepTable(Reach(2, run));
    Then(run, ListCarried);
    run := run + [ListCarried];
    Then(run, RenewCarried);
    run := run + [RenewCarried];
    Then(run, ReapRows);
    run := run + [ReapRows];
  }

  /** So a third job gets the probe, */
  lemma ThirdGetsIt() returns (run: seq<Action>)
    ensures Reach(2, run) == World(Table(map[1 := DONE, 2 := STARTED, 3 := STARTED.(startedAt := Some(LOCK_LEASE))],
                                         map[SHARED := Lock(3, LOCK_LEASE + LOCK_LEASE)]),
                                   {3}, [Carrying(2, InHandler), Carrying(3, HasLocks)], Sweeping, LOCK_LEASE, Up, {}, multiset{1, 2})
  {
    run := LockTakenAway();
    Then(run, Create(3, HELD, true));
    run := run + [Create(3, HELD, true)];
    PollsOne(Reach(2, run), 1, 3);
    Then(run, Poll(1, [3], map[]));
    run := run + [Poll(1, [3], map[])];
    TakesTheProbe(Reach(2, run), 1);
    Then(run, Acquire(1, false));
    run := run + [Acquire(1, false)];
  }

  /** and runs beside the second: two executing jobs share a resource, and one of them
      owns no lock for it. */
  lemma EarlyReclaimBreaksExclusion() returns (run: seq<Action>)
    ensures var w := Reach(2, run);
      && w.workers == [Carrying(2, InHandler), Carrying(3, InHandler)]
      && 2 in w.table.jobs && 3 in w.table.jobs
      && w.table.jobs[2].resources == w.table.jobs[3].resources == [SHARED]
      && w.active == {3}
      && !Safe(w)
  {
    run := ThirdGetsIt();
    Then(run, Begin(1));
    run := run + [Begin(1)];
    var w := Reach(2, run);
    assert CarriedBy(w, 2, 0) && CarriedBy(w, 3, 1);
    assert Executing(w, 2) && Executing(w, 3);
    assert SHARED in w.table.jobs[2].resources;
  }
}
