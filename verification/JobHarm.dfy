/** What a claim of a job that `active` still names does to the runner's promises: nothing,
    where the job can never start; where it can, they can be broken from there on without
    any further claim.

    The first half is a simulation: a run is watched with the jobs that never start left
    out of sight, and what is seen is a run that keeps the invariant. */
module JobHarm {
  import opened Prelude
  import opened JobTable
  import opened JobQueue
  import opened JobProtocol
  import opened JobSafety
  import opened JobGuarantees

  /** A handler is registered for its type, and its locks do not collide with each other. */
  ghost predicate CanStart(t: Table, id: JobId) {
    id in t.jobs && t.jobs[id].known && Distinct(t.jobs[id].resources)
  }

  /** The claim takes a job that `active` names already, and that job can start. */
  ghost predicate Harms(w: World, a: Action) {
    && Reclaims(w, a)
    && CanStart(w.table, ClaimScan(w.table, a.candidates, a.busy, w.clock).1.value)
  }

  /** The state after these actions. */
  function After(w: World, actions: seq<Action>): World {
    if actions == [] then w
    else Apply(After(w, actions[..|actions| - 1]), actions[|actions| - 1])
  }

  ghost predicate NeverHarms(w: World, actions: seq<Action>) {
    forall k :: 0 <= k < |actions| ==> !Harms(After(w, actions[..k]), actions[k])
  }

  // --- The jobs that can start ---------------------------------------------

  ghost function SeenWorker(t: Table, worker: Worker): Worker {
    if worker.Carrying? && !CanStart(t, worker.job) then Idle else worker
  }

  ghost function SeenJobs(t: Table, ids: set<JobId>): set<JobId> {
    set id | id in ids && CanStart(t, id)
  }

  ghost function SeenReaper(t: Table, reaper: Reaper): Reaper {
    match reaper
    case Listed(carried, since) => Listed(SeenJobs(t, carried), since)
    case Renewing(carried, since) => Renewing(SeenJobs(t, carried), since)
    case Asleep => Asleep
    case Sweeping => Sweeping
  }

  /** `seen` is `t` without the jobs that never start, which own no row. */
  ghost predicate SeesTable(t: Table, seen: Table) {
    && seen.locks == t.locks
    && (forall id :: id in seen.jobs <==> CanStart(t, id))
    && (forall id <- seen.jobs :: id in t.jobs && seen.jobs[id] == t.jobs[id])
    && (forall r <- t.locks :: CanStart(t, t.locks[r].job))
  }

  ghost predicate SeesWorkers(t: Table, workers: seq<Worker>, seen: seq<Worker>) {
    |seen| == |workers| && forall i :: 0 <= i < |workers| ==> seen[i] == SeenWorker(t, workers[i])
  }

  /** `s` is `w` with the jobs that never start, and whoever carries them, out of sight. */
  ghost predicate Sees(w: World, s: World) {
    && SeesTable(w.table, s.table)
    && s.active == SeenJobs(w.table, w.active)
    && SeesWorkers(w.table, w.workers, s.workers)
    && s.reaper == SeenReaper(w.table, w.reaper)
    && s.clock == w.clock && s.life == w.life && s.handedOver == w.handedOver && s.starts == w.starts
  }

  /** Who carries a job that cannot start comes no further than to hand it back or to fail it. */
  ghost predicate StaysOut(t: Table, worker: Worker) {
    worker.Carrying? ==>
      && worker.job in t.jobs
      && (CanStart(t, worker.job) || worker.stage.HasClaim? || worker.stage.Unlocked? || worker.stage.HandingBack?)
  }

  ghost predicate Listing(t: Table, reaper: Reaper) {
    reaper.Listed? || reaper.Renewing? ==> reaper.carried <= t.jobs.Keys
  }

  ghost predicate OutOfSight(w: World) {
    && (forall id :: w.starts[id] > 0 ==> CanStart(w.table, id))
    && (forall i :: 0 <= i < |w.workers| ==> StaysOut(w.table, w.workers[i]))
    && w.active <= w.table.jobs.Keys
    && Listing(w.table, w.reaper)
  }

  ghost predicate Orderly(w: World) {
    OutOfSight(w) && exists s :: Sees(w, s) && Inv(s)
  }

  lemma ExecutingIsSeen(w: World, s: World, id: JobId)
    requires OutOfSight(w) && Sees(w, s) && Executing(w, id)
    ensures Executing(s, id) && id in s.table.jobs && id in w.table.jobs && s.table.jobs[id] == w.table.jobs[id]
  {
    var i :| CarriedBy(w, id, i) && w.workers[i].stage.InHandler?;
    assert StaysOut(w.table, w.workers[i]);
    assert CarriedBy(s, id, i);
  }

  lemma OrderlyIsSafe(w: World)
    requires Orderly(w)
    ensures Safe(w)
  {
    hide Executing, CanStart;
    var s :| Sees(w, s) && Inv(s);
    InvIsSafe(s);
    forall id | Executing(w, id)
      ensures Executing(s, id) && id in s.table.jobs && id in w.table.jobs && s.table.jobs[id] == w.table.jobs[id]
    {
      ExecutingIsSeen(w, s, id);
    }
  }

  // --- What a step does to the tables --------------------------------------

  /** Jobs stay what they are. */
  ghost predicate SameKinds(t: Table, t': Table) {
    t.jobs.Keys <= t'.jobs.Keys && forall id <- t.jobs :: CanStart(t', id) <==> CanStart(t, id)
  }

  ghost predicate TablesMove(t: Table, seen: Table, t': Table, seen': Table) {
    SameKinds(t, t') && SeesTable(t', seen')
  }

  lemma CreatedSeen(t: Table, seen: Table, id: JobId, resources: seq<Resource>, known: bool)
    requires SeesTable(t, seen) && id !in t.jobs
    ensures var t' := Created(t, id, resources, known);
      TablesMove(t, seen, t', if CanStart(t', id) then Created(seen, id, resources, known) else seen)
  {
  }

  lemma RowSeen(t: Table, seen: Table, id: JobId, job: Job)
    requires SeesTable(t, seen) && id in t.jobs && job.known == t.jobs[id].known && job.resources == t.jobs[id].resources
    ensures TablesMove(t, seen, t.(jobs := t.jobs[id := job]),
                       if CanStart(t, id) then seen.(jobs := seen.jobs[id := job]) else seen)
  {
  }

  lemma UnclaimedSeen(t: Table, seen: Table, ids: set<JobId>, seenIds: set<JobId>)
    requires SeesTable(t, seen) && forall id :: CanStart(t, id) ==> (id in ids <==> id in seenIds)
    ensures TablesMove(t, seen, Unclaimed(t, ids), Unclaimed(seen, seenIds))
  {
  }

  lemma LocksSeen(t: Table, seen: Table, locks: map<Resource, Lock>)
    requires SeesTable(t, seen) && forall r <- locks :: CanStart(t, locks[r].job)
    ensures TablesMove(t, seen, t.(locks := locks), seen.(locks := locks))
  {
  }

  lemma EndedSeen(t: Table, seen: Table, ids: set<JobId>, seenIds: set<JobId>)
    requires SeesTable(t, seen) && forall id :: CanStart(t, id) ==> (id in ids <==> id in seenIds)
    ensures TablesMove(t, seen, Ended(t, ids), Ended(seen, seenIds))
  {
  }

  lemma SettledSeen(t: Table, seen: Table, handedOver: set<JobId>, exit: map<JobId, int>)
    requires SeesTable(t, seen)
    ensures TablesMove(t, seen, Settled(t, handedOver, exit), Settled(seen, handedOver, exit))
  {
    hide Unsettled, CanStart;
    UnsettledSeen(t, seen, handedOver);
    KindsOfSettled(t, handedOver, exit);
  }

  lemma UnsettledSeen(t: Table, seen: Table, handedOver: set<JobId>)
    requires SeesTable(t, seen)
    ensures forall id :: CanStart(t, id) ==> id in t.jobs && (Unsettled(t, id, handedOver) <==> Unsettled(seen, id, handedOver))
  {
    hide Distinct;
  }

  lemma KindsOfSettled(t: Table, handedOver: set<JobId>, exit: map<JobId, int>)
    ensures Settled(t, handedOver, exit).jobs.Keys == t.jobs.Keys
    ensures forall id :: CanStart(Settled(t, handedOver, exit), id) <==> CanStart(t, id)
  {
  }

  lemma RenewedSeen(t: Table, seen: Table, ids: set<JobId>, now: int)
    requires SeesTable(t, seen)
    ensures TablesMove(t, seen, Renewed(t, ids, now), Renewed(seen, SeenJobs(t, ids), now))
    ensures TablesMove(t, seen, Reaped(t, ids, now), Reaped(seen, SeenJobs(t, ids), now))
  {
    hide Distinct;
  }

  lemma OrphansSeen(t: Table, seen: Table, active: set<JobId>, grace: Option<int>, now: int)
    requires SeesTable(t, seen)
    ensures TablesMove(t, seen, OrphansEnded(t, active, grace, now), OrphansEnded(seen, SeenJobs(t, active), grace, now))
  {
    EndedSeen(t, seen, Orphans(t, active, grace, now), Orphans(seen, SeenJobs(t, active), grace, now));
  }

  /** Both tables give the same answer to a job that can start; the other one of a known
      kind declares a resource twice and is refused. */
  lemma AcquiredSeen(t: Table, seen: Table, id: JobId, now: int)
    requires SeesTable(t, seen) && id in t.jobs
    ensures var (t', got) := TryAcquire(t, id, now);
      && t'.jobs == t.jobs
      && (!CanStart(t, id) && t.jobs[id].known ==> got.Refused? && t' == t)
      && (CanStart(t, id) ==>
            TryAcquire(seen, id, now) == (seen.(locks := t'.locks), got) && TablesMove(t, seen, t', seen.(locks := t'.locks)))
  {
    AcquireAllOrNothing(t, id, now);
  }

  lemma MoveTwice(t: Table, seen: Table, t1: Table, seen1: Table, t2: Table, seen2: Table)
    requires TablesMove(t, seen, t1, seen1) && TablesMove(t1, seen1, t2, seen2)
    ensures TablesMove(t, seen, t2, seen2)
  {
  }

  // --- One step ------------------------------------------------------------

  /** Nobody moves but the tables, and perhaps the reaper. */
  lemma TableStep(w: World, s: World, w': World, s': World)
    requires OutOfSight(w) && Sees(w, s) && TablesMove(w.table, s.table, w'.table, s'.table)
    requires w'.workers == w.workers && s'.workers == s.workers && w'.active == w.active && s'.active == s.active
    requires Listing(w.table, w'.reaper) && s'.reaper == SeenReaper(w.table, w'.reaper)
    requires s'.clock == w'.clock && s'.life == w'.life && s'.handedOver == w'.handedOver
    requires s'.starts == w'.starts == w.starts
    ensures OutOfSight(w') && Sees(w', s')
  {
    hide CanStart;
  }

  /** One worker moves. */
  lemma WorkerStep(w: World, s: World, w': World, s': World, i: nat, worker: Worker)
    requires OutOfSight(w) && Sees(w, s) && TablesMove(w.table, s.table, w'.table, s'.table)
    requires i < |w.workers| && w'.workers == w.workers[i := worker] && StaysOut(w.table, worker)
    requires s'.workers == s.workers[i := SeenWorker(w.table, worker)]
    requires w'.active <= w.table.jobs.Keys && s'.active == SeenJobs(w.table, w'.active)
    requires w'.reaper == w.reaper && s'.reaper == s.reaper
    requires s'.clock == w'.clock && s'.life == w'.life && s'.handedOver == w'.handedOver && s'.starts == w'.starts
    requires forall id :: w'.starts[id] > w.starts[id] ==> CanStart(w.table, id)
    ensures OutOfSight(w') && Sees(w', s')
  {
    hide CanStart;
  }

  lemma CreateSeen(w: World, s: World, id: JobId, resources: seq<Resource>, known: bool)
    requires OutOfSight(w) && Sees(w, s) && id !in w.table.jobs
    ensures var a := Create(id, resources, known);
      var w' := Apply(w, a);
      OutOfSight(w') && Sees(w', if CanStart(w'.table, id) then Apply(s, a) else s)
  {
    var a := Create(id, resources, known);
    var w' := Apply(w, a);
    CreatedSeen(w.table, s.table, id, resources, known);
    TableStep(w, s, w', if CanStart(w'.table, id) then Apply(s, a) else s);
  }

  lemma CancelSeen(w: World, s: World, id: JobId)
    requires OutOfSight(w) && Sees(w, s) && id in w.table.jobs
    ensures OutOfSight(Apply(w, Cancel(id)))
    ensures Sees(Apply(w, Cancel(id)), if CanStart(w.table, id) then Apply(s, Cancel(id)) else s)
  {
    var w' := Apply(w, Cancel(id));
    RowSeen(w.table, s.table, id, w'.table.jobs[id]);
    assert w'.table == w.table.(jobs := w.table.jobs[id := w'.table.jobs[id]]);
    TableStep(w, s, w', if CanStart(w.table, id) then Apply(s, Cancel(id)) else s);
  }

  /** The clock and the reaper's list. */
  lemma ClockSeen(w: World, s: World, a: Action)
    requires OutOfSight(w) && Sees(w, s) && (a.Pass? || a.ListCarried? || a.ReaperFails?)
    ensures OutOfSight(Apply(w, a)) && Sees(Apply(w, a), Apply(s, a))
  {
    hide CanStart;
    LocksSeen(w.table, s.table, w.table.locks);
    TableStep(w, s, Apply(w, a), Apply(s, a));
  }

  lemma RenewSeen(w: World, s: World)
    requires OutOfSight(w) && Sees(w, s) && w.reaper.Listed?
    ensures OutOfSight(Apply(w, RenewCarried)) && Sees(Apply(w, RenewCarried), Apply(s, RenewCarried))
  {
    hide CanStart, Renewed, SeesTable, SameKinds, SeenJobs;
    RenewedSeen(w.table, s.table, w.reaper.carried, w.clock);
    TableStep(w, s, Apply(w, RenewCarried), Apply(s, RenewCarried));
  }

  lemma ReapSeen(w: World, s: World)
    requires OutOfSight(w) && Sees(w, s) && CanReap(w)
    ensures OutOfSight(Apply(w, ReapRows)) && Sees(Apply(w, ReapRows), Apply(s, ReapRows))
  {
    hide CanStart, Reaped, SeesTable, SameKinds, SeenJobs;
    RenewedSeen(w.table, s.table, w.reaper.carried, w.clock);
    TableStep(w, s, Apply(w, ReapRows), Apply(s, ReapRows));
  }

  lemma EndingSeen(w: World, s: World, a: Action)
    requires OutOfSight(w) && Sees(w, s) && (a.EndAbandoned? || a.Recover?)
    ensures OutOfSight(Apply(w, a)) && Sees(Apply(w, a), Apply(s, a))
  {
    hide CanStart, OrphansEnded;
    if a.EndAbandoned? {
      OrphansSeen(w.table, s.table, w.active, Some(ORPHAN_GRACE), w.clock);
    } else {
      OrphansSeen(w.table, s.table, {}, None, w.clock);
      assert SeenJobs(w.table, {}) == {};
    }
    TableStep(w, s, Apply(w, a), Apply(s, a));
  }

  lemma SettleSeen(w: World, s: World, exit: map<JobId, int>)
    requires OutOfSight(w) && Sees(w, s)
    ensures OutOfSight(Apply(w, Settle(exit))) && Sees(Apply(w, Settle(exit)), Apply(s, Settle(exit)))
  {
    SettledSeen(w.table, s.table, w.handedOver, exit);
    TableStep(w, s, Apply(w, Settle(exit)), Apply(s, Settle(exit)));
  }

  lemma CrashSeen(w: World, s: World, undone: set<JobId>)
    requires OutOfSight(w) && Sees(w, s)
    ensures OutOfSight(DoCrash(w, undone)) && Sees(DoCrash(w, undone), DoCrash(s, undone))
  {
    forall id | CanStart(w.table, id) ensures id in undone * Claims(w.workers) <==> id in undone * Claims(s.workers) {
      if id in Claims(w.workers) {
        var i :| 0 <= i < |w.workers| && w.workers[i].Carrying? && w.workers[i].stage.HasClaim? && w.workers[i].job == id;
        assert s.workers[i] == w.workers[i];
      }
    }
    UnclaimedSeen(w.table, s.table, undone * Claims(w.workers), undone * Claims(s.workers));
    hide CanStart;
  }

  lemma AcquireSeen(w: World, s: World, i: nat, lingers: bool)
    requires OutOfSight(w) && Sees(w, s) && At(w, i, HasClaim) && CanStart(w.table, w.workers[i].job)
    ensures At(s, i, HasClaim)
    ensures OutOfSight(DoAcquire(w, i, lingers)) && Sees(DoAcquire(w, i, lingers), DoAcquire(s, i, lingers))
  {
    var id, w', s' := w.workers[i].job, DoAcquire(w, i, lingers), DoAcquire(s, i, lingers);
    var (t1, got) := TryAcquire(w.table, id, w.clock);
    var seen1 := s.table.(locks := t1.locks);
    AcquiredSeen(w.table, s.table, id, w.clock);
    RowSeen(t1, seen1, id, w'.table.jobs[id]);
    MoveTwice(w.table, s.table, t1, seen1, w'.table, s'.table);
    WorkerStep(w, s, w', s', i, w'.workers[i]);
  }

  /** A worker whose job can start goes on with it. */
  lemma GoesOnSeen(w: World, s: World, w': World, s': World, i: nat, job: Job, stage: Stage)
    requires OutOfSight(w) && Sees(w, s) && i < |w.workers| && w.workers[i].Carrying?
    requires CanStart(w.table, w.workers[i].job)
    requires job.known == w.table.jobs[w.workers[i].job].known && job.resources == w.table.jobs[w.workers[i].job].resources
    requires var id := w.workers[i].job;
      && w' == w.(table := w.table.(jobs := w.table.jobs[id := job]), workers := w.workers[i := Carrying(id, stage)],
                  handedOver := w'.handedOver, starts := w'.starts)
      && s' == s.(table := s.table.(jobs := s.table.jobs[id := job]), workers := s.workers[i := Carrying(id, stage)],
                  handedOver := w'.handedOver, starts := w'.starts)
      && forall k :: k != id ==> w'.starts[k] == w.starts[k]
    ensures OutOfSight(w') && Sees(w', s')
  {
    hide CanStart;
    RowSeen(w.table, s.table, w.workers[i].job, job);
    WorkerStep(w, s, w', s', i, Carrying(w.workers[i].job, stage));
  }

  lemma BeginSeen(w: World, s: World, i: nat)
    requires OutOfSight(w) && Sees(w, s) && At(w, i, HasLocks)
    ensures At(s, i, HasLocks) && OutOfSight(DoBegin(w, i)) && Sees(DoBegin(w, i), DoBegin(s, i))
  {
    hide CanStart;
    var id := w.workers[i].job;
    assert StaysOut(w.table, w.workers[i]);
    assert w.table.jobs[id := w.table.jobs[id]] == w.table.jobs && s.table.jobs[id := w.table.jobs[id]] == s.table.jobs;
    GoesOnSeen(w, s, DoBegin(w, i), DoBegin(s, i), i, w.table.jobs[id], InHandler);
  }

  lemma HandOverSeen(w: World, s: World, i: nat)
    requires OutOfSight(w) && Sees(w, s) && At(w, i, InHandler)
    ensures At(s, i, InHandler) && OutOfSight(DoHandOver(w, i)) && Sees(DoHandOver(w, i), DoHandOver(s, i))
  {
    hide CanStart;
    var id := w.workers[i].job;
    assert StaysOut(w.table, w.workers[i]);
    assert w.workers[i := Carrying(id, InHandler)] == w.workers && s.workers[i := Carrying(id, InHandler)] == s.workers;
    GoesOnSeen(w, s, DoHandOver(w, i), DoHandOver(s, i), i, w.table.jobs[id].(status := Detached), InHandler);
  }

  lemma ReturnSeen(w: World, s: World, i: nat, outcome: Outcome)
    requires OutOfSight(w) && Sees(w, s) && At(w, i, InHandler)
    ensures At(s, i, InHandler) && OutOfSight(DoReturn(w, i, outcome)) && Sees(DoReturn(w, i, outcome), DoReturn(s, i, outcome))
  {
    hide CanStart;
    var id := w.workers[i].job;
    assert StaysOut(w.table, w.workers[i]);
    assert w.table.jobs[id := w.table.jobs[id]] == w.table.jobs && s.table.jobs[id := w.table.jobs[id]] == s.table.jobs;
    var job := DoReturn(w, i, outcome).table.jobs[id];
    GoesOnSeen(w, s, DoReturn(w, i, outcome), DoReturn(s, i, outcome), i, job, Closing);
  }

  lemma UnlockSeen(w: World, s: World, i: nat)
    requires OutOfSight(w) && Sees(w, s) && At(w, i, Closing)
    ensures At(s, i, Closing) && OutOfSight(DoUnlock(w, i)) && Sees(DoUnlock(w, i), DoUnlock(s, i))
  {
    hide CanStart;
    assert StaysOut(w.table, w.workers[i]);
    LocksSeen(w.table, s.table, DoUnlock(w, i).table.locks);
    WorkerStep(w, s, DoUnlock(w, i), DoUnlock(s, i), i, DoUnlock(w, i).workers[i]);
  }

  lemma LetGoSeen(w: World, s: World, i: nat)
    requires OutOfSight(w) && Sees(w, s) && i < |w.workers| && w.workers[i].Carrying? && CanStart(w.table, w.workers[i].job)
    ensures s.workers[i] == w.workers[i] && OutOfSight(LetGo(w, i)) && Sees(LetGo(w, i), LetGo(s, i))
  {
    hide CanStart;
    LocksSeen(w.table, s.table, w.table.locks);
    WorkerStep(w, s, LetGo(w, i), LetGo(s, i), i, Idle);
  }

  lemma AbortSeen(w: World, s: World, i: nat, rolledBack: bool, unlocks: bool)
    requires OutOfSight(w) && Sees(w, s) && i < |w.workers| && w.workers[i].Carrying? && CanStart(w.table, w.workers[i].job)
    ensures s.workers[i].Carrying?
    ensures OutOfSight(DoAbort(w, i, rolledBack, unlocks))
    ensures Sees(DoAbort(w, i, rolledBack, unlocks), DoAbort(s, i, rolledBack, unlocks))
  {
    var id, w', s' := w.workers[i].job, DoAbort(w, i, rolledBack, unlocks), DoAbort(s, i, rolledBack, unlocks);
    var undone := if rolledBack && w.workers[i].stage.HasClaim? then {id} else {};
    UnclaimedSeen(w.table, s.table, undone, undone);
    LocksSeen(Unclaimed(w.table, undone), Unclaimed(s.table, undone), w'.table.locks);
    MoveTwice(w.table, s.table, Unclaimed(w.table, undone), Unclaimed(s.table, undone), w'.table, s'.table);
    WorkerStep(w, s, w', s', i, Idle);
  }

  /** A worker whose job cannot start: nothing moves in sight. */
  lemma UnseenAcquire(w: World, s: World, i: nat, lingers: bool)
    requires OutOfSight(w) && Sees(w, s) && At(w, i, HasClaim) && !CanStart(w.table, w.workers[i].job)
    ensures OutOfSight(DoAcquire(w, i, lingers)) && Sees(DoAcquire(w, i, lingers), s)
  {
    var id, w' := w.workers[i].job, DoAcquire(w, i, lingers);
    AcquiredSeen(w.table, s.table, id, w.clock);
    RowSeen(w.table, s.table, id, w'.table.jobs[id]);
    assert w'.table == w.table.(jobs := w.table.jobs[id := w'.table.jobs[id]]);
    WorkerStep(w, s, w', s, i, w'.workers[i]);
  }

  lemma UnseenLetGo(w: World, s: World, i: nat)
    requires OutOfSight(w) && Sees(w, s) && i < |w.workers| && w.workers[i].Carrying? && !CanStart(w.table, w.workers[i].job)
    ensures OutOfSight(LetGo(w, i)) && Sees(LetGo(w, i), s)
  {
    hide CanStart;
    LocksSeen(w.table, s.table, w.table.locks);
    WorkerStep(w, s, LetGo(w, i), s, i, Idle);
  }

  lemma UnseenAbort(w: World, s: World, i: nat, rolledBack: bool, unlocks: bool)
    requires OutOfSight(w) && Sees(w, s) && i < |w.workers| && w.workers[i].Carrying? && !CanStart(w.table, w.workers[i].job)
    ensures OutOfSight(DoAbort(w, i, rolledBack, unlocks)) && Sees(DoAbort(w, i, rolledBack, unlocks), s)
  {
    hide CanStart;
    var w' := DoAbort(w, i, rolledBack, unlocks);
    assert StaysOut(w.table, w.workers[i]);
    UnclaimedSeen(w.table, s.table, if rolledBack && w.workers[i].stage.HasClaim? then {w.workers[i].job} else {}, {});
    assert Unclaimed(s.table, {}) == s.table;
    WorkerStep(w, s, w', s, i, Idle);
  }

  // --- A claim -------------------------------------------------------------

  lemma NotesSeen(t: Table, seen: Table, t': Table, seen': Table)
    requires SeesTable(t, seen) && t'.locks == t.locks && t'.jobs.Keys == t.jobs.Keys && seen.jobs.Keys <= t.jobs.Keys
    requires forall id <- t.jobs :: t'.jobs[id].known == t.jobs[id].known && t'.jobs[id].resources == t.jobs[id].resources
    requires seen' == Noted(seen, t')
    ensures TablesMove(t, seen, t', seen')
  {
    forall id <- t.jobs ensures CanStart(t', id) <==> CanStart(t, id) {
    }
    hide CanStart;
  }

  /** What the scan writes besides its claim, seen. */
  function Noted(seen: Table, t': Table): Table
    requires seen.jobs.Keys <= t'.jobs.Keys
  {
    seen.(jobs := map id | id in seen.jobs :: t'.jobs[id])
  }

  /** A poll that takes nothing, or a job that cannot start, writes reasons in sight and no
      more. */
  lemma IdlePollSeen(w: World, s: World, i: nat, candidates: seq<JobId>, busy: map<Resource, JobId>) returns (s': World)
    requires OutOfSight(w) && Sees(w, s) && Inv(s) && CanPoll(w, i, candidates)
    requires var got := ClaimScan(w.table, candidates, busy, w.clock).1; got.Some? ==> !CanStart(w.table, got.value)
    ensures OutOfSight(DoPoll(w, i, candidates, busy)) && Sees(DoPoll(w, i, candidates, busy), s') && Inv(s')
  {
    hide CanStart, ClaimScan, Inv;
    var (t', got) := ClaimScan(w.table, candidates, busy, w.clock);
    ClaimScanFrame(w.table, candidates, busy, w.clock);
    s' := s.(table := Noted(s.table, t'));
    NotesSeen(w.table, s.table, t', s'.table);
    NotesKeep(s, s');
    WorkerStep(w, s, DoPoll(w, i, candidates, busy), s', i, DoPoll(w, i, candidates, busy).workers[i]);
  }

  /** The claim of a queued job nobody carries, with the reasons written on the way to it. */
  lemma ClaimWithNotes(s: World, i: nat, id: JobId, t': Table) returns (s': World)
    requires Inv(s) && s.life.Up? && i < |s.workers| && s.workers[i].Idle?
    requires id in s.table.jobs && s.table.jobs[id].status.Queued? && id !in s.active
    requires s.table.jobs.Keys <= t'.jobs.Keys
    requires forall j <- s.table.jobs ::
      && t'.jobs[j].resources == s.table.jobs[j].resources
      && (j != id ==> t'.jobs[j].status == s.table.jobs[j].status && t'.jobs[j].startedAt == s.table.jobs[j].startedAt)
    requires t'.jobs[id].status.Running? && t'.jobs[id].startedAt == Some(s.clock)
    ensures s' == s.(table := Noted(s.table, t'), active := s.active + {id}, workers := s.workers[i := Carrying(id, HasClaim)])
    ensures Inv(s')
  {
    hide Carriage, Stages, Rows, Leases, Resting;
    var job := t'.jobs[id].(status := Queued, startedAt := s.table.jobs[id].startedAt);
    var noted := s.(table := s.table.(jobs := Noted(s.table, t').jobs[id := job]));
    NotesKeep(s, noted);
    s' := s.(table := Noted(s.table, t'), active := s.active + {id}, workers := s.workers[i := Carrying(id, HasClaim)]);
    assert Claimed(noted.table, id, s.clock) == s'.table;
    WorkerPicksUp(noted, s', i, id);
  }

  /** A poll that takes a job that can start, and that nobody carries, takes it in sight. */
  lemma ClaimSeen(w: World, s: World, i: nat, candidates: seq<JobId>, busy: map<Resource, JobId>) returns (s': World)
    requires OutOfSight(w) && Sees(w, s) && Inv(s) && CanPoll(w, i, candidates)
    requires var got := ClaimScan(w.table, candidates, busy, w.clock).1;
      got.Some? && CanStart(w.table, got.value) && got.value !in w.active
    ensures OutOfSight(DoPoll(w, i, candidates, busy)) && Sees(DoPoll(w, i, candidates, busy), s') && Inv(s')
  {
    hide CanStart, ClaimScan, Inv;
    var (t', got) := ClaimScan(w.table, candidates, busy, w.clock);
    ClaimScanFrame(w.table, candidates, busy, w.clock);
    s' := ClaimWithNotes(s, i, got.value, t');
    NotesSeen(w.table, s.table, t', s'.table);
    WorkerStep(w, s, DoPoll(w, i, candidates, busy), s', i, Carrying(got.value, HasClaim));
  }

  // --- Every run without a claim that harms --------------------------------

  lemma SameAgain(w: World, s: World, a: Action) returns (s': World)
    requires Inv(s) && !a.Poll? && OutOfSight(Apply(w, a)) && Sees(Apply(w, a), Apply(s, a))
    ensures Sees(Apply(w, a), s') && Inv(s')
  {
    s' := Apply(s, a);
    StepKeeps(s, a);
  }

  lemma WorkerActionSeen(w: World, s: World, a: Action) returns (s': World)
    requires OutOfSight(w) && Sees(w, s) && Inv(s) && ByWorker(a)
    requires Apply(w, a) != w
    ensures OutOfSight(Apply(w, a)) && Sees(Apply(w, a), s') && Inv(s')
  {
    hide Inv, CanStart, OutOfSight, Sees, DoAcquire, DoBegin, DoHandOver, DoReturn, DoUnlock, DoAbort, LetGo;
    var i := a.worker;
    StagesSeen(w, s, i);
    if CanStart(w.table, w.workers[i].job) {
      match a {
        case Acquire(_, lingers) => AcquireSeen(w, s, i, lingers);
        case Begin(_) => BeginSeen(w, s, i);
        case HandOver(_) => HandOverSeen(w, s, i);
        case Return(_, outcome) => ReturnSeen(w, s, i, outcome);
        case Unlock(_) => UnlockSeen(w, s, i);
        case Forget(_) => LetGoSeen(w, s, i);
        case Abort(_, rolledBack, unlocks) => AbortSeen(w, s, i, rolledBack, unlocks);
      }
      s' := SameAgain(w, s, a);
    } else {
      match a {
        case Acquire(_, lingers) => UnseenAcquire(w, s, i, lingers);
        case Forget(_) => UnseenLetGo(w, s, i);
        case Abort(_, rolledBack, unlocks) => UnseenAbort(w, s, i, rolledBack, unlocks);
      }
      s' := s;
    }
  }

  /** Workers whose jobs can start stand in sight as they are; the others have no locks and
      run no handler. */
  lemma StagesSeen(w: World, s: World, i: nat)
    requires OutOfSight(w) && Sees(w, s)
    ensures i < |w.workers| && w.workers[i].Carrying? ==>
      && i < |s.workers| && w.workers[i].job in w.table.jobs
      && (CanStart(w.table, w.workers[i].job) ==>
            s.workers[i] == w.workers[i] && s.life == w.life && w.workers[i].job in s.table.jobs)
      && (!CanStart(w.table, w.workers[i].job) ==>
            w.workers[i].stage.HasClaim? || w.workers[i].stage.Unlocked? || w.workers[i].stage.HandingBack?)
  {
    hide CanStart;
    if i < |w.workers| {
      assert StaysOut(w.table, w.workers[i]);
    }
  }

  ghost predicate ByProcess(a: Action) {
    || a.Pass? || a.ListCarried? || a.RenewCarried? || a.ReapRows? || a.ReaperFails? || a.EndAbandoned?
    || a.Crash? || a.Settle? || a.Recover?
  }

  lemma ProcessActionSeen(w: World, s: World, a: Action) returns (s': World)
    requires OutOfSight(w) && Sees(w, s) && Inv(s) && ByProcess(a) && Apply(w, a) != w
    ensures OutOfSight(Apply(w, a)) && Sees(Apply(w, a), s') && Inv(s')
  {
    hide Inv, CanStart, OutOfSight, Sees, DoCrash, DoSettle, Renewed, Reaped, OrphansEnded;
    match a {
      case RenewCarried => RenewSeen(w, s);
      case ReapRows => ReapSeen(w, s);
      case EndAbandoned => EndingSeen(w, s, a);
      case Recover => EndingSeen(w, s, a);
      case Crash(undone) => CrashApplied(w, s, undone);
      case Settle(exit) => SettleSeen(w, s, exit);
      case _ => ClockSeen(w, s, a);
    }
    s' := SameAgain(w, s, a);
  }

  lemma CrashApplied(w: World, s: World, undone: set<JobId>)
    requires OutOfSight(w) && Sees(w, s)
    ensures OutOfSight(Apply(w, Crash(undone))) && Sees(Apply(w, Crash(undone)), Apply(s, Crash(undone)))
  {
    CrashSeen(w, s, undone);
  }

  lemma StepIsOrderly(w: World, a: Action)
    requires Orderly(w) && !Harms(w, a)
    ensures Orderly(Apply(w, a))
  {
    hide Inv, CanStart, OutOfSight, Sees, DoPoll, ClaimScan;
    if Apply(w, a) != w {
      var s :| Sees(w, s) && Inv(s);
      var s' := s;
      match a {
        case Create(id, resources, known) =>
          CreateSeen(w, s, id, resources, known);
          if CanStart(Apply(w, a).table, id) {
            s' := SameAgain(w, s, a);
          }
        case Cancel(id) =>
          CancelSeen(w, s, id);
          if CanStart(w.table, id) {
            s' := SameAgain(w, s, a);
          }
        case Poll(i, candidates, busy) =>
          if TakesStartable(w, a) {
            s' := ClaimSeen(w, s, i, candidates, busy);
          } else {
            s' := IdlePollSeen(w, s, i, candidates, busy);
          }
        case _ =>
          if ByProcess(a) {
            s' := ProcessActionSeen(w, s, a);
          } else {
            s' := WorkerActionSeen(w, s, a);
          }
      }
      assert Sees(Apply(w, a), s') && Inv(s');
    }
  }

  ghost predicate TakesStartable(w: World, a: Action)
    requires a.Poll? && CanPoll(w, a.worker, a.candidates)
  {
    var got := ClaimScan(w.table, a.candidates, a.busy, w.clock).1;
    got.Some? && CanStart(w.table, got.value)
  }

  lemma NeverHarmsBefore(w: World, actions: seq<Action>, n: nat)
    requires NeverHarms(w, actions) && n <= |actions|
    ensures NeverHarms(w, actions[..n])
  {
    hide Harms, After;
    var before := actions[..n];
    forall k | 0 <= k < n ensures !Harms(After(w, before[..k]), before[k]) {
      assert before[..k] == actions[..k];
    }
  }

  lemma {:induction false} HarmlessIsOrderly(w: World, actions: seq<Action>)
    requires Orderly(w) && NeverHarms(w, actions)
    ensures Orderly(After(w, actions))
  {
    hide Orderly, Harms;
    if actions != [] {
      var n := |actions| - 1;
      NeverHarmsBefore(w, actions, n);
      HarmlessIsOrderly(w, actions[..n]);
      StepIsOrderly(After(w, actions[..n]), actions[n]);
    }
  }

  lemma StartIsOrderly(workers: nat)
    ensures Orderly(Init(workers))
  {
    assert Sees(Init(workers), Init(workers)) && Inv(Init(workers));
  }

  lemma {:induction false} ReachIsAfter(workers: nat, actions: seq<Action>)
    ensures Reach(workers, actions) == After(Init(workers), actions)
  {
    if actions != [] {
      ReachIsAfter(workers, actions[..|actions| - 1]);
    }
  }

  /** The runner's promises over every run in which no claim takes a job that can start and
      that `active` still names. */
  lemma HarmlessRunsAreSafe(workers: nat, actions: seq<Action>)
    requires NeverHarms(Init(workers), actions)
    ensures Safe(Reach(workers, actions))
  {
    hide Orderly, Harms, Safe, Reach, After;
    StartIsOrderly(workers);
    HarmlessIsOrderly(Init(workers), actions);
    OrderlyIsSafe(After(Init(workers), actions));
    ReachIsAfter(workers, actions);
  }

  // --- A claim that harms --------------------------------------------------

  ghost predicate ActiveIsCarried(w: World) {
    forall id <- w.active :: exists i :: CarriedBy(w, id, i)
  }

  /** Whoever moves on keeps its job; whoever drops it takes it out of `active`. */
  lemma CarryingStep(w: World, a: Action, id: JobId, i: int)
    requires CarriedBy(w, id, i) && id in Apply(w, a).active
    ensures CarriedBy(Apply(w, a), id, i)
  {
  }

  lemma ActiveStep(w: World, a: Action)
    requires ActiveIsCarried(w)
    ensures ActiveIsCarried(Apply(w, a))
  {
    var w' := Apply(w, a);
    forall id <- w'.active ensures exists i :: CarriedBy(w', id, i) {
      if id in w.active {
        var i :| CarriedBy(w, id, i);
        CarryingStep(w, a, id, i);
      } else {
        assert CarriedBy(w', id, a.worker);
      }
    }
  }

  lemma {:induction false} ReachIsCarried(workers: nat, actions: seq<Action>)
    ensures ActiveIsCarried(Reach(workers, actions))
  {
    hide Apply, ActiveIsCarried;
    if actions == [] {
      NobodyCarries(workers);
    } else {
      ReachIsCarried(workers, actions[..|actions| - 1]);
      ActiveStep(Reach(workers, actions[..|actions| - 1]), actions[|actions| - 1]);
    }
  }

  lemma NobodyCarries(workers: nat)
    ensures ActiveIsCarried(Init(workers))
  {
  }

  lemma Then(w: World, actions: seq<Action>, a: Action)
    ensures After(w, actions + [a]) == Apply(After(w, actions), a)
  {
    assert (actions + [a])[..|actions + [a]| - 1] == actions;
  }

  ghost predicate NoPolls(actions: seq<Action>) {
    forall a <- actions :: !a.Poll?
  }

  lemma NoPollsNeverHarms(w: World, actions: seq<Action>)
    requires NoPolls(actions)
    ensures NeverHarms(w, actions)
  {
    forall k | 0 <= k < |actions| ensures !Harms(After(w, actions[..k]), actions[k]) {
      assert actions[k] in actions;
    }
  }

  /** The first `n` workers, `i` aside, have let go, and nothing else has happened. */
  ghost predicate LetGoTo(w: World, v: World, i: nat, n: nat) {
    && v == w.(workers := v.workers, active := v.active)
    && |v.workers| == |w.workers|
    && (forall j :: 0 <= j < |w.workers| ==> v.workers[j] == if j < n && j != i then Idle else w.workers[j])
    && (forall id <- v.active :: exists j :: j != i && CarriedBy(v, id, j))
  }

  lemma {:induction false} OthersLetGo(w: World, i: nat, n: nat) returns (run: seq<Action>)
    requires n <= |w.workers| && forall id <- w.active :: exists j :: j != i && CarriedBy(w, id, j)
    ensures NoPolls(run) && LetGoTo(w, After(w, run), i, n)
  {
    if n == 0 {
      run := [];
    } else {
      var before := OthersLetGo(w, i, n - 1);
      if n - 1 == i {
        run := before;
      } else {
        run := before + [Abort(n - 1, false, false)];
        Then(w, before, Abort(n - 1, false, false));
        LastLetsGo(w, After(w, before), i, n);
      }
    }
  }

  lemma LastLetsGo(w: World, v: World, i: nat, n: nat)
    requires 0 < n <= |w.workers| && n - 1 != i && LetGoTo(w, v, i, n - 1)
    ensures LetGoTo(w, Apply(v, Abort(n - 1, false, false)), i, n)
  {
    var v' := Apply(v, Abort(n - 1, false, false));
    assert Unclaimed(v.table, {}) == v.table;
    forall id <- v'.active ensures exists j :: j != i && CarriedBy(v', id, j) {
      var j :| j != i && CarriedBy(v, id, j);
      assert CarriedBy(v', id, j);
    }
  }

  /** Worker `i` alone carries a job, which has just been claimed. */
  ghost predicate Alone(w: World, i: nat, id: JobId) {
    && w.life.Up? && i < |w.workers| && w.workers[i] == Carrying(id, HasClaim) && w.active == {}
    && CanStart(w.table, id)
    && w.table.jobs[id].status.Running? && w.table.jobs[id].startedAt.Some? && w.table.jobs[id].startedAt.value <= w.clock
  }

  lemma {:induction false} LeasesEnd(locks: map<Resource, Lock>, now: int) returns (d: nat)
    ensures d > ORPHAN_GRACE && forall r <- locks :: locks[r].expires <= now + d
    decreases |locks|
  {
    if locks == map[] {
      d := ORPHAN_GRACE + 1;
    } else {
      var r :| r in locks;
      var rest := locks - {r};
      assert rest.Keys == locks.Keys - {r};
      d := LeasesEnd(rest, now);
      assert forall q <- locks :: q == r || (q in rest && rest[q] == locks[q]);
      d := Max(d, locks[r].expires - now);
    }
  }

  /** A reaper pass with nobody in `active`, up to its look for abandoned jobs. */
  lemma ClearingPass(w: World, now: int)
    requires w.life.Up? && w.active == {} && now == w.clock && forall r <- w.table.locks :: w.table.locks[r].expires <= now
    ensures After(w, [ReaperFails, ListCarried, RenewCarried, ReapRows]) ==
      w.(table := w.table.(locks := map[]), reaper := Sweeping)
  {
    var start: seq<Action> := [];
    Then(w, start, ReaperFails);
    Then(w, start + [ReaperFails], ListCarried);
    Then(w, start + [ReaperFails] + [ListCarried], RenewCarried);
    Then(w, start + [ReaperFails] + [ListCarried] + [RenewCarried], ReapRows);
    var asleep := w.(reaper := Asleep);
    SweepTable(asleep);
    assert Reaped(Renewed(w.table, {}, now), {}, now) == w.table.(locks := map[]);
    assert start + [ReaperFails] + [ListCarried] + [RenewCarried] + [ReapRows]
        == [ReaperFails, ListCarried, RenewCarried, ReapRows];
  }

  lemma {:induction false} AfterBoth(w: World, first: seq<Action>, more: seq<Action>)
    ensures After(w, first + more) == After(After(w, first), more)
  {
    hide Apply;
    if more == [] {
      assert first + more == first;
    } else {
      var n := |more| - 1;
      assert (first + more)[..|first + more| - 1] == first + more[..n];
      AfterBoth(w, first, more[..n]);
    }
  }

  lemma PassesBy(w: World, d: nat)
    ensures After(w, [Pass(d)]) == w.(clock := w.clock + d)
  {
    Then(w, [], Pass(d));
    assert [] + [Pass(d)] == [Pass(d)];
  }

  /** The reaper finds nobody carrying anything and frees every expired row. */
  lemma ReaperClears(w: World, i: nat, id: JobId) returns (run: seq<Action>)
    requires Alone(w, i, id)
    ensures NoPolls(run)
    ensures var v := After(w, run);
      && Alone(v, i, id) && v.table == w.table.(locks := map[]) && v.reaper.Sweeping?
      && w.table.jobs[id].startedAt.value < v.clock - ORPHAN_GRACE
  {
    hide After, Apply;
    var d := LeasesEnd(w.table.locks, w.clock);
    var later := w.(clock := w.clock + d);
    PassesBy(w, d);
    ClearingPass(later, later.clock);
    run := [Pass(d)] + [ReaperFails, ListCarried, RenewCarried, ReapRows];
    AfterBoth(w, [Pass(d)], [ReaperFails, ListCarried, RenewCarried, ReapRows]);
  }

  /** The job starts, and the reaper's next pass over abandoned jobs finishes it. */
  lemma EndedAtWork(w: World, i: nat, id: JobId) returns (run: seq<Action>)
    requires Alone(w, i, id) && w.table.locks == map[] && w.reaper.Sweeping?
    requires w.table.jobs[id].startedAt.value < w.clock - ORPHAN_GRACE
    ensures NoPolls(run)
    ensures var v := After(w, run);
      && Executing(v, id) && id in v.table.jobs && v.table.jobs[id].resources == w.table.jobs[id].resources
      && v.table.jobs[id].status.Terminal() && OwnsNone(v.table, id)
  {
    AcquireAllOrNothing(w.table, id, w.clock);
    run := [] + [Acquire(i, false)];
    Then(w, [], Acquire(i, false));
    Then(w, run, Begin(i));
    run := run + [Begin(i)];
    var v := After(w, run);
    assert v.workers[i] == Carrying(id, InHandler) && v.active == {};
    Then(w, run, EndAbandoned);
    run := run + [EndAbandoned];
    assert CarriedBy(After(w, run), id, i);
  }

  lemma ClaimedAlone(w: World, i: nat, candidates: seq<JobId>, busy: map<Resource, JobId>) returns (run: seq<Action>)
    requires ActiveIsCarried(w) && CanPoll(w, i, candidates) && Harms(w, Poll(i, candidates, busy))
    ensures NoPolls(run)
    ensures Alone(After(DoPoll(w, i, candidates, busy), run), i, ClaimScan(w.table, candidates, busy, w.clock).1.value)
  {
    var w' := DoPoll(w, i, candidates, busy);
    var id := ClaimScan(w.table, candidates, busy, w.clock).1.value;
    ClaimScanFrame(w.table, candidates, busy, w.clock);
    forall j <- w'.active ensures exists k :: k != i && CarriedBy(w', j, k) {
      var k :| CarriedBy(w, j, k);
      assert k != i && CarriedBy(w', j, k);
    }
    run := OthersLetGo(w', i, |w'.workers|);
    var v := After(w', run);
    assert forall j, k :: k != i ==> !CarriedBy(v, j, k);
    assert v.active == {} && v.workers[i] == w'.workers[i];
  }

  /** A job is executing, and it is finished and owns none of its locks. */
  ghost predicate FinishedAtWork(w: World, id: JobId) {
    Executing(w, id) && id in w.table.jobs && w.table.jobs[id].status.Terminal() && OwnsNone(w.table, id)
  }

  /** From a claim that harms on, without any further claim: everybody else lets go, the
      job's leases and the grace period run out, it gets its locks and starts - and the
      reaper, which finds it in nobody's hands, finishes it and frees its locks under its
      handler. */
  lemma ReclaimHarms(w: World, i: nat, candidates: seq<JobId>, busy: map<Resource, JobId>) returns (run: seq<Action>)
    requires ActiveIsCarried(w) && CanPoll(w, i, candidates) && Harms(w, Poll(i, candidates, busy))
    ensures NoPolls(run)
    ensures var v := After(DoPoll(w, i, candidates, busy), run);
      FinishedAtWork(v, ClaimScan(w.table, candidates, busy, w.clock).1.value) && !Safe(v)
  {
    hide After, DoPoll, ClaimScan, Alone;
    var id := ClaimScan(w.table, candidates, busy, w.clock).1.value;
    var w' := DoPoll(w, i, candidates, busy);
    var first := ClaimedAlone(w, i, candidates, busy);
    var w1 := After(w', first);
    var second := ReaperClears(w1, i, id);
    var w2 := After(w1, second);
    var third := EndedAtWorkFrom(w2, w1, i, id);
    AfterBoth(w', first, second);
    AfterBoth(w', first + second, third);
    run := first + second + third;
  }

  lemma EndedAtWorkFrom(w: World, before: World, i: nat, id: JobId) returns (run: seq<Action>)
    requires Alone(before, i, id) && Alone(w, i, id) && w.table == before.table.(locks := map[]) && w.reaper.Sweeping?
    requires before.table.jobs[id].startedAt.value < w.clock - ORPHAN_GRACE
    ensures NoPolls(run) && FinishedAtWork(After(w, run), id) && !Safe(After(w, run))
  {
    run := EndedAtWork(w, i, id);
  }

  /** A poll keeps every promise, whatever happens after it but another such claim, if and
      only if it does not take a job that can start and that `active` still names. */
  lemma PollHarmsExactly(w: World, i: nat, candidates: seq<JobId>, busy: map<Resource, JobId>)
    requires Orderly(w) && ActiveIsCarried(w) && CanPoll(w, i, candidates)
    ensures (forall more :: NeverHarms(DoPoll(w, i, candidates, busy), more) ==> Safe(After(DoPoll(w, i, candidates, busy), more)))
            <==> !Harms(w, Poll(i, candidates, busy))
  {
    hide Orderly, Safe, After, DoPoll, ActiveIsCarried;
    var w' := DoPoll(w, i, candidates, busy);
    if Harms(w, Poll(i, candidates, busy)) {
      var more := ReclaimHarms(w, i, candidates, busy);
      NoPollsNeverHarms(w', more);
    } else {
      StepIsOrderly(w, Poll(i, candidates, busy));
      forall more | NeverHarms(w', more) ensures Safe(After(w', more)) {
        HarmlessIsOrderly(w', more);
        OrderlyIsSafe(After(w', more));
      }
    }
  }

  /** From every point of the run on, the promises hold whatever happens, as long as what
      happens brings no claim that harms. */
  ghost predicate StaysSafe(workers: nat, actions: seq<Action>) {
    forall k, more :: 0 <= k <= |actions| && NeverHarms(Reach(workers, actions[..k]), more) ==>
      Safe(After(Reach(workers, actions[..k]), more))
  }

  /** For a whole run: it stays safe, now and later, if and only if no claim of it takes a
      job that can start and that `active` still names. */
  lemma RunIsSafeExactly(workers: nat, actions: seq<Action>)
    ensures StaysSafe(workers, actions) <==> NeverHarms(Init(workers), actions)
  {
    hide Orderly, Safe, Harms, Apply;
    if NeverHarms(Init(workers), actions) {
      forall k, more | 0 <= k <= |actions| && NeverHarms(Reach(workers, actions[..k]), more)
        ensures Safe(After(Reach(workers, actions[..k]), more))
      {
        NeverHarmsBefore(Init(workers), actions, k);
        StartIsOrderly(workers);
        HarmlessIsOrderly(Init(workers), actions[..k]);
        ReachIsAfter(workers, actions[..k]);
        HarmlessIsOrderly(Reach(workers, actions[..k]), more);
        OrderlyIsSafe(After(Reach(workers, actions[..k]), more));
      }
    }
    if StaysSafe(workers, actions) {
      forall k | 0 <= k < |actions| ensures !Harms(After(Init(workers), actions[..k]), actions[k]) {
        ReachIsAfter(workers, actions[..k]);
        SafeHereNeverHarms(workers, actions, k);
      }
    }
  }

  lemma SafeHereNeverHarms(workers: nat, actions: seq<Action>, k: nat)
    requires StaysSafe(workers, actions) && k < |actions|
    ensures !Harms(Reach(workers, actions[..k]), actions[k])
  {
    hide Orderly, Safe, After, ActiveIsCarried;
    var w, a := Reach(workers, actions[..k]), actions[k];
    if Harms(w, a) {
      ReachIsCarried(workers, actions[..k]);
      var more := ReclaimHarms(w, a.worker, a.candidates, a.busy);
      NextIsPolled(workers, actions, k);
      NoPollsNeverHarms(Reach(workers, actions[..k + 1]), more);
    }
  }

  lemma NextIsPolled(workers: nat, actions: seq<Action>, k: nat)
    requires k < |actions|
    requires var w, a := Reach(workers, actions[..k]), actions[k]; a.Poll? && CanPoll(w, a.worker, a.candidates)
    ensures var w, a := Reach(workers, actions[..k]), actions[k];
      Reach(workers, actions[..k + 1]) == DoPoll(w, a.worker, a.candidates, a.busy)
  {
    hide DoPoll, CanPoll;
    ReachNext(workers, actions, k);
  }
}
