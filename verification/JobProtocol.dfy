/** The runner as a transition system: workers, the lease reaper, operators, crashes
    and restarts over the two tables of JobTable.dfy.

    One step is one committed service call, or one move of a worker between two of
    them.  Between steps anything else may happen.  `active` is the runner's own set
    of carried jobs, `starts` counts how often each job's handler was entered, and
    `handedOver` holds the update records nobody has settled yet. */
module JobProtocol {
  import opened Prelude
  import opened JobTable
  import opened JobQueue

  /** How far a worker has come with the job it carries.  `HandingBack` is the gap
      between writing a job back to the queue and dropping it from `active`. */
  datatype Stage = HasClaim | HasLocks | InHandler | Closing | Unlocked | HandingBack

  datatype Worker = Idle | Carrying(job: JobId, stage: Stage)

  datatype Reaper =
    | Asleep
    | Listed(carried: set<JobId>, since: int)
    | Renewing(carried: set<JobId>, since: int)
    | Sweeping

  datatype Life = Down | Recovering | Up

  datatype World = World(
    table: Table,
    active: set<JobId>,
    workers: seq<Worker>,
    reaper: Reaper,
    clock: int,
    life: Life,
    handedOver: set<JobId>,
    starts: multiset<JobId>)

  /** How a handler ends.  `cancelSeen` is whether the worker's copy of the row shows
      the cancellation request. */
  datatype Outcome =
    | Returned(succeeded: nat, failed: nat, cancelSeen: bool)
    | Raised
    | Interrupted

  datatype Action =
    | Create(id: JobId, resources: seq<Resource>, known: bool)
    | Cancel(id: JobId)
    | Pass(seconds: nat)
    | Poll(worker: nat, candidates: seq<JobId>, busy: map<Resource, JobId>)
    | Acquire(worker: nat, lingers: bool)
    | Begin(worker: nat)
    | HandOver(worker: nat)
    | Return(worker: nat, outcome: Outcome)
    | Unlock(worker: nat)
    | Forget(worker: nat)
    | Abort(worker: nat, rolledBack: bool, unlocks: bool)
    | ListCarried
    | RenewCarried
    | ReapRows
    | EndAbandoned
    | ReaperFails
    | Crash(undone: set<JobId>)
    | Settle(exit: map<JobId, int>)
    | Recover

  function Init(workers: nat): World {
    World(Table(map[], map[]), {}, seq(workers, _ => Idle), Asleep, 0, Down, {}, multiset{})
  }

  // --- Steps of a worker ---------------------------------------------------

  /** A worker that is up, carrying a job of the table at this stage. */
  predicate At(w: World, i: nat, stage: Stage) {
    && w.life.Up?
    && i < |w.workers|
    && w.workers[i].Carrying?
    && w.workers[i].stage == stage
    && w.workers[i].job in w.table.jobs
  }

  function Moved(w: World, i: nat, stage: Stage): World
    requires i < |w.workers| && w.workers[i].Carrying?
  {
    w.(workers := w.workers[i := Carrying(w.workers[i].job, stage)])
  }

  /** The worker lets go: the job leaves `active`. */
  function LetGo(w: World, i: nat): World
    requires i < |w.workers| && w.workers[i].Carrying?
  {
    w.(active := w.active - {w.workers[i].job}, workers := w.workers[i := Idle])
  }

  predicate CanPoll(w: World, i: nat, candidates: seq<JobId>) {
    w.life.Up? && i < |w.workers| && w.workers[i].Idle? && forall c <- candidates :: c in w.table.jobs
  }

  function DoPoll(w: World, i: nat, candidates: seq<JobId>, busy: map<Resource, JobId>): World
    requires CanPoll(w, i, candidates)
  {
    var (table, got) := ClaimScan(w.table, candidates, busy, w.clock);
    if got.None? then w.(table := table)
    else w.(table := table, active := w.active + {got.value}, workers := w.workers[i := Carrying(got.value, HasClaim)])
  }

  function DoAcquire(w: World, i: nat, lingers: bool): World
    requires At(w, i, HasClaim)
  {
    var id := w.workers[i].job;
    if !w.table.jobs[id].known then
      Moved(w.(table := WithStatus(w.table, id, Failed)), i, Unlocked)
    else
      var (table, outcome) := TryAcquire(w.table, id, w.clock);
      match outcome
      case Acquired => Moved(w.(table := Announced(table, id)), i, HasLocks)
      case Refused(blocker) =>
        var back := w.(table := HandedBack(table, id, blocker));
        if lingers then Moved(back, i, HandingBack) else LetGo(back, i)
  }

  function DoBegin(w: World, i: nat): World
    requires At(w, i, HasLocks)
  {
    Moved(w.(starts := w.starts + multiset{w.workers[i].job}), i, InHandler)
  }

  function DoHandOver(w: World, i: nat): World
    requires At(w, i, InHandler)
  {
    var id := w.workers[i].job;
    w.(table := WithStatus(w.table, id, Detached), handedOver := w.handedOver + {id})
  }

  /** None where the row is left alone: an interrupted job that was handed over. */
  function Verdict(status: Status, outcome: Outcome): Option<Status> {
    match outcome
    case Raised => Some(Failed)
    case Interrupted => if status.Detached? then None else Some(Cancelled)
    case Returned(succeeded, failed, cancelSeen) =>
      if cancelSeen then Some(Cancelled)
      else if failed > 0 then Some(if succeeded > 0 then PartiallySuccessful else Failed)
      else Some(Successful)
  }

  function DoReturn(w: World, i: nat, outcome: Outcome): World
    requires At(w, i, InHandler)
  {
    var id := w.workers[i].job;
    match Verdict(w.table.jobs[id].status, outcome)
    case None => Moved(w, i, Closing)
    case Some(status) => Moved(w.(table := WithStatus(w.table, id, status)), i, Closing)
  }

  function DoUnlock(w: World, i: nat): World
    requires At(w, i, Closing)
  {
    Moved(w.(table := Released(w.table, w.workers[i].job)), i, Unlocked)
  }

  /** An uncommitted claim is undone. */
  function Unclaimed(t: Table, ids: set<JobId>): Table {
    t.(jobs := map id | id in t.jobs ::
         if id in ids then t.jobs[id].(status := Queued, startedAt := None) else t.jobs[id])
  }

  /** An exception carries the worker out of its job.  The job's row stays as it is, save
      that a claim not yet committed may be rolled back.  Once the handler was entered the
      locks are freed on the way out, unless that raises as well. */
  function DoAbort(w: World, i: nat, rolledBack: bool, unlocks: bool): World
    requires i < |w.workers| && w.workers[i].Carrying?
  {
    var id, stage := w.workers[i].job, w.workers[i].stage;
    var undone := if rolledBack && stage.HasClaim? then {id} else {};
    var left := Unclaimed(w.table, undone);
    LetGo(w.(table := if unlocks && (stage.InHandler? || stage.Closing?) then Released(left, id) else left), i)
  }

  // --- Steps of the reaper and of the process ------------------------------

  function Claims(workers: seq<Worker>): set<JobId> {
    set i | 0 <= i < |workers| && workers[i].Carrying? && workers[i].stage.HasClaim? :: workers[i].job
  }

  function DoCrash(w: World, undone: set<JobId>): World {
    w.(table := Unclaimed(w.table, undone * Claims(w.workers)),
       active := {},
       workers := seq(|w.workers|, _ => Idle),
       reaper := Asleep,
       life := Down)
  }

  function DoSettle(w: World, exit: map<JobId, int>): World {
    w.(table := Settled(w.table, w.handedOver, exit), handedOver := {}, life := Recovering)
  }

  /** A step that is not enabled changes nothing.  The reaper's sweep over expired
      rows comes within one lease of its own list of carried jobs. */
  function Apply(w: World, a: Action): World {
    match a
    case Create(id, resources, known) =>
      if id in w.table.jobs then w else w.(table := Created(w.table, id, resources, known))
    case Cancel(id) =>
      if id in w.table.jobs then w.(table := CancelRequested(w.table, id)) else w
    case Pass(seconds) => w.(clock := w.clock + seconds)
    case Poll(i, candidates, busy) => if CanPoll(w, i, candidates) then DoPoll(w, i, candidates, busy) else w
    case Acquire(i, lingers) => if At(w, i, HasClaim) then DoAcquire(w, i, lingers) else w
    case Begin(i) => if At(w, i, HasLocks) then DoBegin(w, i) else w
    case HandOver(i) => if At(w, i, InHandler) then DoHandOver(w, i) else w
    case Return(i, outcome) => if At(w, i, InHandler) then DoReturn(w, i, outcome) else w
    case Unlock(i) => if At(w, i, Closing) then DoUnlock(w, i) else w
    case Forget(i) => if At(w, i, Unlocked) || At(w, i, HandingBack) then LetGo(w, i) else w
    case Abort(i, rolledBack, unlocks) =>
      if i < |w.workers| && w.workers[i].Carrying? then DoAbort(w, i, rolledBack, unlocks) else w
    case ListCarried =>
      if w.life.Up? && w.reaper.Asleep? then w.(reaper := Listed(w.active, w.clock)) else w
    case RenewCarried =>
      if w.reaper.Listed?
      then w.(table := Renewed(w.table, w.reaper.carried, w.clock), reaper := Renewing(w.reaper.carried, w.reaper.since))
      else w
    case ReapRows =>
      if w.reaper.Renewing? && w.clock < w.reaper.since + LOCK_LEASE
      then w.(table := Reaped(w.table, w.reaper.carried, w.clock), reaper := Sweeping)
      else w
    case EndAbandoned =>
      if w.reaper.Sweeping?
      then w.(table := OrphansEnded(w.table, w.active, Some(ORPHAN_GRACE), w.clock), reaper := Asleep)
      else w
    case ReaperFails => w.(reaper := Asleep)
    case Crash(undone) => DoCrash(w, undone)
    case Settle(exit) => if w.life.Down? then DoSettle(w, exit) else w
    case Recover =>
      if w.life.Recovering? then w.(table := OrphansEnded(w.table, {}, None, w.clock), life := Up) else w
  }

  /** The state after these actions, from an empty table and this many workers. */
  function Reach(workers: nat, actions: seq<Action>): World {
    if actions == [] then Init(workers)
    else Apply(Reach(workers, actions[..|actions| - 1]), actions[|actions| - 1])
  }

  // --- What every reachable state keeps ------------------------------------

  ghost predicate OwnsAll(t: Table, id: JobId)
    requires id in t.jobs
  {
    forall r <- t.jobs[id].resources :: r in t.locks && t.locks[r].job == id
  }

  ghost predicate OwnsNone(t: Table, id: JobId) {
    forall r <- t.locks :: t.locks[r].job != id
  }

  ghost predicate StageFits(w: World, id: JobId, stage: Stage)
    requires id in w.table.jobs
  {
    var status := w.table.jobs[id].status;
    match stage
    case HasClaim => status.Running? && OwnsNone(w.table, id) && w.starts[id] == 0
    case HasLocks => status.Running? && OwnsAll(w.table, id) && w.starts[id] == 0
    case InHandler => (status.Running? || status.Detached?) && OwnsAll(w.table, id) && w.starts[id] == 1
    case Closing => (status.Terminal() || status.Detached?) && w.starts[id] == 1
    case Unlocked => (status.Terminal() || status.Detached?) && OwnsNone(w.table, id)
    case HandingBack => (status.Queued? || status.Cancelled?) && OwnsNone(w.table, id) && w.starts[id] == 0
  }

  ghost predicate CarriedBy(w: World, id: JobId, i: int) {
    0 <= i < |w.workers| && w.workers[i].Carrying? && w.workers[i].job == id
  }

  /** `active` is exactly what the workers carry, each job by one worker. */
  ghost predicate Carriage(w: World) {
    && (forall i :: 0 <= i < |w.workers| && w.workers[i].Carrying? ==> w.workers[i].job in w.active)
    && (forall id <- w.active :: id in w.table.jobs && exists i :: CarriedBy(w, id, i))
    && (forall i, k :: 0 <= i < k < |w.workers| && w.workers[i].Carrying? && w.workers[k].Carrying? ==>
          w.workers[i].job != w.workers[k].job)
  }

  ghost predicate Stages(w: World)
    requires Carriage(w)
  {
    forall i :: 0 <= i < |w.workers| && w.workers[i].Carrying? ==> StageFits(w, w.workers[i].job, w.workers[i].stage)
  }

  ghost predicate JobFits(w: World, id: JobId)
    requires id in w.table.jobs
  {
    var job := w.table.jobs[id];
    && (job.status.Queued? ==> OwnsNone(w.table, id) && w.starts[id] == 0)
    && (job.status.Running? ==> job.startedAt.Some?)
    && (job.status.Detached? ==> id in w.handedOver)
    && w.starts[id] <= 1
  }

  ghost predicate Rows(w: World) {
    && (forall id <- w.table.jobs :: JobFits(w, id))
    && (forall r <- w.table.locks :: w.table.locks[r].job in w.table.jobs)
    && (forall id <- w.starts :: id in w.table.jobs)
  }

  /** A lock the reaper has not listed as carried will outlast this pass. */
  ghost predicate Leases(w: World) {
    w.reaper.Listed? || w.reaper.Renewing? ==>
      && w.reaper.since <= w.clock
      && forall r <- w.table.locks ::
        w.table.locks[r].job in w.active && w.table.locks[r].job !in w.reaper.carried ==>
          w.table.locks[r].expires >= w.reaper.since + LOCK_LEASE
  }

  ghost predicate Resting(w: World) {
    && (!w.life.Up? ==> w.active == {} && w.reaper.Asleep? && forall i :: 0 <= i < |w.workers| ==> w.workers[i].Idle?)
    && (w.life.Recovering? ==> forall id <- w.table.jobs :: !w.table.jobs[id].status.Detached?)
  }

  ghost predicate Inv(w: World) {
    Carriage(w) && Stages(w) && Rows(w) && Leases(w) && Resting(w)
  }
}
