/** The job table and the lock table, and what each service call does to them.

    A job is a row keyed by its identifier, and identifiers sort by age.  A lock is
    a row keyed by the resource it guards, which is the unique constraint on
    (resource type, resource id): a resource has at most one row, live or expired.
    Every function here is the effect of one committed service call; the class
    in JobService.dfy computes the same effects with the loops of the source. */
module JobTable {
  import opened Prelude

  const LOCK_LEASE := 1800
  const CLAIM_CANDIDATES := 20
  const ORPHAN_GRACE := 90

  type JobId = nat

  datatype Resource = Resource(kind: string, id: string)

  datatype Status =
    | Queued
    | Running
    | Detached
    | Successful
    | Failed
    | Cancelled
    | PartiallySuccessful
  {
    predicate Terminal() {
      Successful? || Failed? || Cancelled? || PartiallySuccessful?
    }
  }

  /** What a queued job is recorded as waiting for.  `LostRace` is the identifier
      the source writes when an insert collides and nobody can be named. */
  datatype Blocker = NotBlocked | BlockedBy(job: JobId) | LostRace

  /** `known` says whether a handler is registered for the job's type. */
  datatype Job = Job(
    status: Status,
    resources: seq<Resource>,
    known: bool,
    startedAt: Option<int>,
    cancelRequested: bool,
    blocker: Blocker)

  datatype Lock = Lock(job: JobId, expires: int)

  datatype Table = Table(jobs: map<JobId, Job>, locks: map<Resource, Lock>)

  // --- Creating and cancelling ---------------------------------------------

  function NewJob(resources: seq<Resource>, known: bool): Job {
    Job(Queued, resources, known, None, false, NotBlocked)
  }

  function Created(t: Table, id: JobId, resources: seq<Resource>, known: bool): Table {
    t.(jobs := t.jobs[id := NewJob(resources, known)])
  }

  function WithStatus(t: Table, id: JobId, status: Status): Table
    requires id in t.jobs
  {
    t.(jobs := t.jobs[id := t.jobs[id].(status := status)])
  }

  /** A finished job refuses, a queued one is cancelled at once, any other is asked. */
  function CancelRequested(t: Table, id: JobId): Table
    requires id in t.jobs
  {
    var job := t.jobs[id];
    if job.status.Terminal() then t
    else if job.status.Queued? then WithStatus(t, id, Cancelled)
    else t.(jobs := t.jobs[id := job.(cancelRequested := true)])
  }

  // --- Claiming ------------------------------------------------------------

  /** The resources under a live lease, with the job holding each. */
  function Busy(locks: map<Resource, Lock>, now: int): map<Resource, JobId> {
    map r | r in locks && locks[r].expires > now :: locks[r].job
  }

  /** The first job standing in the way, in the order the resources were declared. */
  function Blocking(id: JobId, resources: seq<Resource>, busy: map<Resource, JobId>): Option<JobId> {
    if resources == [] then None
    else if resources[0] in busy && busy[resources[0]] != id then Some(busy[resources[0]])
    else Blocking(id, resources[1..], busy)
  }

  /** A poll meets the candidate and finds a live lock of another job in its way. */
  predicate Blocked(t: Table, id: JobId, busy: map<Resource, JobId>)
    requires id in t.jobs
  {
    Blocking(id, t.jobs[id].resources, busy).Some?
  }

  /** Writes the reason only where it changed. */
  function BlockNoted(t: Table, id: JobId, holder: JobId): Table
    requires id in t.jobs
  {
    t.(jobs := t.jobs[id := t.jobs[id].(blocker := BlockedBy(holder))])
  }

  function Claimed(t: Table, id: JobId, now: int): Table
    requires id in t.jobs
  {
    t.(jobs := t.jobs[id := t.jobs[id].(status := Running, startedAt := Some(now))])
  }

  /** The claim loop over candidate identifiers read earlier: note what blocks the
      blocked ones, pass over those that are queued no longer, take the first other. */
  function ClaimScan(t: Table, candidates: seq<JobId>, busy: map<Resource, JobId>, now: int): (Table, Option<JobId>)
    requires forall c <- candidates :: c in t.jobs
    decreases |candidates|
  {
    if candidates == [] then (t, None)
    else
      var id := candidates[0];
      match Blocking(id, t.jobs[id].resources, busy)
      case Some(holder) =>
        ClaimScan(BlockNoted(t, id, holder), candidates[1..], busy, now)
      case None =>
        if t.jobs[id].status.Queued? then (Claimed(t, id, now), Some(id))
        else ClaimScan(t, candidates[1..], busy, now)
  }

  // --- The queue in order of age -------------------------------------------

  ghost predicate Ascending(s: seq<JobId>) {
    forall i, j :: 0 <= i < j < |s| ==> s[i] < s[j]
  }

  function Queue(jobs: map<JobId, Job>): set<JobId> {
    set id | id in jobs && jobs[id].status.Queued?
  }

  /** `ids` is what the query returns: the oldest queued jobs, oldest first, at most
      the first twenty. */
  ghost predicate OldestQueued(jobs: map<JobId, Job>, ids: seq<JobId>) {
    && Ascending(ids)
    && |ids| <= CLAIM_CANDIDATES
    && (forall c <- ids :: c in Queue(jobs))
    && (forall q <- Queue(jobs) :: q in ids || (|ids| == CLAIM_CANDIDATES && forall c <- ids :: c < q))
  }

  // --- Locks ---------------------------------------------------------------

  datatype Acquisition = Acquired | Refused(blocker: Blocker)

  /** Inserts one row per resource; None where a row is there already. */
  function InsertAll(locks: map<Resource, Lock>, resources: seq<Resource>, row: Lock): Option<map<Resource, Lock>>
    decreases |resources|
  {
    if resources == [] then Some(locks)
    else if resources[0] in locks then None
    else InsertAll(locks[resources[0] := row], resources[1..], row)
  }

  /** All of the declared resources, or none of them.  A live lock of another job is
      named; an expired row is not looked at but still collides on insert. */
  function TryAcquire(t: Table, id: JobId, now: int): (Table, Acquisition)
    requires id in t.jobs
  {
    var resources := t.jobs[id].resources;
    match Blocking(id, resources, Busy(t.locks, now))
    case Some(holder) => (t, Refused(BlockedBy(holder)))
    case None =>
      match InsertAll(t.locks, resources, Lock(id, now + LOCK_LEASE))
      case Some(locks) => (t.(locks := locks), Acquired)
      case None => (t, Refused(LostRace))
  }

  function Released(t: Table, id: JobId): Table {
    t.(locks := map r | r in t.locks && t.locks[r].job != id :: t.locks[r])
  }

  function Renewed(t: Table, ids: set<JobId>, now: int): Table {
    t.(locks := map r | r in t.locks ::
         if t.locks[r].job in ids then t.locks[r].(expires := now + LOCK_LEASE) else t.locks[r])
  }

  function Reaped(t: Table, keep: set<JobId>, now: int): Table {
    t.(locks := map r | r in t.locks && (t.locks[r].expires > now || t.locks[r].job in keep) :: t.locks[r])
  }

  // --- State transitions ---------------------------------------------------

  function Announced(t: Table, id: JobId): Table
    requires id in t.jobs
  {
    t.(jobs := t.jobs[id := t.jobs[id].(blocker := NotBlocked)])
  }

  function HandedBack(t: Table, id: JobId, blocker: Blocker): Table
    requires id in t.jobs
  {
    t.(jobs := t.jobs[id := t.jobs[id].(status := Queued, startedAt := None, blocker := blocker)])
  }

  // --- What nobody is carrying ---------------------------------------------

  /** The running rows an abandoned-jobs pass reads: all of them at start-up, those
      started more than the grace period ago otherwise. */
  function Suspects(t: Table, grace: Option<int>, now: int): set<JobId> {
    set id |
      && id in t.jobs
      && t.jobs[id].status.Running?
      && (grace.Some? ==> t.jobs[id].startedAt.Some? && t.jobs[id].startedAt.value < now - grace.value)
  }

  /** Those of them no worker of this process is carrying. */
  function Orphans(t: Table, active: set<JobId>, grace: Option<int>, now: int): set<JobId> {
    Suspects(t, grace, now) - active
  }

  function OrphanVerdict(job: Job): Status {
    if job.cancelRequested then Cancelled else Failed
  }

  /** These jobs get their verdict and lose their locks. */
  function Ended(t: Table, ids: set<JobId>): Table {
    Table(
      map id | id in t.jobs :: if id in ids then t.jobs[id].(status := OrphanVerdict(t.jobs[id])) else t.jobs[id],
      map r | r in t.locks && t.locks[r].job !in ids :: t.locks[r])
  }

  function OrphansEnded(t: Table, active: set<JobId>, grace: Option<int>, now: int): Table {
    Ended(t, Orphans(t, active, grace, now))
  }

  /** The verdict on an update that outlived its process: None where the container
      could not be asked. */
  function ExitVerdict(exit: Option<int>): Status {
    if exit == Some(0) then Successful else Failed
  }

  /** A handed-over job still waiting for its verdict. */
  predicate Unsettled(t: Table, id: JobId, handedOver: set<JobId>) {
    id in handedOver && id in t.jobs && !t.jobs[id].status.Terminal()
  }

  function Settled(t: Table, handedOver: set<JobId>, exit: map<JobId, int>): Table {
    Table(
      map id | id in t.jobs ::
        if Unsettled(t, id, handedOver)
        then t.jobs[id].(status := ExitVerdict(if id in exit then Some(exit[id]) else None))
        else t.jobs[id],
      map r | r in t.locks && !Unsettled(t, t.locks[r].job, handedOver) :: t.locks[r])
  }
}
