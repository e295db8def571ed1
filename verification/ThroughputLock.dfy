/** The throughput sensors on one probe: processes that share one advisory lock and keep
    their results in per-configuration caches. */
module ThroughputLock {
  import opened Prelude

  type Pid = nat
  type Path = string

  /** A process between two of its system calls.  `stamp` is the moment the measurement
      writes into its result: one sensor takes it when it starts, the other when it ends. */
  datatype Phase =
    | Started
    | WantsLock
    | Rechecking
    | Measuring(stamp: Option<real>)
    | Measured(at: real)
    | Leaving

  datatype Process = Process(path: Path, minimumAge: real, phase: Phase, locked: bool)

  /** A result that reached the cache, with the minimum age of the run that stored it. */
  datatype Stored = Stored(at: real, minimumAge: real)

  datatype World = World(
    clock: real,
    holder: Option<Pid>,
    cache: map<Path, real>,
    running: map<Pid, Process>,
    history: map<Path, seq<Stored>>)

  const START := World(0.0, None, map[], map[], map[])

  datatype Action =
    | Tick(seconds: real)
    | Launch(pid: Pid, path: Path, minimumAge: real)
    | FirstCheck(pid: Pid)
    | TryLock(pid: Pid, opens: bool)
    | SecondCheck(pid: Pid)
    | TakeStamp(pid: Pid)
    | Finish(pid: Pid)
    | Fail(pid: Pid)
    | WriteCache(pid: Pid, succeeds: bool)
    | Leave(pid: Pid)
    | Kill(pid: Pid)

  /** The cached result is one this run may show instead of measuring. */
  predicate Hit(w: World, p: Process) {
    && p.minimumAge > 0.0
    && p.path in w.cache
    && 0.0 <= w.clock - w.cache[p.path] <= p.minimumAge
  }

  function Goes(w: World, pid: Pid, phase: Phase): World
    requires pid in w.running
  {
    w.(running := w.running[pid := w.running[pid].(phase := phase)])
  }

  /** The process is gone, and the kernel drops its lock with it. */
  function Gone(w: World, pid: Pid): World
    requires pid in w.running
  {
    w.(running := map p | p in w.running && p != pid :: w.running[p],
       holder := if w.holder == Some(pid) then None else w.holder)
  }

  /** An action that is not possible in this world changes nothing. */
  function Apply(w: World, a: Action): World {
    match a
    case Tick(seconds) => if seconds >= 0.0 then w.(clock := w.clock + seconds) else w
    case Launch(pid, path, minimumAge) =>
      if pid in w.running || minimumAge < 0.0 then w
      else w.(running := w.running[pid := Process(path, minimumAge, Started, false)])
    case Kill(pid) => if pid in w.running then Gone(w, pid) else w
    case _ => if a.pid in w.running then Proceed(w, a, w.running[a.pid]) else w
  }

  function Proceed(w: World, a: Action, p: Process): World
    requires !a.Tick? && !a.Launch? && !a.Kill? && a.pid in w.running && w.running[a.pid] == p
  {
    match a
    case FirstCheck(pid) =>
      if !p.phase.Started? then w else if Hit(w, p) then Gone(w, pid) else Goes(w, pid, WantsLock)
    case TryLock(pid, opens) =>
      if !p.phase.WantsLock? then w
      // The lock file cannot be opened: the run goes on without a lock.
      else if !opens then Goes(w, pid, Rechecking)
      // Somebody else measures: an older result, or a busy answer.
      else if w.holder.Some? then Gone(w, pid)
      else w.(holder := Some(pid), running := w.running[pid := p.(phase := Rechecking, locked := true)])
    case SecondCheck(pid) =>
      if !p.phase.Rechecking? then w else if Hit(w, p) then Goes(w, pid, Leaving) else Goes(w, pid, Measuring(None))
    case TakeStamp(pid) =>
      if p.phase == Measuring(None) then Goes(w, pid, Measuring(Some(w.clock))) else w
    case Finish(pid) =>
      if p.phase.Measuring? && p.phase.stamp.Some? then Goes(w, pid, Measured(p.phase.stamp.value)) else w
    case Fail(pid) =>
      if p.phase.Measuring? then Goes(w, pid, Leaving) else w
    case WriteCache(pid, succeeds) =>
      if !p.phase.Measured? then w
      else if !succeeds then Goes(w, pid, Leaving)
      else Goes(w, pid, Leaving).(cache := w.cache[p.path := p.phase.at],
                                  history := w.history[p.path := Results(w, p.path) + [Stored(p.phase.at, p.minimumAge)]])
    case Leave(pid) =>
      if p.phase.Leaving? then Gone(w, pid) else w
  }

  function Results(w: World, path: Path): seq<Stored> {
    if path in w.history then w.history[path] else []
  }

  function Reach(actions: seq<Action>): World {
    if actions == [] then START else Apply(Reach(actions[..|actions| - 1]), actions[|actions| - 1])
  }

  // --- What a run does with a cached result --------------------------------

  /** A result of this configuration is there, taken no longer ago than this run accepts,
      and not in its future. */
  predicate Fresh(w: World, p: Process) {
    p.path in w.cache && w.cache[p.path] <= w.clock <= w.cache[p.path] + p.minimumAge
  }

  /** Before it asks for the lock a run ends with the cached result exactly where it has a
      minimum age and the result is fresh; once it may measure it does so exactly where
      there still is none. */
  lemma MeasuresExactlyWithoutAFreshResult(w: World, pid: Pid)
    requires pid in w.running
    ensures w.running[pid].phase.Started? ==>
      if w.running[pid].minimumAge > 0.0 && Fresh(w, w.running[pid]) then pid !in Apply(w, FirstCheck(pid)).running
      else pid in Apply(w, FirstCheck(pid)).running && Apply(w, FirstCheck(pid)).running[pid].phase.WantsLock?
    ensures w.running[pid].phase.Rechecking? ==>
      && pid in Apply(w, SecondCheck(pid)).running
      && (IsMeasuring(Apply(w, SecondCheck(pid)), pid) <==> !(w.running[pid].minimumAge > 0.0 && Fresh(w, w.running[pid])))
  {
  }

  /** A measurement that failed ends the run with its lock; one that succeeded is stored
      under its own stamp, which it took of the clock, where the file can be written, and
      then the run ends as well. */
  lemma EndsExactly(w: World, pid: Pid, succeeds: bool)
    requires pid in w.running
    ensures var p := w.running[pid];
      && (p.phase.Measuring? ==> Apply(w, Fail(pid)) == w.(running := w.running[pid := p.(phase := Leaving)]))
      && (p.phase == Measuring(None) ==>
            Apply(w, TakeStamp(pid)) == w.(running := w.running[pid := p.(phase := Measuring(Some(w.clock)))]))
      && (p.phase.Measuring? && p.phase.stamp.Some? ==>
            Apply(w, Finish(pid)) == w.(running := w.running[pid := p.(phase := Measured(p.phase.stamp.value))]))
      && (p.phase.Measured? ==>
            var w' := Apply(w, WriteCache(pid, succeeds));
            && w'.running == w.running[pid := p.(phase := Leaving)] && w'.holder == w.holder && w'.clock == w.clock
            && (succeeds ==> w'.cache == w.cache[p.path := p.phase.at])
            && (!succeeds ==> w'.cache == w.cache && w'.history == w.history))
      && (p.phase.Leaving? ==> pid !in Apply(w, Leave(pid)).running && Apply(w, Leave(pid)).holder != Some(pid))
      && pid !in Apply(w, Kill(pid)).running && Apply(w, Kill(pid)).holder != Some(pid)
  {
  }

  /** A step that is not this run's next one does not happen. */
  lemma OutOfTurnChangesNothing(w: World, pid: Pid, opens: bool)
    requires pid in w.running
    ensures var phase := w.running[pid].phase;
      && (!phase.Started? ==> Apply(w, FirstCheck(pid)) == w)
      && (!phase.WantsLock? ==> Apply(w, TryLock(pid, opens)) == w)
      && (!phase.Rechecking? ==> Apply(w, SecondCheck(pid)) == w)
      && (phase != Measuring(None) ==> Apply(w, TakeStamp(pid)) == w)
      && (!phase.Measuring? ==> Apply(w, Finish(pid)) == w && Apply(w, Fail(pid)) == w)
      && (phase == Measuring(None) ==> Apply(w, Finish(pid)) == w)
      && (!phase.Measured? ==> Apply(w, WriteCache(pid, opens)) == w)
      && (!phase.Leaving? ==> Apply(w, Leave(pid)) == w)
  {
  }

  /** A run begins without the lock, whatever else is running; and time passes. */
  lemma BeginsExactly(w: World, pid: Pid, path: Path, minimumAge: real, seconds: real)
    requires pid !in w.running && minimumAge >= 0.0 && seconds >= 0.0
    ensures Apply(w, Launch(pid, path, minimumAge)) ==
      w.(running := w.running[pid := Process(path, minimumAge, Started, false)])
    ensures Apply(w, Tick(seconds)).clock - w.clock == seconds
    ensures Apply(w, Tick(seconds)) == w.(clock := Apply(w, Tick(seconds)).clock)
  {
  }

  // --- The lock ------------------------------------------------------------

  /** The lock is held by exactly the process that believes to hold it. */
  ghost predicate LockIsTrue(w: World) {
    && (w.holder.Some? ==> w.holder.value in w.running && w.running[w.holder.value].locked)
    && (forall p :: p in w.running && w.running[p].locked ==> w.holder == Some(p))
    && (forall p :: p in w.running && w.running[p].locked ==> !w.running[p].phase.Started? && !w.running[p].phase.WantsLock?)
  }

  predicate IsMeasuring(w: World, pid: Pid) {
    pid in w.running && w.running[pid].phase.Measuring?
  }

  /** Asking for the lock ends a run exactly where another process holds it; a free lock is
      taken, and a file that does not open lets the run go on without. */
  lemma LockTakenExactly(w: World, pid: Pid, opens: bool)
    requires LockIsTrue(w) && pid in w.running && w.running[pid].phase.WantsLock?
    ensures var w' := Apply(w, TryLock(pid, opens));
      && (pid !in w'.running <==> opens && w.holder.Some?)
      && (pid in w'.running ==> w'.running[pid].phase.Rechecking? && (w'.running[pid].locked <==> opens))
      && (w'.holder != w.holder <==> opens && w.holder.None?)
      && (w'.holder != w.holder ==> w'.holder == Some(pid))
  {
  }

  lemma LockStays(w: World, a: Action)
    requires LockIsTrue(w)
    ensures LockIsTrue(Apply(w, a))
  {
  }

  lemma {:induction false} LockAlways(actions: seq<Action>)
    ensures LockIsTrue(Reach(actions))
  {
    if actions != [] {
      LockAlways(actions[..|actions| - 1]);
      LockStays(Reach(actions[..|actions| - 1]), actions[|actions| - 1]);
    }
  }

  /** At most one process that got the lock measures; whoever overlaps with it runs
      without the lock, and only because the lock file could not be opened. */
  lemma OneMeasuresAtATime(actions: seq<Action>, p: Pid, q: Pid)
    requires p != q && IsMeasuring(Reach(actions), p) && IsMeasuring(Reach(actions), q)
    ensures !(Reach(actions).running[p].locked && Reach(actions).running[q].locked)
    ensures exists i :: 0 <= i < |actions| && actions[i].TryLock? && !actions[i].opens && actions[i].pid in {p, q}
  {
    LockAlways(actions);
    UnlockedWasRefused(actions, if Reach(actions).running[p].locked then q else p);
  }

  /** A process gets past the lock without it only where the file did not open. */
  lemma {:induction false} UnlockedWasRefused(actions: seq<Action>, pid: Pid)
    requires pid in Reach(actions).running && !Reach(actions).running[pid].locked
    requires !Reach(actions).running[pid].phase.Started? && !Reach(actions).running[pid].phase.WantsLock?
    ensures exists i :: 0 <= i < |actions| && actions[i].TryLock? && !actions[i].opens && actions[i].pid == pid
  {
    var before, last := actions[..|actions| - 1], actions[|actions| - 1];
    var w := Reach(before);
    if last.TryLock? && last.pid == pid && !last.opens {
      assert actions[|actions| - 1] == last;
    } else {
      PastTheLock(w, last, pid);
      UnlockedWasRefused(before, pid);
      var i :| 0 <= i < |before| && before[i].TryLock? && !before[i].opens && before[i].pid == pid;
      assert actions[i] == before[i];
    }
  }

  lemma PastTheLock(w: World, a: Action, pid: Pid)
    requires !(a.TryLock? && a.pid == pid && !a.opens)
    requires pid in Apply(w, a).running && !Apply(w, a).running[pid].locked
    requires !Apply(w, a).running[pid].phase.Started? && !Apply(w, a).running[pid].phase.WantsLock?
    ensures pid in w.running && !w.running[pid].locked
    ensures !w.running[pid].phase.Started? && !w.running[pid].phase.WantsLock?
  {
  }

  // --- The gap between results ---------------------------------------------

  /** Far enough after the stored result for a run of this minimum age. */
  predicate Apart(earlier: real, later: real, minimumAge: real) {
    earlier <= later && (minimumAge > 0.0 ==> later - earlier > minimumAge)
  }

  /** What the process has measured, or is about to, is far enough after the cache. */
  ghost predicate FarEnough(w: World, p: Process) {
    p.path in w.cache ==>
      match p.phase
      case Measuring(stamp) =>
        (stamp.None? ==> Apart(w.cache[p.path], w.clock, p.minimumAge))
        && (stamp.Some? ==> Apart(w.cache[p.path], stamp.value, p.minimumAge))
      case Measured(at) => Apart(w.cache[p.path], at, p.minimumAge)
      case _ => true
  }

  predicate StampIsPast(w: World, p: Process) {
    && (p.phase.Measuring? && p.phase.stamp.Some? ==> p.phase.stamp.value <= w.clock)
    && (p.phase.Measured? ==> p.phase.at <= w.clock)
    && p.minimumAge >= 0.0
  }

  ghost predicate StampsArePast(w: World) {
    && (forall p :: p in w.running ==> StampIsPast(w, w.running[p]))
    && (forall path :: path in w.cache ==> w.cache[path] <= w.clock)
  }

  ghost predicate CacheIsLast(w: World) {
    forall path :: path in w.cache <==> Results(w, path) != []
  }

  ghost predicate CacheHoldsLast(w: World) {
    forall path :: path in w.cache && Results(w, path) != [] ==> w.cache[path] == Results(w, path)[|Results(w, path)| - 1].at
  }

  ghost predicate GapsHold(results: seq<Stored>) {
    forall i :: 0 <= i && i + 1 < |results| ==> Apart(results[i].at, results[i + 1].at, results[i + 1].minimumAge)
  }

  /** For one configuration: what its processes with the lock have measured, or are about
      to, is far enough after its cache, and so are its results from each other. */
  ghost predicate Inv(w: World, path: Path) {
    && LockIsTrue(w)
    && StampsArePast(w)
    && CacheIsLast(w)
    && CacheHoldsLast(w)
    && (forall p :: p in w.running && w.running[p].locked && w.running[p].path == path ==> FarEnough(w, w.running[p]))
    && GapsHold(Results(w, path))
  }

  /** This step stores a result of the configuration without holding the lock. */
  predicate StoresUnlocked(w: World, a: Action, path: Path) {
    && a.WriteCache?
    && a.succeeds
    && a.pid in w.running
    && w.running[a.pid].path == path
    && w.running[a.pid].phase.Measured?
    && !w.running[a.pid].locked
  }

  /** A process moves only by its own steps. */
  lemma OnlyItself(w: World, a: Action, pid: Pid)
    requires a.Tick? || a.pid != pid
    ensures pid in Apply(w, a).running <==> pid in w.running
    ensures pid in w.running ==> Apply(w, a).running[pid] == w.running[pid]
  {
  }

  lemma OnlyWritesTouchTheCache(w: World, a: Action)
    ensures Apply(w, a).clock >= w.clock
    ensures !a.Tick? ==> Apply(w, a).clock == w.clock
    ensures !a.WriteCache? ==> Apply(w, a).cache == w.cache && Apply(w, a).history == w.history
  {
  }

  lemma WriteAppends(w: World, pid: Pid, succeeds: bool)
    requires pid in w.running
    ensures var p, next := w.running[pid], Apply(w, WriteCache(pid, succeeds));
            if p.phase.Measured? && succeeds then
              && next.cache == w.cache[p.path := p.phase.at]
              && next.history == w.history[p.path := Results(w, p.path) + [Stored(p.phase.at, p.minimumAge)]]
            else next.cache == w.cache && next.history == w.history
  {
  }

  lemma OwnStepKeepsStamp(w: World, a: Action, pid: Pid)
    requires !a.Tick? && a.pid == pid && pid in Apply(w, a).running
    requires pid in w.running ==> StampIsPast(w, w.running[pid])
    ensures StampIsPast(Apply(w, a), Apply(w, a).running[pid])
  {
  }

  lemma StepKeepsStamps(w: World, a: Action)
    requires StampsArePast(w)
    ensures StampsArePast(Apply(w, a))
  {
    OnlyWritesTouchTheCache(w, a);
    forall pid | pid in Apply(w, a).running ensures StampIsPast(Apply(w, a), Apply(w, a).running[pid]) {
      if !a.Tick? && a.pid == pid {
        OwnStepKeepsStamp(w, a, pid);
      } else {
        OnlyItself(w, a, pid);
      }
    }
    if a.WriteCache? && a.pid in w.running {
      WriteAppends(w, a.pid, a.succeeds);
    } else {
      assert Apply(w, a).cache == w.cache;
    }
  }

  lemma StepKeepsCache(w: World, a: Action)
    requires CacheIsLast(w) && CacheHoldsLast(w)
    ensures CacheIsLast(Apply(w, a)) && CacheHoldsLast(Apply(w, a))
  {
    var next := Apply(w, a);
    OnlyWritesTouchTheCache(w, a);
    if a.WriteCache? && a.pid in w.running {
      WriteAppends(w, a.pid, a.succeeds);
      hide Apply;
      var path := w.running[a.pid].path;
      forall other | other != path ensures Results(next, other) == Results(w, other) {}
    } else {
      assert next.cache == w.cache && next.history == w.history;
      hide Apply;
      forall path ensures Results(next, path) == Results(w, path) {}
    }
  }

  lemma OthersStayFarEnough(w: World, a: Action, path: Path, pid: Pid)
    requires Inv(w, path) && !StoresUnlocked(w, a, path) && (a.Tick? || a.pid != pid)
    requires pid in Apply(w, a).running && Apply(w, a).running[pid].locked && Apply(w, a).running[pid].path == path
    ensures FarEnough(Apply(w, a), Apply(w, a).running[pid])
  {
    OnlyItself(w, a, pid);
    OnlyWritesTouchTheCache(w, a);
    assert FarEnough(w, w.running[pid]);
    if a.WriteCache? && a.pid in w.running {
      WriteAppends(w, a.pid, a.succeeds);
      assert w.running[a.pid].locked ==> w.holder == Some(a.pid);
    }
  }

  lemma StaysFarEnough(w: World, a: Action, path: Path, pid: Pid)
    requires Inv(w, path) && !a.Tick? && a.pid == pid
    requires pid in Apply(w, a).running && Apply(w, a).running[pid].locked && Apply(w, a).running[pid].path == path
    ensures FarEnough(Apply(w, a), Apply(w, a).running[pid])
  {
    OnlyWritesTouchTheCache(w, a);
    if pid in w.running {
      assert w.running[pid].locked ==> FarEnough(w, w.running[pid]);
      assert w.running[pid].minimumAge >= 0.0;
    }
  }

  lemma StepKeepsGaps(w: World, a: Action, path: Path)
    requires Inv(w, path) && !StoresUnlocked(w, a, path)
    ensures GapsHold(Results(Apply(w, a), path))
  {
    if a.WriteCache? && a.pid in w.running && w.running[a.pid].phase.Measured? && a.succeeds {
      var p := w.running[a.pid];
      WriteAppends(w, a.pid, a.succeeds);
      hide Apply;
      if p.path == path {
        var before := Results(w, path);
        assert FarEnough(w, p);
        assert path in w.cache <==> before != [];
        var after := before + [Stored(p.phase.at, p.minimumAge)];
        forall i | 0 <= i && i + 1 < |after| ensures Apart(after[i].at, after[i + 1].at, after[i + 1].minimumAge) {
        }
      }
    } else {
      assert Apply(w, a).history == w.history;
      hide Apply;
    }
  }

  /** One invariant, kept by every step that does not store without the lock. */
  lemma StepKeeps(w: World, a: Action, path: Path)
    requires Inv(w, path) && !StoresUnlocked(w, a, path)
    ensures Inv(Apply(w, a), path)
  {
    LockStays(w, a);
    StepKeepsStamps(w, a);
    StepKeepsCache(w, a);
    StepKeepsGaps(w, a, path);
    forall pid | pid in Apply(w, a).running && Apply(w, a).running[pid].locked && Apply(w, a).running[pid].path == path
      ensures FarEnough(Apply(w, a), Apply(w, a).running[pid])
    {
      if a.Tick? || a.pid != pid {
        OthersStayFarEnough(w, a, path, pid);
      } else {
        StaysFarEnough(w, a, path, pid);
      }
    }
  }

  /** Every result of this configuration was stored by a process that held the lock. */
  ghost predicate StoredUnderLock(actions: seq<Action>, path: Path) {
    forall k :: 0 <= k < |actions| ==> !StoresUnlocked(Reach(actions[..k]), actions[k], path)
  }

  lemma {:induction false} ReachKeeps(actions: seq<Action>, path: Path)
    requires StoredUnderLock(actions, path)
    ensures Inv(Reach(actions), path)
  {
    if actions != [] {
      var before, last := actions[..|actions| - 1], actions[|actions| - 1];
      forall k | 0 <= k < |before| ensures !StoresUnlocked(Reach(before[..k]), before[k], path) {
        assert before[..k] == actions[..k] && before[k] == actions[k];
      }
      ReachKeeps(before, path);
      StepKeeps(Reach(before), last, path);
    }
  }

  /** Consecutive results of one configuration are further apart than the minimum age of
      the later run, whatever is killed, fails or is not written on the way, and whatever
      the other sensors do without the lock. */
  lemma ResultsAreApart(actions: seq<Action>, path: Path, i: nat)
    requires StoredUnderLock(actions, path)
    requires i + 1 < |Results(Reach(actions), path)|
    ensures var results := Results(Reach(actions), path);
            && results[i].at <= results[i + 1].at
            && (results[i + 1].minimumAge > 0.0 ==> results[i + 1].at - results[i].at > results[i + 1].minimumAge)
  {
    ReachKeeps(actions, path);
  }

  ghost predicate LockAlwaysOpens(actions: seq<Action>) {
    forall i :: 0 <= i < |actions| && actions[i].TryLock? ==> actions[i].opens
  }

  lemma AlwaysOpenIsLocked(actions: seq<Action>, pid: Pid)
    requires forall i :: 0 <= i < |actions| && actions[i].TryLock? ==> actions[i].opens
    requires pid in Reach(actions).running && Reach(actions).running[pid].phase.Measured?
    ensures Reach(actions).running[pid].locked
  {
    if !Reach(actions).running[pid].locked {
      UnlockedWasRefused(actions, pid);
    }
  }

  /** Where the lock file always opens nothing is stored without the lock. */
  lemma OpenMeansLocked(actions: seq<Action>, path: Path)
    requires LockAlwaysOpens(actions)
    ensures StoredUnderLock(actions, path)
  {
    forall k | 0 <= k < |actions| ensures !StoresUnlocked(Reach(actions[..k]), actions[k], path) {
      var w := Reach(actions[..k]);
      if actions[k].WriteCache? && actions[k].pid in w.running && w.running[actions[k].pid].phase.Measured? {
        AlwaysOpenIsLocked(actions[..k], actions[k].pid);
      }
    }
  }

  // --- Exactly where the lock opens ----------------------------------------

  /** A run of these processes, of which exactly those in `able` can open the lock file. */
  ghost predicate RunOf(actions: seq<Action>, pids: set<Pid>, able: set<Pid>) {
    forall i :: 0 <= i < |actions| && !actions[i].Tick? ==>
      actions[i].pid in pids && (actions[i].TryLock? ==> (actions[i].opens <==> actions[i].pid in able))
  }

  ghost predicate OneMeasures(w: World) {
    forall p, q :: p != q && IsMeasuring(w, p) ==> !IsMeasuring(w, q)
  }

  ghost predicate AllApart(w: World) {
    forall path :: GapsHold(Results(w, path))
  }

  /** Of two or more processes, one measures at a time in every run exactly if all of them
      can open the lock file; and exactly then results are apart in every run. */
  lemma ExactlyWhereTheLockOpens(pids: set<Pid>, able: set<Pid>)
    requires |pids| >= 2
    ensures (forall actions :: RunOf(actions, pids, able) ==> OneMeasures(Reach(actions))) <==> pids <= able
    ensures (forall actions :: RunOf(actions, pids, able) ==> AllApart(Reach(actions))) <==> pids <= able
  {
    if pids <= able {
      forall actions | RunOf(actions, pids, able) ensures OneMeasures(Reach(actions)) && AllApart(Reach(actions)) {
        AllAbleIsEnough(actions, pids, able);
      }
    } else {
      var p :| p in pids && p !in able;
      var q := Another(pids, p);
      var measuring, stored := WithoutTheLockNothingHolds(pids, able, p, q);
      assert !OneMeasures(Reach(measuring)) && !AllApart(Reach(stored));
    }
  }

  lemma Another(pids: set<Pid>, p: Pid) returns (q: Pid)
    requires |pids| >= 2 && p in pids
    ensures q in pids && q != p
  {
    var rest := pids - {p};
    assert pids == rest + {p};
    assert rest != {};
    q :| q in rest;
  }

  lemma AllAbleIsEnough(actions: seq<Action>, pids: set<Pid>, able: set<Pid>)
    requires RunOf(actions, pids, able) && pids <= able
    ensures OneMeasures(Reach(actions)) && AllApart(Reach(actions))
  {
    assert LockAlwaysOpens(actions);
    forall p, q | p != q && IsMeasuring(Reach(actions), p) ensures !IsMeasuring(Reach(actions), q) {
      if IsMeasuring(Reach(actions), q) {
        OneMeasuresAtATime(actions, p, q);
        assert false;
      }
    }
    forall path ensures GapsHold(Results(Reach(actions), path)) {
      OpenMeansLocked(actions, path);
      ReachKeeps(actions, path);
    }
  }

  // --- Without the lock ----------------------------------------------------

  lemma Then(actions: seq<Action>, a: Action)
    ensures Reach(actions + [a]) == Apply(Reach(actions), a)
  {
    assert (actions + [a])[..|actions|] == actions;
  }

  lemma RunGrows(actions: seq<Action>, a: Action, pids: set<Pid>, able: set<Pid>)
    requires RunOf(actions, pids, able)
    requires !a.Tick? && a.pid in pids && (a.TryLock? ==> (a.opens <==> a.pid in able))
    ensures RunOf(actions + [a], pids, able)
    ensures Reach(actions + [a]) == Apply(Reach(actions), a)
  {
    Then(actions, a);
  }

  /** Two processes of one configuration at the same moment; the second may have the lock. */
  function Two(p: Pid, q: Pid, phase: Phase, locked: bool): World {
    World(0.0, if locked then Some(q) else None, map[],
          map[p := Process("line", 300.0, phase, false), q := Process("line", 300.0, phase, locked)], map[])
  }

  lemma BothWantTheLock(pids: set<Pid>, able: set<Pid>, p: Pid, q: Pid) returns (run: seq<Action>)
    requires p in pids && q in pids && p != q
    ensures RunOf(run, pids, able) && Reach(run) == Two(p, q, WantsLock, false)
  {
    run := [];
    assert Reach(run) == START;
    hide Reach, RunOf;
    assert RunOf([], pids, able) by { EmptyRun(pids, able); }
    RunGrows(run, Launch(p, "line", 300.0), pids, able);
    run := run + [Launch(p, "line", 300.0)];
    RunGrows(run, Launch(q, "line", 300.0), pids, able);
    run := run + [Launch(q, "line", 300.0)];
    assert Reach(run) == Two(p, q, Started, false);
    RunGrows(run, FirstCheck(p), pids, able);
    run := run + [FirstCheck(p)];
    RunGrows(run, FirstCheck(q), pids, able);
    run := run + [FirstCheck(q)];
  }

  lemma EmptyRun(pids: set<Pid>, able: set<Pid>)
    ensures RunOf([], pids, able)
  {
  }

  lemma BothRecheck(pids: set<Pid>, able: set<Pid>, p: Pid, q: Pid) returns (run: seq<Action>)
    requires p in pids && q in pids && p != q && p !in able
    ensures RunOf(run, pids, able) && Reach(run) == Two(p, q, Rechecking, q in able)
  {
    hide Reach, RunOf;
    run := BothWantTheLock(pids, able, p, q);
    RunGrows(run, TryLock(p, false), pids, able);
    run := run + [TryLock(p, false)];
    RunGrows(run, TryLock(q, q in able), pids, able);
    run := run + [TryLock(q, q in able)];
  }

  lemma BothMeasure(pids: set<Pid>, able: set<Pid>, p: Pid, q: Pid) returns (run: seq<Action>)
    requires p in pids && q in pids && p != q && p !in able
    ensures RunOf(run, pids, able) && Reach(run) == Two(p, q, Measuring(None), q in able)
  {
    hide Reach, RunOf;
    run := BothRecheck(pids, able, p, q);
    RunGrows(run, SecondCheck(p), pids, able);
    run := run + [SecondCheck(p)];
    RunGrows(run, SecondCheck(q), pids, able);
    run := run + [SecondCheck(q)];
  }

  lemma BothHaveMeasured(before: seq<Action>, pids: set<Pid>, able: set<Pid>, p: Pid, q: Pid) returns (run: seq<Action>)
    requires p in pids && q in pids && p != q && p !in able
    requires RunOf(before, pids, able) && Reach(before) == Two(p, q, Measuring(None), q in able)
    ensures RunOf(run, pids, able) && Reach(run) == Two(p, q, Measured(0.0), q in able)
  {
    run := before;
    hide Reach, RunOf;
    RunGrows(run, TakeStamp(p), pids, able);
    run := run + [TakeStamp(p)];
    RunGrows(run, TakeStamp(q), pids, able);
    run := run + [TakeStamp(q)];
    assert Reach(run) == Two(p, q, Measuring(Some(0.0)), q in able);
    RunGrows(run, Finish(p), pids, able);
    run := run + [Finish(p)];
    RunGrows(run, Finish(q), pids, able);
    run := run + [Finish(q)];
  }

  /** Where one process cannot open the lock file, it measures beside any other, and both
      store a result of the same moment. */
  lemma WithoutTheLockNothingHolds(pids: set<Pid>, able: set<Pid>, p: Pid, q: Pid)
    returns (measuring: seq<Action>, stored: seq<Action>)
    requires p in pids && q in pids && p != q && p !in able
    ensures RunOf(measuring, pids, able) && IsMeasuring(Reach(measuring), p) && IsMeasuring(Reach(measuring), q)
    ensures RunOf(stored, pids, able)
    ensures Results(Reach(stored), "line") == [Stored(0.0, 300.0), Stored(0.0, 300.0)]
    ensures !GapsHold(Results(Reach(stored), "line"))
  {
    measuring := BothMeasure(pids, able, p, q);
    stored := BothHaveMeasured(measuring, pids, able, p, q);
    hide Reach, RunOf;
    RunGrows(stored, WriteCache(p, true), pids, able);
    stored := stored + [WriteCache(p, true)];
    RunGrows(stored, WriteCache(q, true), pids, able);
    stored := stored + [WriteCache(q, true)];
    var results := Results(Reach(stored), "line");
    assert results == [Stored(0.0, 300.0), Stored(0.0, 300.0)];
    assert !Apart(results[0].at, results[0 + 1].at, results[0 + 1].minimumAge);
  }
}
