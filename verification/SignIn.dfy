/** Sign-in back-off, and the sessions a sign-in opens. */
module SignIn {
  import opened Prelude

  /** Times and delays in seconds. */
  datatype Settings = Settings(maxAttempts: nat, lockoutBase: nat, lockoutMax: nat)

  const DEFAULTS := Settings(5, 5, 900)

  function Pow2(n: nat): nat {
    if n == 0 then 1 else 2 * Pow2(n - 1)
  }

  /** How long the account is locked after that many failures in a row. */
  function Lockout(s: Settings, failures: nat): nat {
    if failures < s.maxAttempts then 0
    else
      var delay := s.lockoutBase * Pow2(failures - s.maxAttempts);
      if delay < s.lockoutMax then delay else s.lockoutMax
  }

  datatype Account = Account(failures: nat, lockedUntil: Option<real>, active: bool)

  /** `unlocks` tells a refused caller when to come back. */
  datatype Outcome = Locked(unlocks: real) | Refused | Disabled | SignedIn

  predicate IsLocked(a: Account, now: real) {
    a.lockedUntil.Some? && a.lockedUntil.value > now
  }

  /** A locked account looks at no password at all. */
  function Judged(a: Account, now: real, passwordOk: bool): Outcome {
    if IsLocked(a, now) then Locked(a.lockedUntil.value)
    else if !passwordOk then Refused
    else if !a.active then Disabled
    else SignedIn
  }

  function Tried(s: Settings, a: Account, now: real, passwordOk: bool): Account {
    match Judged(a, now, passwordOk)
    case Locked(_) => a
    case Disabled => a
    case SignedIn => a.(failures := 0, lockedUntil := None)
    case Refused =>
      var failures := a.failures + 1;
      a.(failures := failures,
         lockedUntil := if failures < s.maxAttempts then a.lockedUntil else Some(now + Lockout(s, failures) as real))
  }

  class User {
    var failures: nat
    var lockedUntil: Option<real>
    var active: bool
    const settings: Settings

    constructor (settings: Settings)
      ensures Now() == Account(0, None, true) && this.settings == settings
    {
      failures, lockedUntil, active := 0, None, true;
      this.settings := settings;
    }

    function Now(): Account
      reads this
    {
      Account(failures, lockedUntil, active)
    }

    method Authenticate(now: real, passwordOk: bool) returns (outcome: Outcome)
      modifies this`failures, this`lockedUntil
      ensures outcome == Judged(old(Now()), now, passwordOk)
      ensures Now() == Tried(settings, old(Now()), now, passwordOk)
    {
      if lockedUntil.Some? && lockedUntil.value > now {
        return Locked(lockedUntil.value);
      }
      if !passwordOk {
        RegisterFailure(now);
        return Refused;
      }
      if !active {
        return Disabled;
      }
      failures := 0;
      lockedUntil := None;
      return SignedIn;
    }

    method RegisterFailure(now: real)
      modifies this`failures, this`lockedUntil
      ensures failures == old(failures) + 1
      ensures lockedUntil == if failures < settings.maxAttempts then old(lockedUntil)
                             else Some(now + Lockout(settings, failures) as real)
    {
      failures := failures + 1;
      if failures < settings.maxAttempts {
        return;
      }
      var delay := settings.lockoutBase * Pow2(failures - settings.maxAttempts);
      if delay > settings.lockoutMax {
        delay := settings.lockoutMax;
      }
      lockedUntil := Some(now + delay as real);
    }
  }

  // --- One attempt ---------------------------------------------------------

  /** Signed in is who comes with the right password to an account that is neither disabled
      nor locked; then, and only then, the counters are cleared.  The right password to a
      disabled account and any attempt on a locked one leave them as they are. */
  lemma SignsInExactly(s: Settings, a: Account, now: real, passwordOk: bool)
    ensures Judged(a, now, passwordOk) == SignedIn
            <==> passwordOk && a.active && (a.lockedUntil.None? || a.lockedUntil.value <= now)
    ensures var after := Tried(s, a, now, passwordOk);
            && after.active == a.active
            && (Judged(a, now, passwordOk) == SignedIn ==> after.failures == 0 && after.lockedUntil == None)
            && (passwordOk && !a.active ==> after == a)
            && (a.lockedUntil.Some? && a.lockedUntil.value > now ==>
                  after == a && Judged(a, now, passwordOk) == Locked(a.lockedUntil.value))
  {
  }

  /** Refused is the wrong password to an account that is not locked, disabled or not: it
      counts, and from the configured number on the account is locked for the base time,
      doubled with each further failure and cut at the longest. */
  lemma RefusedExactly(s: Settings, a: Account, now: real, passwordOk: bool)
    ensures Judged(a, now, passwordOk) == Refused
            <==> !passwordOk && (a.lockedUntil.None? || a.lockedUntil.value <= now)
    ensures Judged(a, now, passwordOk) == Refused <==> Tried(s, a, now, passwordOk).failures == a.failures + 1
    ensures Judged(a, now, passwordOk) == Refused ==>
      Tried(s, a, now, passwordOk).lockedUntil
      == if a.failures + 1 < s.maxAttempts then a.lockedUntil else Some(now + Lockout(s, a.failures + 1) as real)
  {
  }

  lemma {:induction false} LockoutDoubles(s: Settings, failures: nat)
    requires s.lockoutBase <= s.lockoutMax
    ensures failures < s.maxAttempts ==> Lockout(s, failures) == 0
    ensures failures == s.maxAttempts ==> Lockout(s, failures) == s.lockoutBase
    ensures failures >= s.maxAttempts ==>
      Lockout(s, failures + 1) == if 2 * Lockout(s, failures) < s.lockoutMax then 2 * Lockout(s, failures) else s.lockoutMax
  {
    if failures >= s.maxAttempts {
      var n := failures - s.maxAttempts;
      assert s.lockoutBase * Pow2(n + 1) == 2 * (s.lockoutBase * Pow2(n));
    }
  }

  // --- Over any run of attempts --------------------------------------------

  /** Somebody tries, or an administrator switches the account. */
  datatype Event = Attempt(now: real, passwordOk: bool) | SetActive(active: bool)

  /** With the account, the moments of its failures since the last success. */
  datatype Run = Run(account: Account, failedAt: seq<real>)

  function Apply(s: Settings, r: Run, e: Event): Run {
    match e
    case SetActive(active) => r.(account := r.account.(active := active))
    case Attempt(now, passwordOk) =>
      Run(Tried(s, r.account, now, passwordOk),
          match Judged(r.account, now, passwordOk)
          case Refused => r.failedAt + [now]
          case SignedIn => []
          case _ => r.failedAt)
  }

  function Reach(s: Settings, events: seq<Event>): Run {
    if events == [] then Run(Account(0, None, true), [])
    else Apply(s, Reach(s, events[..|events| - 1]), events[|events| - 1])
  }

  /** What the locks between the first and the last of that many failures add up to. */
  function LockSum(s: Settings, failures: nat): nat {
    if failures <= s.maxAttempts then 0 else LockSum(s, failures - 1) + Lockout(s, failures - 1)
  }

  /** The clock does not go back. */
  ghost predicate InTime(events: seq<Event>) {
    forall i, j :: 0 <= i < j < |events| && events[i].Attempt? && events[j].Attempt? ==> events[i].now <= events[j].now
  }

  ghost predicate Inv(s: Settings, r: Run, now: real) {
    var n := |r.failedAt|;
    && r.account.failures == n
    && (n > 0 ==> r.failedAt[n - 1] <= now)
    && (n > 0 ==> r.failedAt[n - 1] - r.failedAt[0] >= LockSum(s, n) as real)
    && r.account.lockedUntil == if n == 0 || n < s.maxAttempts then None else Some(r.failedAt[n - 1] + Lockout(s, n) as real)
  }

  lemma StepKeeps(s: Settings, r: Run, e: Event, now: real)
    requires s.maxAttempts > 0 && Inv(s, r, now)
    requires e.Attempt? ==> now <= e.now
    ensures Inv(s, Apply(s, r, e), if e.Attempt? then e.now else now)
  {
    if e.Attempt? && Judged(r.account, e.now, e.passwordOk) == Refused && r.failedAt != [] {
      var n := |r.failedAt|;
      assert e.now >= r.failedAt[n - 1] + (if n < s.maxAttempts then 0.0 else Lockout(s, n) as real);
    }
  }

  function LastTime(events: seq<Event>, start: real): real {
    if events == [] then start
    else if events[|events| - 1].Attempt? then events[|events| - 1].now
    else LastTime(events[..|events| - 1], start)
  }

  lemma {:induction false} LastTimeIsLast(events: seq<Event>, start: real, now: real)
    requires forall i :: 0 <= i < |events| && events[i].Attempt? ==> events[i].now <= now
    requires start <= now
    ensures LastTime(events, start) <= now
  {
    if events != [] && !events[|events| - 1].Attempt? {
      LastTimeIsLast(events[..|events| - 1], start, now);
    }
  }

  lemma {:induction false} ReachKeeps(s: Settings, events: seq<Event>, start: real)
    requires s.maxAttempts > 0 && InTime(events)
    requires forall i :: 0 <= i < |events| && events[i].Attempt? ==> start <= events[i].now
    ensures Inv(s, Reach(s, events), LastTime(events, start))
  {
    if events != [] {
      var front, last := events[..|events| - 1], events[|events| - 1];
      assert forall i :: 0 <= i < |front| ==> front[i] == events[i];
      ReachKeeps(s, front, start);
      if last.Attempt? {
        LastTimeIsLast(front, start, last.now);
      }
      StepKeeps(s, Reach(s, front), last, LastTime(front, start));
    }
  }

  /** Failures in a row cannot come faster than the locks allow, whatever is tried while an
      account is locked and however often it is switched off and on. */
  lemma FailuresTakeTheirTime(s: Settings, events: seq<Event>)
    requires s.maxAttempts > 0 && InTime(events)
    ensures var at := Reach(s, events).failedAt;
            |at| > 0 ==> at[|at| - 1] - at[0] >= LockSum(s, |at|) as real
  {
    var start := Earliest(events);
    ReachKeeps(s, events, start);
  }

  function Earliest(events: seq<Event>): (t: real)
    ensures forall i :: 0 <= i < |events| && events[i].Attempt? ==> t <= events[i].now
  {
    if events == [] then 0.0
    else
      var rest := Earliest(events[1..]);
      assert forall i :: 0 < i < |events| ==> events[i] == events[1..][i - 1];
      if events[0].Attempt? && events[0].now < rest then events[0].now else rest
  }

  /** With the default settings. */
  lemma {:induction false} DefaultLockSum(n: nat)
    ensures n <= 5 ==> LockSum(DEFAULTS, n) == 0
    ensures n == 13 ==> LockSum(DEFAULTS, n) == 1275
    ensures n >= 13 ==> LockSum(DEFAULTS, n) == 1275 + 900 * (n - 13)
  {
    if n == 13 {
      assert Pow2(3) == 8 && Pow2(5) == 32 && Pow2(7) == 128;
      assert LockSum(DEFAULTS, 6) == 5 && LockSum(DEFAULTS, 7) == 15 && LockSum(DEFAULTS, 8) == 35;
      assert LockSum(DEFAULTS, 9) == 75 && LockSum(DEFAULTS, 10) == 155 && LockSum(DEFAULTS, 11) == 315;
      assert LockSum(DEFAULTS, 12) == 635;
    } else if n > 13 {
      DefaultLockSum(n - 1);
      LongLockout(n - 1);
    }
  }

  lemma {:induction false} LongLockout(n: nat)
    requires n >= 13
    ensures Pow2(n - 5) >= 256 && Lockout(DEFAULTS, n) == 900
  {
    if n == 13 {
      assert Pow2(2) == 4 && Pow2(4) == 16 && Pow2(6) == 64 && Pow2(8) == 256;
    } else {
      LongLockout(n - 1);
    }
  }

  /** The account is switched off at `from` and not switched on again before `to`. */
  ghost predicate OffSince(events: seq<Event>, from: nat, until: nat) {
    && from < until <= |events| && events[from] == SetActive(false)
    && forall i :: from < i < until ==> events[i] != SetActive(true)
  }

  lemma {:induction false} StaysOff(s: Settings, events: seq<Event>, from: nat, until: nat)
    requires OffSince(events, from, until)
    ensures !Reach(s, events[..until]).account.active
    decreases until
  {
    assert events[..until][..until - 1] == events[..until - 1];
    if from < until - 1 {
      StaysOff(s, events, from, until - 1);
    }
  }

  /** Nobody signs in to an account between its being switched off and on again. */
  lemma NobodySignsInWhileOff(s: Settings, events: seq<Event>, from: nat, until: nat)
    requires OffSince(events, from, until) && until < |events| && events[until].Attempt?
    ensures Judged(Reach(s, events[..until]).account, events[until].now, events[until].passwordOk) != SignedIn
  {
    StaysOff(s, events, from, until);
  }

  // --- The bound is exact --------------------------------------------------

  /** Somebody who tries again the moment each lock ends. */
  function Persistent(s: Settings, n: nat): seq<Event> {
    if n == 0 then [] else Persistent(s, n - 1) + [Attempt(LockSum(s, n) as real, false)]
  }

  /** Trying the moment each lock ends reaches the bound: no better one could be stated. */
  lemma {:induction false} TheBoundIsReached(s: Settings, n: nat)
    requires s.maxAttempts > 0
    ensures var r := Reach(s, Persistent(s, n));
            && |r.failedAt| == n
            && (n > 0 ==> r.failedAt[0] == 0.0 && r.failedAt[n - 1] == LockSum(s, n) as real)
            && r.account == Account(n, if n < s.maxAttempts then None else Some((LockSum(s, n) + Lockout(s, n)) as real), true)
  {
    hide Reach, Lockout;
    if n == 0 {
      NobodyHasTried(s);
    } else {
      TheBoundIsReached(s, n - 1);
      var all := Persistent(s, n);
      assert all[..|all| - 1] == Persistent(s, n - 1);
      ReachNext(s, all);
      OneMoreFails(s, Reach(s, Persistent(s, n - 1)), n);
    }
  }

  lemma NobodyHasTried(s: Settings)
    ensures Reach(s, []) == Run(Account(0, None, true), [])
  {
  }

  lemma ReachNext(s: Settings, events: seq<Event>)
    requires events != []
    ensures Reach(s, events) == Apply(s, Reach(s, events[..|events| - 1]), events[|events| - 1])
  {
  }

  lemma OneMoreFails(s: Settings, r: Run, n: nat)
    requires s.maxAttempts > 0 && n > 0 && |r.failedAt| == n - 1
    requires r.account == Account(
      n - 1, if n - 1 < s.maxAttempts then None else Some((LockSum(s, n - 1) + Lockout(s, n - 1)) as real), true)
    ensures Apply(s, r, Attempt(LockSum(s, n) as real, false)) == Run(
      Account(n, if n < s.maxAttempts then None else Some((LockSum(s, n) + Lockout(s, n)) as real), true),
      r.failedAt + [LockSum(s, n) as real])
  {
  }

  // --- Sessions ------------------------------------------------------------

  datatype Session = Session(expiresAt: real, lastSeen: real, revoked: bool)

  datatype Lookup = Lookup(found: bool, session: Session)

  /** A live session is seen again and slides its idle window; a disabled user's is seen,
      but not given out. */
  function Resolve(s: Session, now: real, idleLimit: real, active: bool): Lookup {
    if s.revoked || s.expiresAt <= now then Lookup(false, s)
    else if now - s.lastSeen > idleLimit then Lookup(false, s.(revoked := true))
    else Lookup(active, s.(lastSeen := now))
  }

  /** Given out is a session that is neither revoked, expired nor idle for too long, of an
      active user; asking for one that is merely idle revokes it, and any other answer of
      a live one moves its window. */
  lemma GivenOutExactly(s: Session, now: real, idleLimit: real, active: bool)
    ensures var live := !s.revoked && now < s.expiresAt && now - s.lastSeen <= idleLimit;
            && (Resolve(s, now, idleLimit, active).found <==> live && active)
            && (live ==> Resolve(s, now, idleLimit, active).session == Session(s.expiresAt, now, false))
            && (!live ==> Resolve(s, now, idleLimit, active).session.lastSeen == s.lastSeen)
            && (Resolve(s, now, idleLimit, active).session.revoked
                <==> s.revoked || (now < s.expiresAt && now - s.lastSeen > idleLimit))
  {
  }

  datatype Request = Request(now: real, active: bool)

  function After(s: Session, requests: seq<Request>, idleLimit: real): Session {
    if requests == [] then s
    else
      var last := requests[|requests| - 1];
      Resolve(After(s, requests[..|requests| - 1], idleLimit), last.now, idleLimit, last.active).session
  }

  lemma {:induction false} DeadStays(s: Session, requests: seq<Request>, idleLimit: real, from: real)
    requires s.revoked || s.expiresAt <= from
    requires forall i :: 0 <= i < |requests| ==> from <= requests[i].now
    ensures After(s, requests, idleLimit) == s
  {
    if requests != [] {
      DeadStays(s, requests[..|requests| - 1], idleLimit, from);
    }
  }

  /** A session that was not given out to an active user is never given out again, however
      often it is asked for; and one that is was asked for within the idle limit. */
  lemma DeadForever(s: Session, first: Request, later: seq<Request>, again: Request, idleLimit: real)
    requires first.active && !Resolve(s, first.now, idleLimit, true).found
    requires forall i :: 0 <= i < |later| ==> first.now <= later[i].now
    requires first.now <= again.now
    ensures !Resolve(After(Resolve(s, first.now, idleLimit, true).session, later, idleLimit), again.now, idleLimit, again.active).found
  {
    DeadStays(Resolve(s, first.now, idleLimit, true).session, later, idleLimit, first.now);
  }
}
