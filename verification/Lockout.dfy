/**
 * The failed-login lockout of a user account (backend/src/models/User.ts,
 * `incLoginAttempts`, `resetLoginAttempts` and `isLockedCheck`).
 *
 * The stored fields are `loginAttempts` (schema default 0) and the optional
 * `lockUntil` instant.  Each Mongo update the source issues (`$inc`, `$set`,
 * `$unset`) becomes a pure transition from one snapshot of the account to
 * the next.  Instants are milliseconds since the epoch, and the wall clock
 * is an explicit `now` parameter.
 */
module Lockout {
  import opened Wrappers

  /** The failure count at which an account is locked. */
  const MaxLoginAttempts: nat := 5

  /** Two hours, in milliseconds. */
  const LockDurationMs: nat := 2 * 60 * 60 * 1000

  datatype Account = Account(loginAttempts: nat, lockUntil: Option<nat>)

  /** A newly registered account. */
  const Fresh: Account := Account(0, None)

  /**
   * `isLockedCheck`: a lock instant is stored and lies strictly after `now`.
   * Locked is the third state beside expired and "lock time equals now".
   */
  function IsLocked(a: Account, now: nat): (b: bool)
    ensures b <==> a.lockUntil.Some? && !LockExpired(a, now) && a.lockUntil.value != now
  {
    a.lockUntil.Some? && a.lockUntil.value > now
  }

  /** The guard of the lazy-expiry branch: a lock instant is stored and lies strictly before `now`. */
  predicate LockExpired(a: Account, now: nat) {
    a.lockUntil.Some? && a.lockUntil.value < now
  }

  /** `incLoginAttempts`: the account after one more failed login at `now`. */
  function IncLoginAttempts(a: Account, now: nat): (r: Account)
    ensures LockExpired(a, now) ==> r == Account(1, None)
    ensures !LockExpired(a, now) ==> r.loginAttempts == a.loginAttempts + 1
    ensures IsLocked(a, now) ==> r.lockUntil == a.lockUntil
    ensures r.lockUntil != a.lockUntil ==>
              r.lockUntil == None || (r.lockUntil == Some(now + LockDurationMs) && r.loginAttempts >= MaxLoginAttempts)
  {
    if LockExpired(a, now) then
      Account(1, None)
    else if a.loginAttempts + 1 >= MaxLoginAttempts && !IsLocked(a, now) then
      Account(a.loginAttempts + 1, Some(now + LockDurationMs))
    else
      Account(a.loginAttempts + 1, a.lockUntil)
  }

  /**
   * `incLoginAttempts` exactly as written.  Its guard reads `this.isLocked`,
   * which the user model declares only as an interface field and never
   * defines on the document, so `!this.isLocked` is always true: every
   * failure from the fifth on re-sets the lock, locked or not.
   */
  function IncLoginAttemptsAsWritten(a: Account, now: nat): (r: Account)
    ensures !IsLocked(a, now) ==> r == IncLoginAttempts(a, now)
    ensures r.loginAttempts == IncLoginAttempts(a, now).loginAttempts
    ensures IsLocked(a, now) && a.loginAttempts + 1 >= MaxLoginAttempts ==> r.lockUntil == Some(now + LockDurationMs)
  {
    if LockExpired(a, now) then
      Account(1, None)
    else if a.loginAttempts + 1 >= MaxLoginAttempts then
      Account(a.loginAttempts + 1, Some(now + LockDurationMs))
    else
      Account(a.loginAttempts + 1, a.lockUntil)
  }

  /**
   * The as-written transition pushes a current lock back by each further
   * failure, where the guarded one keeps it: an account locked until
   * `1000 + 2h` that fails at instant 1001 is locked until `1001 + 2h`.
   */
  lemma AsWrittenExtensionExample()
    ensures var a := Account(5, Some(1000 + LockDurationMs));
      && IsLocked(a, 1001)
      && IncLoginAttemptsAsWritten(a, 1001).lockUntil == Some(1001 + LockDurationMs)
      && IncLoginAttempts(a, 1001).lockUntil == Some(1000 + LockDurationMs)
  {
  }

  /**
   * `resetLoginAttempts`: both fields are unset; an unset `loginAttempts`
   * reads back as the schema default 0.
   */
  function ResetLoginAttempts(a: Account): (r: Account)
    ensures r.loginAttempts == 0 && r.lockUntil == None
    ensures forall now: nat :: !IsLocked(r, now)
  {
    Fresh
  }

  /**
   * The lock query and the expiry guard never both hold; at the instant
   * `lockUntil == now` neither holds, and that is the only stored lock for
   * which neither holds.
   */
  lemma ExpiryAndLockPartition(a: Account, now: nat)
    ensures !(IsLocked(a, now) && LockExpired(a, now))
    ensures a.lockUntil.Some? ==>
              (!IsLocked(a, now) && !LockExpired(a, now) <==> a.lockUntil.value == now)
    ensures a.lockUntil.None? ==> !IsLocked(a, now) && !LockExpired(a, now)
  {
  }

  /** A lock is newly set by a failure exactly when the count reaches the threshold on an unlocked, unexpired account. */
  lemma FailureStartsLockIff(a: Account, now: nat)
    ensures var r := IncLoginAttempts(a, now);
            (r.lockUntil == Some(now + LockDurationMs) && !IsLocked(a, now))
            <==> (!LockExpired(a, now) && !IsLocked(a, now) && a.loginAttempts + 1 >= MaxLoginAttempts)
  {
  }

  /** A failure while locked counts, keeps the account locked, and never extends the lock. */
  lemma NoExtensionWhileLocked(a: Account, now: nat)
    requires IsLocked(a, now)
    ensures var r := IncLoginAttempts(a, now);
            r.loginAttempts == a.loginAttempts + 1 && r.lockUntil == a.lockUntil && IsLocked(r, now)
  {
  }

  /** A failure after the lock has expired restarts the count at 1 and unlocks, whatever the prior count. */
  lemma ExpiredLockRestartsAtOne(a: Account, now: nat)
    requires a.lockUntil.Some? && a.lockUntil.value < now
    ensures IncLoginAttempts(a, now) == Account(1, None)
    ensures !IsLocked(IncLoginAttempts(a, now), now)
  {
  }

  /**
   * At the boundary instant `lockUntil == now` the account is neither locked
   * nor expired: a failure counts on, and sets a fresh two-hour lock once the
   * threshold is reached; below the threshold the stale instant is kept.
   */
  lemma BoundaryInstant(a: Account, now: nat)
    requires a.lockUntil == Some(now)
    ensures !IsLocked(a, now) && !LockExpired(a, now)
    ensures IncLoginAttempts(a, now).loginAttempts == a.loginAttempts + 1
    ensures a.loginAttempts + 1 >= MaxLoginAttempts ==> IncLoginAttempts(a, now).lockUntil == Some(now + LockDurationMs)
    ensures a.loginAttempts + 1 < MaxLoginAttempts ==> IncLoginAttempts(a, now).lockUntil == Some(now)
  {
  }

  /** Below four prior failures, an unlocked account is still unlocked after one more. */
  lemma FewFailuresNeverLock(a: Account, now: nat)
    requires !IsLocked(a, now) && a.loginAttempts < MaxLoginAttempts - 1
    ensures var r := IncLoginAttempts(a, now);
            !IsLocked(r, now) && (r.lockUntil == a.lockUntil || r.lockUntil == None)
  {
  }

  /** The fourth-to-fifth failure on an unlocked account locks it for exactly two hours; a further failure keeps that instant. */
  lemma FifthFailureLocks(now: nat, later: nat)
    requires now <= later < now + LockDurationMs
    ensures IncLoginAttempts(Account(4, None), now) == Account(5, Some(now + LockDurationMs))
    ensures IncLoginAttempts(Account(5, Some(now + LockDurationMs)), later) == Account(6, Some(now + LockDurationMs))
  {
  }

  /** One authentication outcome, as it reaches the account. */
  datatype Event = Failed(at: nat) | Succeeded

  function Step(a: Account, e: Event): Account {
    match e
    case Failed(t) => IncLoginAttempts(a, t)
    case Succeeded => ResetLoginAttempts(a)
  }

  /** The account after a sequence of events, oldest first. */
  function Run(a: Account, es: seq<Event>): Account
    decreases |es|
  {
    if es == [] then a else Run(Step(a, es[0]), es[1..])
  }

  /** The latest instant seen after the events, starting from `clock`. */
  function ClockAfter(es: seq<Event>, clock: nat): nat
    decreases |es|
  {
    if es == [] then clock
    else ClockAfter(es[1..], if es[0].Failed? then es[0].at else clock)
  }

  /** Every failure happens no earlier than the previous one, and no earlier than `clock`. */
  predicate Chronological(es: seq<Event>, clock: nat)
    decreases |es|
  {
    es == [] ||
    ((es[0].Failed? ==> es[0].at >= clock) &&
     Chronological(es[1..], if es[0].Failed? then es[0].at else clock))
  }

  /**
   * What every reachable account satisfies at the latest instant `clock`:
   * a stored lock was earned by at least five failures and ends at most two
   * hours after `clock`.
   */
  predicate Safe(a: Account, clock: nat) {
    a.lockUntil.Some? ==>
      a.loginAttempts >= MaxLoginAttempts && a.lockUntil.value <= clock + LockDurationMs
  }

  lemma StepKeepsSafe(a: Account, e: Event, clock: nat)
    requires Safe(a, clock)
    requires e.Failed? ==> e.at >= clock
    ensures Safe(Step(a, e), if e.Failed? then e.at else clock)
  {
  }

  /** Any chronological run of events keeps the account safe. */
  lemma {:induction false} RunKeepsSafe(a: Account, es: seq<Event>, clock: nat)
    requires Safe(a, clock) && Chronological(es, clock)
    ensures Safe(Run(a, es), ClockAfter(es, clock))
    decreases |es|
  {
    if es != [] {
      var next := if es[0].Failed? then es[0].at else clock;
      StepKeepsSafe(a, es[0], clock);
      RunKeepsSafe(Step(a, es[0]), es[1..], next);
    }
  }

  /** Every account reachable from registration is safe. */
  lemma ReachableIsSafe(es: seq<Event>)
    requires Chronological(es, 0)
    ensures Safe(Run(Fresh, es), ClockAfter(es, 0))
  {
    RunKeepsSafe(Fresh, es, 0);
  }

  /** Five failures at one instant lock a fresh account until two hours later. */
  lemma FiveFailuresLockFresh(t: nat)
    ensures Run(Fresh, [Failed(t), Failed(t), Failed(t), Failed(t), Failed(t)]) == Account(5, Some(t + LockDurationMs))
  {
    var f := Failed(t);
    assert Run(Account(4, None), [f]) == Run(Account(5, Some(t + LockDurationMs)), []);
    assert Run(Account(3, None), [f, f]) == Run(Account(4, None), [f]);
    assert Run(Account(2, None), [f, f, f]) == Run(Account(3, None), [f, f]);
    assert Run(Account(1, None), [f, f, f, f]) == Run(Account(2, None), [f, f, f]);
    assert Run(Fresh, [f, f, f, f, f]) == Run(Account(1, None), [f, f, f, f]);
  }

  /** A success clears any state: the account is as freshly registered. */
  lemma SuccessRestoresFresh(a: Account, es: seq<Event>)
    ensures Run(a, [Succeeded] + es) == Run(Fresh, es)
  {
    assert ([Succeeded] + es)[1..] == es;
  }
}
