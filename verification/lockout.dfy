/** The brute-force lockout bookkeeping shared, line for line, by
    services/UserService.java and service/UserService.java: a failure counter
    against a configured threshold, a lock flag with an expiry one hour after
    the failure that reached the threshold, and a lazy unlock when the lock is
    read after its expiry. Each transition is a function on one account. */
module Lockout {
  import opened Common
  import opened Entity

  /** How long a lock lasts after the failure that set it (one hour). */
  const LockMinutes := 60

  /** `isLoginAttemptsExceeded` for an account that exists. */
  predicate AttemptsExceeded(a: Account, maxLoginAttempts: int) {
    a.failedLoginAttempts >= maxLoginAttempts
  }

  /** `r` differs from `a` at most in the four lockout columns. */
  predicate SameOutsideLockout(a: Account, r: Account) {
    r.(failedLoginAttempts := a.failedLoginAttempts, lastFailedLogin := a.lastFailedLogin,
       accountLocked := a.accountLocked, accountLockedUntil := a.accountLockedUntil) == a
  }

  /** `incrementFailedLoginAttempts` on a found account: count the failure,
      remember when it happened, and (re)lock for an hour from now once the new
      count reaches the threshold. */
  function AfterFailedLogin(a: Account, now: Time, maxLoginAttempts: int): (r: Account)
    ensures r.failedLoginAttempts == a.failedLoginAttempts + 1
    ensures r.lastFailedLogin == Some(now)
    ensures AttemptsExceeded(r, maxLoginAttempts) ==>
              r.accountLocked && r.accountLockedUntil == Some(now + LockMinutes)
    ensures !AttemptsExceeded(r, maxLoginAttempts) ==>
              r.accountLocked == a.accountLocked && r.accountLockedUntil == a.accountLockedUntil
    ensures SameOutsideLockout(a, r)
  {
    var counted := a.(failedLoginAttempts := a.failedLoginAttempts + 1, lastFailedLogin := Some(now));
    if AttemptsExceeded(counted, maxLoginAttempts) then
      counted.(accountLocked := true, accountLockedUntil := Some(now + LockMinutes))
    else
      counted
  }

  /** `resetFailedLoginAttempts` on a found account: all four lockout columns back to their rest state. */
  function AfterReset(a: Account): (r: Account)
    ensures r.failedLoginAttempts == 0 && r.lastFailedLogin == None
    ensures !r.accountLocked && r.accountLockedUntil == None
    ensures SameOutsideLockout(a, r)
  {
    a.(failedLoginAttempts := 0, lastFailedLogin := None, accountLocked := false, accountLockedUntil := None)
  }

  /** What `isAccountLocked` answers for an account, and the account it leaves behind. */
  datatype LockView = LockView(locked: bool, account: Account)

  /** `isAccountLocked` on a found account. Only a lock that carries an expiry
      counts; it holds up to and including its expiry instant, and the first
      read strictly after it clears the lock and the counter (but keeps the
      time of the last failure). */
  function CheckLock(a: Account, now: Time): (v: LockView)
    ensures v.locked <==>
              a.accountLocked && a.accountLockedUntil.Some? && now <= a.accountLockedUntil.value
    ensures v.locked ==> v.account == a
    ensures !a.accountLocked || a.accountLockedUntil.None? ==> v.account == a
    ensures a.accountLocked && a.accountLockedUntil.Some? && now > a.accountLockedUntil.value ==>
              v.account == a.(accountLocked := false, accountLockedUntil := None, failedLoginAttempts := 0)
  {
    if a.accountLocked && a.accountLockedUntil.Some? then
      if now > a.accountLockedUntil.value then
        LockView(false, a.(accountLocked := false, accountLockedUntil := None, failedLoginAttempts := 0))
      else
        LockView(true, a)
    else
      LockView(false, a)
  }

  /** The lockout invariant: a lock always carries an expiry, and only an
      account at or above the threshold is locked. */
  predicate LockConsistent(a: Account, maxLoginAttempts: int) {
    a.accountLocked ==> a.accountLockedUntil.Some? && a.failedLoginAttempts >= maxLoginAttempts
  }

  lemma NewAccountIsLockConsistent(id: UserId, email: Email, hash: string, maxLoginAttempts: int)
    ensures LockConsistent(NewAccount(id, email, hash), maxLoginAttempts)
    ensures !CheckLock(NewAccount(id, email, hash), 0).locked
  {
  }

  /** All three transitions preserve the lockout invariant. */
  lemma TransitionsKeepLockConsistent(a: Account, now: Time, maxLoginAttempts: int)
    requires LockConsistent(a, maxLoginAttempts)
    ensures LockConsistent(AfterFailedLogin(a, now, maxLoginAttempts), maxLoginAttempts)
    ensures LockConsistent(AfterReset(a), maxLoginAttempts)
    ensures LockConsistent(CheckLock(a, now).account, maxLoginAttempts)
  {
  }

  /** A failure by an account already at or above the threshold re-stamps the
      expiry to an hour from now: a lock is extended, never merely kept. */
  lemma FailureAtThresholdRestampsLock(a: Account, now: Time, maxLoginAttempts: int)
    requires AttemptsExceeded(a, maxLoginAttempts)
    ensures AfterFailedLogin(a, now, maxLoginAttempts).accountLocked
    ensures AfterFailedLogin(a, now, maxLoginAttempts).accountLockedUntil == Some(now + LockMinutes)
  {
  }

  /** Resetting is idempotent. */
  lemma ResetIdempotent(a: Account)
    ensures AfterReset(AfterReset(a)) == AfterReset(a)
  {
  }

  /** An account flagged as locked but without an expiry is reported open, and the read changes nothing. */
  lemma LockWithoutExpiryIsOpen(a: Account, now: Time)
    requires a.accountLocked && a.accountLockedUntil.None?
    ensures !CheckLock(a, now).locked && CheckLock(a, now).account == a
  {
  }

  /** After a lazy unlock the account stays open at every later read, its
      counter is zero, and the time of the last failure is untouched. */
  lemma LazyUnlockIsFinal(a: Account, now: Time, later: Time)
    requires a.accountLocked && a.accountLockedUntil.Some? && now > a.accountLockedUntil.value
    ensures var b := CheckLock(a, now).account;
      && b.failedLoginAttempts == 0 && b.lastFailedLogin == a.lastFailedLogin
      && !CheckLock(b, later).locked && CheckLock(b, later).account == b
  {
  }

  /** A run of consecutive failed logins at the given instants, in order. */
  function FailedLogins(a: Account, times: seq<Time>, maxLoginAttempts: int): Account
    decreases |times|
  {
    if times == [] then a
    else FailedLogins(AfterFailedLogin(a, times[0], maxLoginAttempts), times[1..], maxLoginAttempts)
  }

  /** A run of failures adds its length to the counter, records the last
      instant, and leaves every column outside the lockout ones untouched. */
  lemma {:induction false} FailedLoginsCount(a: Account, times: seq<Time>, maxLoginAttempts: int)
    ensures var r := FailedLogins(a, times, maxLoginAttempts);
      && r.failedLoginAttempts == a.failedLoginAttempts + |times|
      && (times != [] ==> r.lastFailedLogin == Some(times[|times| - 1]))
      && (times == [] ==> r == a)
      && SameOutsideLockout(a, r)
    decreases |times|
  {
    if times != [] {
      var b := AfterFailedLogin(a, times[0], maxLoginAttempts);
      FailedLoginsCount(b, times[1..], maxLoginAttempts);
      if |times| > 1 {
        assert times[1..][|times[1..]| - 1] == times[|times| - 1];
      }
    }
  }

  /** Once a run of failures has brought the counter to the threshold, the
      account is locked until one hour after the LAST failure of the run. */
  lemma {:induction false} FailedLoginsLock(a: Account, times: seq<Time>, maxLoginAttempts: int)
    requires times != []
    requires a.failedLoginAttempts + |times| >= maxLoginAttempts
    ensures var r := FailedLogins(a, times, maxLoginAttempts);
      r.accountLocked && r.accountLockedUntil == Some(times[|times| - 1] + LockMinutes)
    decreases |times|
  {
    var b := AfterFailedLogin(a, times[0], maxLoginAttempts);
    if |times| > 1 {
      FailedLoginsLock(b, times[1..], maxLoginAttempts);
      assert times[1..][|times[1..]| - 1] == times[|times| - 1];
    }
  }

  /** The brute-force guarantee: starting from an account with no failures,
      `maxLoginAttempts` consecutive failures lock it; a read at any instant up
      to one hour after the last failure reports it locked and changes
      nothing, and the first read after that hour unlocks it with a zero count. */
  lemma {:induction false} ThresholdFailuresLockForAnHour(a: Account, times: seq<Time>, maxLoginAttempts: int, t: Time)
    requires a.failedLoginAttempts == 0 && maxLoginAttempts >= 1 && |times| == maxLoginAttempts
    ensures var r := FailedLogins(a, times, maxLoginAttempts);
      var last := times[|times| - 1];
      && r.failedLoginAttempts == maxLoginAttempts
      && (t <= last + LockMinutes ==> CheckLock(r, t) == LockView(true, r))
      && (t > last + LockMinutes ==>
            !CheckLock(r, t).locked && CheckLock(r, t).account.failedLoginAttempts == 0)
  {
    FailedLoginsCount(a, times, maxLoginAttempts);
    FailedLoginsLock(a, times, maxLoginAttempts);
  }
}
