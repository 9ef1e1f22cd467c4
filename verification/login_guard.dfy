/** services/UserService.java: the login-attempt guard over the users table.
    Each operation looks the account up by email, applies one lockout
    transition to it and saves it back; an unknown email changes nothing. */
module LoginGuard {
  import opened Common
  import opened Entity
  import opened Users
  import opened Lockout

  class LoginGuard {
    var users: Table
    /** The configured threshold `app.security.max-login-attempts`. */
    const maxLoginAttempts: int

    ghost predicate Valid()
      reads this
    {
      WellFormed(users)
    }

    constructor (users: Table, maxLoginAttempts: int)
      requires WellFormed(users)
      ensures Valid() && this.users == users && this.maxLoginAttempts == maxLoginAttempts
    {
      this.users := users;
      this.maxLoginAttempts := maxLoginAttempts;
    }

    /** True exactly when an account holds the email and its counter has reached the threshold. */
    function IsLoginAttemptsExceeded(email: Email): (r: bool)
      reads this
      requires Valid()
      ensures r <==> exists id :: id in users && users[id].email == email
                                  && users[id].failedLoginAttempts >= maxLoginAttempts
    {
      match FindByEmail(users, email)
      case None => false
      case Some(id) => AttemptsExceeded(users[id], maxLoginAttempts)
    }

    method IncrementFailedLoginAttempts(email: Email, now: Time)
      requires Valid()
      modifies this
      ensures Valid()
      ensures match FindByEmail(old(users), email)
        case None => users == old(users)
        case Some(id) =>
          users == Saved(old(users), AfterFailedLogin(old(users)[id], now, maxLoginAttempts), now)
    {
      match FindByEmail(users, email)
      case None =>
      case Some(id) =>
        var a := AfterFailedLogin(users[id], now, maxLoginAttempts);
        SaveKeepsWellFormed(users, a, now);
        users := Saved(users, a, now);
    }

    method ResetFailedLoginAttempts(email: Email, now: Time)
      requires Valid()
      modifies this
      ensures Valid()
      ensures match FindByEmail(old(users), email)
        case None => users == old(users)
        case Some(id) => users == Saved(old(users), AfterReset(old(users)[id]), now)
    {
      match FindByEmail(users, email)
      case None =>
      case Some(id) =>
        var a := AfterReset(users[id]);
        SaveKeepsWellFormed(users, a, now);
        users := Saved(users, a, now);
    }

    /** Reports an unknown email as not locked; otherwise answers as `CheckLock`
        and writes back the lazily unlocked account when the lock has run out. */
    method IsAccountLocked(email: Email, now: Time) returns (locked: bool)
      requires Valid()
      modifies this
      ensures Valid()
      ensures match FindByEmail(old(users), email)
        case None => !locked && users == old(users)
        case Some(id) =>
          var v := CheckLock(old(users)[id], now);
          locked == v.locked && users == Saved(old(users), v.account, now)
      ensures locked ==> users == old(users)
    {
      match FindByEmail(users, email)
      case None =>
        locked := false;
      case Some(id) =>
        var v := CheckLock(users[id], now);
        SaveKeepsWellFormed(users, v.account, now);
        users := Saved(users, v.account, now);
        locked := v.locked;
    }
  }
}
