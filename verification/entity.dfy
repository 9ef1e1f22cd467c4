/** The account record of entity/User.java: its columns, the values its field
    initialisers give a new object, and its two persistence hooks. */
module Entity {
  import opened Common

  /** One row of the `users` table. Boxed columns that the code never leaves
      null are plain values here. `status` exists only in the records handled
      by service/UserService.java (the entity class itself declares no such
      column); the other components never read or write it. */
  datatype Account = Account(
    id: UserId,
    email: Email,
    passwordHash: string,
    isEmailVerified: bool,
    emailVerificationToken: Option<Token>,
    emailVerificationExpiry: Option<Time>,
    failedLoginAttempts: int,
    lastFailedLogin: Option<Time>,
    accountLocked: bool,
    accountLockedUntil: Option<Time>,
    createdAt: Option<Time>,
    updatedAt: Option<Time>,
    twoFactorCode: Option<string>,
    twoFactorCodeExpiry: Option<Time>,
    failed2FAAttempts: int,
    lastFailed2FA: Option<Time>,
    status: Option<string>)

  /** A newly constructed account with its identity and password hash filled in:
      every other column holds its field initialiser's value or is absent. */
  function NewAccount(id: UserId, email: Email, passwordHash: string): (a: Account)
    ensures a.id == id && a.email == email && a.passwordHash == passwordHash
    ensures !a.isEmailVerified && a.failedLoginAttempts == 0 && !a.accountLocked && a.failed2FAAttempts == 0
    ensures a.emailVerificationToken == None && a.emailVerificationExpiry == None
    ensures a.lastFailedLogin == None && a.accountLockedUntil == None
    ensures a.twoFactorCode == None && a.twoFactorCodeExpiry == None && a.lastFailed2FA == None
    ensures a.createdAt == None && a.updatedAt == None && a.status == None
  {
    Account(id, email, passwordHash, false, None, None, 0, None, false, None,
            None, None, None, None, 0, None, None)
  }

  /** The pre-persist hook: both timestamps become the same instant, nothing else changes. */
  function OnCreate(a: Account, now: Time): (r: Account)
    ensures r.createdAt == Some(now) && r.updatedAt == Some(now)
    ensures r.(createdAt := a.createdAt, updatedAt := a.updatedAt) == a
  {
    a.(createdAt := Some(now), updatedAt := Some(now))
  }

  /** The pre-update hook: only the modification time moves; the creation time is kept. */
  function OnUpdate(a: Account, now: Time): (r: Account)
    ensures r.updatedAt == Some(now) && r.createdAt == a.createdAt
    ensures r.(updatedAt := a.updatedAt) == a
  {
    a.(updatedAt := Some(now))
  }
}
