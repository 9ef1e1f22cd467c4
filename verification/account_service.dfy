/** service/UserService.java: validated registration, record updates that
    keep the stored password hash, the same lockout bookkeeping as
    services/UserService.java, and a PIN second factor stored in its own
    append-only table. */
module AccountService {
  import opened Common
  import opened Entity
  import opened Users
  import opened Lockout
  import opened Pins

  const Disconnected := "déconnecté"
  const Connected := "connecté"

  /** The record a caller hands to `save`: the columns `save` tests for null
      are optional; `passwordHash` still holds the RAW password here. */
  datatype Draft = Draft(
    email: Option<Email>,
    passwordHash: Option<string>,
    isEmailVerified: Option<bool>,
    failedLoginAttempts: Option<int>,
    accountLocked: Option<bool>,
    status: Option<string>,
    createdAt: Option<Time>,
    updatedAt: Option<Time>)

  datatype SaveError = EmailRequired | PasswordRequired | EmailAlreadyUsed

  datatype UpdateError = UserNotFound | EmailConflict

  /** The account `save` builds from a draft before persisting it: the hashed
      password, and defaults only in the columns the caller left null. */
  function Prepared(d: Draft, id: UserId, hashed: string, now: Time): (a: Account)
    requires d.email.Some?
    ensures a.id == id && a.email == d.email.value && a.passwordHash == hashed
    ensures a.isEmailVerified == (if d.isEmailVerified.Some? then d.isEmailVerified.value else false)
    ensures a.failedLoginAttempts == (if d.failedLoginAttempts.Some? then d.failedLoginAttempts.value else 0)
    ensures a.accountLocked == (if d.accountLocked.Some? then d.accountLocked.value else false)
    ensures a.status == Some(if d.status.Some? then d.status.value else Disconnected)
    ensures a.createdAt == Some(if d.createdAt.Some? then d.createdAt.value else now)
    ensures a.updatedAt == Some(if d.updatedAt.Some? then d.updatedAt.value else now)
  {
    NewAccount(id, d.email.value, hashed).(
      isEmailVerified := d.isEmailVerified.GetOr(false),
      failedLoginAttempts := d.failedLoginAttempts.GetOr(0),
      accountLocked := d.accountLocked.GetOr(false),
      status := Some(d.status.GetOr(Disconnected)),
      createdAt := Some(d.createdAt.GetOr(now)),
      updatedAt := Some(d.updatedAt.GetOr(now)))
  }

  class AccountService {
    var users: Table
    /** The `mfa_tokens` table, in insertion order. */
    var pins: seq<PinRow>
    /** Messages the mail sender accepted. */
    var sent: seq<Mail>
    const maxLoginAttempts: int
    /** The one-way password hash (`BCrypt.hashpw`), given by the caller. */
    const hash: string -> string

    ghost predicate Valid()
      reads this
    {
      WellFormed(users)
    }

    constructor (users: Table, maxLoginAttempts: int, hash: string -> string)
      requires WellFormed(users)
      ensures Valid() && this.users == users && pins == [] && sent == []
      ensures this.maxLoginAttempts == maxLoginAttempts && this.hash == hash
    {
      this.users := users;
      this.pins := [];
      this.sent := [];
      this.maxLoginAttempts := maxLoginAttempts;
      this.hash := hash;
    }

    /** `verifyPassword` (`BCrypt.checkpw`): the raw password hashes to the stored hash. */
    function VerifyPassword(password: string, hashed: string): (ok: bool)
      reads this
      ensures ok <==> hash(password) == hashed
    {
      hash(password) == hashed
    }

    /** Registration with validation: a missing email, a missing password or an
        email already in use is refused with no change; otherwise the account
        is stored under a fresh id with the hashed password and defaults. The
        pre-persist hook runs after the defaults are filled, so the stored
        account is stamped with the save instant whatever the draft carried. */
    method Save(d: Draft, now: Time, freshId: UserId) returns (r: Result<Account, SaveError>)
      requires Valid() && freshId !in users
      modifies this
      ensures Valid() && pins == old(pins) && sent == old(sent)
      ensures d.email.None? ==> r == Failure(EmailRequired)
      ensures d.email.Some? && d.passwordHash.None? ==> r == Failure(PasswordRequired)
      ensures d.email.Some? && d.passwordHash.Some? && EmailTaken(old(users), d.email.value) ==>
                r == Failure(EmailAlreadyUsed)
      ensures r.Failure? <==> d.email.None? || d.passwordHash.None? || EmailTaken(old(users), d.email.value)
      ensures r.Failure? ==> users == old(users)
      ensures r.Success? ==>
                && d.email.Some? && d.passwordHash.Some?
                && r.value == OnCreate(Prepared(d, freshId, hash(d.passwordHash.value), now), now)
                && r.value.createdAt == Some(now) && r.value.updatedAt == Some(now)
                && users == old(users)[freshId := r.value]
                && FindByEmail(users, d.email.value) == Some(freshId)
                && VerifyPassword(d.passwordHash.value, r.value.passwordHash)
    {
      if d.email.None? {
        return Failure(EmailRequired);
      }
      if d.passwordHash.None? {
        return Failure(PasswordRequired);
      }
      if FindByEmail(users, d.email.value).Some? {
        return Failure(EmailAlreadyUsed);
      }
      var a := Prepared(d, freshId, hash(d.passwordHash.value), now);
      InsertKeepsWellFormed(users, a, now);
      users := Inserted(users, a, now);
      r := Success(users[freshId]);
    }

    /** `registerUser`: a new account with the hashed password and the entity's
        defaults; the email's unique constraint refuses a duplicate. */
    method RegisterUser(email: Email, password: string, now: Time, freshId: UserId) returns (r: Result<UserId, SaveError>)
      requires Valid() && freshId !in users
      modifies this
      ensures Valid() && pins == old(pins) && sent == old(sent)
      ensures r.Failure? <==> EmailTaken(old(users), email)
      ensures r.Failure? ==> r.error == EmailAlreadyUsed && users == old(users)
      ensures r.Success? ==>
                r.value == freshId && users == old(users)[freshId := OnCreate(NewAccount(freshId, email, hash(password)), now)]
    {
      if FindByEmail(users, email).Some? {
        return Failure(EmailAlreadyUsed);
      }
      var a := NewAccount(freshId, email, hash(password));
      InsertKeepsWellFormed(users, a, now);
      users := Inserted(users, a, now);
      r := Success(freshId);
    }

    function IsLoginAttemptsExceeded(email: Email): (r: bool)
      reads this
      requires Valid()
      ensures r <==> exists id :: id in users && users[id].email == email
                                  && users[id].failedLoginAttempts >= maxLoginAttempts
    {
      match FindByEmail(users, email)
      case None => false
      case Some(id) => AttemptsExceeded(users[id], maxLoginAttempts)
    }

    method IncrementFailedLoginAttempts(email: Email, now: Time)
      requires Valid()
      modifies this
      ensures Valid() && pins == old(pins) && sent == old(sent)
      ensures match FindByEmail(old(users), email)
        case None => users == old(users)
        case Some(id) =>
          users == Saved(old(users), AfterFailedLogin(old(users)[id], now, maxLoginAttempts), now)
    {
      match FindByEmail(users, email)
      case None =>
      case Some(id) =>
        var a := AfterFailedLogin(users[id], now, maxLoginAttempts);
        SaveKeepsWellFormed(users, a, now);
        users := Saved(users, a, now);
    }

    method ResetFailedLoginAttempts(email: Email, now: Time)
      requires Valid()
      modifies this
      ensures Valid() && pins == old(pins) && sent == old(sent)
      ensures match FindByEmail(old(users), email)
        case None => users == old(users)
        case Some(id) => users == Saved(old(users), AfterReset(old(users)[id]), now)
    {
      match FindByEmail(users, email)
      case None =>
      case Some(id) =>
        var a := AfterReset(users[id]);
        SaveKeepsWellFormed(users, a, now);
        users := Saved(users, a, now);
    }

    method IsAccountLocked(email: Email, now: Time) returns (locked: bool)
      requires Valid()
      modifies this
      ensures Valid() && pins == old(pins) && sent == old(sent)
      ensures match FindByEmail(old(users), email)
        case None => !locked && users == old(users)
        case Some(id) =>
          var v := CheckLock(old(users)[id], now);
          locked == v.locked && users == Saved(old(users), v.account, now)
      ensures locked ==> users == old(users)
    {
      match FindByEmail(users, email)
      case None =>
        locked := false;
      case Some(id) =>
        var v := CheckLock(users[id], now);
        SaveKeepsWellFormed(users, v.account, now);
        users := Saved(users, v.account, now);
        locked := v.locked;
    }

    /** `updateUser`: refused for an unknown id (and, by the email column's
        unique constraint, for an email another account holds); otherwise the
        given record is stored as is, except that it keeps the stored password
        hash and is stamped with the update instant. */
    method UpdateUser(u: Account, now: Time) returns (r: Result<Account, UpdateError>)
      requires Valid()
      modifies this
      ensures Valid() && pins == old(pins) && sent == old(sent)
      ensures u.id !in old(users) ==> r == Failure(UserNotFound)
      ensures r.Failure? ==> users == old(users)
      ensures r.Success? <==>
                u.id in old(users) && !(exists id :: id in old(users) && id != u.id && old(users)[id].email == u.email)
      ensures u.id in old(users) ==>
                (r == Failure(EmailConflict) <==>
                   exists id :: id in old(users) && id != u.id && old(users)[id].email == u.email)
      ensures r.Success? ==>
                && u.id in old(users)
                && r.value == u.(passwordHash := old(users)[u.id].passwordHash, updatedAt := Some(now))
                && users == old(users)[u.id := r.value]
    {
      if u.id !in users {
        return Failure(UserNotFound);
      }
      if exists id :: id in users && id != u.id && users[id].email == u.email {
        return Failure(EmailConflict);
      }
      var a := u.(passwordHash := users[u.id].passwordHash, updatedAt := Some(now));
      SaveKeepsWellFormed(users, a, now);
      users := Saved(users, a, now);
      r := Success(users[u.id]);
    }

    /** `verifyPin`: the query over the PIN table. */
    function VerifyPin(userId: UserId, pin: string, now: Time): (ok: bool)
      reads this
      ensures ok <==> exists i :: 0 <= i < |pins| && pins[i].userId == userId && pins[i].token == pin
                                  && !pins[i].used && pins[i].expiresAt > now
    {
      PinValid(pins, userId, pin, now)
    }

    /** `savePin`: appends a row that expires five minutes from now; earlier rows stay. */
    method SavePin(userId: UserId, pin: string, now: Time)
      modifies this
      ensures pins == old(pins) + [IssuedPin(userId, pin, now)]
      ensures users == old(users) && sent == old(sent)
    {
      pins := pins + [IssuedPin(userId, pin, now)];
    }

    /** `initiateLogin` with the drawn number `n` and whether the mail sender
        accepts the PIN mail. Unknown email or wrong password: empty and no
        change. Right password: a PIN is stored; the account is returned only
        if its mail was sent, and the stored PIN stays either way. Failure
        counters are never touched. */
    method InitiateLogin(email: Email, password: string, n: int, now: Time, sendOk: bool) returns (r: Option<Account>)
      requires Valid() && 0 <= n < PinRange
      modifies this
      ensures Valid() && users == old(users)
      ensures match FindByEmail(old(users), email)
        case None => r == None && pins == old(pins) && sent == old(sent)
        case Some(id) =>
          if !VerifyPassword(password, old(users)[id].passwordHash) then
            r == None && pins == old(pins) && sent == old(sent)
          else
            && pins == old(pins) + [IssuedPin(id, FormatPin(n), now)]
            && (sendOk ==> r == Some(old(users)[id]) && sent == old(sent) + [PinMail(email, FormatPin(n))])
            && (!sendOk ==> r == None && sent == old(sent))
    {
      var found := FindByEmail(users, email);
      if found.None? || !VerifyPassword(password, users[found.value].passwordHash) {
        return None;
      }
      var id := found.value;
      var pin := FormatPin(n);
      SavePin(id, pin, now);
      if sendOk {
        sent := sent + [PinMail(email, pin)];
        r := Some(users[id]);
      } else {
        r := None;
      }
    }

    /** `verifyPinAndLogin`: with a valid PIN the account's status becomes
        connected and the saved account is returned; the PIN table is never
        changed, so the same PIN is accepted again until it expires. */
    method VerifyPinAndLogin(email: Email, pin: string, now: Time) returns (r: Option<Account>)
      requires Valid()
      modifies this
      ensures Valid() && pins == old(pins) && sent == old(sent)
      ensures match FindByEmail(old(users), email)
        case None => r == None && users == old(users)
        case Some(id) =>
          if !VerifyPin(id, pin, now) then
            r == None && users == old(users)
          else
            && users == Saved(old(users), old(users)[id].(status := Some(Connected)), now)
            && r == Some(users[id])
            && users[id].status == Some(Connected)
            && VerifyPin(id, pin, now)
    {
      var found := FindByEmail(users, email);
      if found.None? || !VerifyPin(found.value, pin, now) {
        return None;
      }
      var id := found.value;
      var a := users[id].(status := Some(Connected));
      SaveKeepsWellFormed(users, a, now);
      users := Saved(users, a, now);
      r := Some(users[id]);
    }
  }
}
