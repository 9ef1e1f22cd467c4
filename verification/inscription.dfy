/** auth/Inscription.java: registration with a verification token valid for
    24 hours, and the one-way `Unverified -> Verified` transition that
    redeems it. */
module EmailVerification {
  import opened Common
  import opened Entity
  import opened Users

  /** Validity of a verification link, in minutes (24 hours). */
  const VerificationMinutes := 24 * 60

  datatype RegisterOutcome = Created | EmailExists | RegistrationError {
    /** The HTTP status of the reply. */
    function Status(): int {
      match this
      case Created => 201
      case EmailExists => 400
      case RegistrationError => 500
    }
  }

  datatype VerifyOutcome = Verified | InvalidToken | TokenExpired | VerificationError {
    /** The HTTP status of the reply; a failure the handler does not catch becomes 500. */
    function Status(): int {
      match this
      case Verified => 200
      case InvalidToken => 400
      case TokenExpired => 400
      case VerificationError => 500
    }
  }

  /** The account `register` persists: the encoded password, the verification
      token with its expiry 24 hours from now, stamped by the pre-persist hook. */
  function Registered(id: UserId, email: Email, hashed: string, token: Token, now: Time): (a: Account)
    ensures a.id == id && a.email == email && a.passwordHash == hashed
    ensures !a.isEmailVerified
    ensures a.emailVerificationToken == Some(token)
    ensures a.emailVerificationExpiry == Some(now + VerificationMinutes)
    ensures a.failedLoginAttempts == 0 && !a.accountLocked && a.accountLockedUntil == None
    ensures a.createdAt == Some(now) && a.updatedAt == Some(now)
  {
    OnCreate(Pending(id, email, hashed, token, now), now)
  }

  /** The account `register` hands to the repository, before the pre-persist hook. */
  function Pending(id: UserId, email: Email, hashed: string, token: Token, now: Time): (a: Account)
    ensures a.id == id && a.email == email && a.passwordHash == hashed
    ensures !a.isEmailVerified && a.failedLoginAttempts == 0 && !a.accountLocked
    ensures a.emailVerificationToken == Some(token)
    ensures a.emailVerificationExpiry == Some(now + VerificationMinutes)
  {
    NewAccount(id, email, hashed).(
      emailVerificationToken := Some(token),
      emailVerificationExpiry := Some(now + VerificationMinutes))
  }

  /** The verified account: flag set, token and expiry cleared, nothing else changed. */
  function Confirmed(a: Account): (r: Account)
    ensures r.isEmailVerified && r.emailVerificationToken == None && r.emailVerificationExpiry == None
    ensures r.(isEmailVerified := a.isEmailVerified, emailVerificationToken := a.emailVerificationToken,
               emailVerificationExpiry := a.emailVerificationExpiry) == a
  {
    a.(isEmailVerified := true, emailVerificationToken := None, emailVerificationExpiry := None)
  }

  /** What `verifyEmail` answers and the table it leaves. */
  datatype Verification = Verification(outcome: VerifyOutcome, users: Table)

  /** `verifyEmail`. No holder of the token: invalid. Several holders: the
      single-result finder fails. A holder without an expiry: the expiry read
      fails. An expiry strictly before now: expired, and the token is kept as
      it is. Otherwise the account is confirmed and saved. */
  ghost function VerifyEmailStep(t: Table, token: Token, now: Time): (v: Verification)
    requires WellFormed(t)
    ensures v.outcome == InvalidToken <==> TokenHolders(t, token) == {}
    ensures v.outcome != Verified ==> v.users == t
    ensures v.outcome.Verified? || v.outcome.TokenExpired? ==>
              exists id :: TokenHolders(t, token) == {id} && t[id].emailVerificationExpiry.Some?
                && (v.outcome.TokenExpired? <==> t[id].emailVerificationExpiry.value < now)
  {
    var holders := TokenHolders(t, token);
    if forall id :: id !in holders then Verification(InvalidToken, t)
    else
      var id :| id in holders;
      if holders != {id} then Verification(VerificationError, t)
      else if t[id].emailVerificationExpiry.None? then Verification(VerificationError, t)
      else if t[id].emailVerificationExpiry.value < now then Verification(TokenExpired, t)
      else Verification(Verified, Saved(t, Confirmed(t[id]), now))
  }

  /** Only a successful verification changes the table; it confirms exactly
      the one holder of the token and keeps the table well formed. */
  lemma VerifyEmailEffect(t: Table, token: Token, now: Time)
    requires WellFormed(t)
    ensures var v := VerifyEmailStep(t, token, now);
      && WellFormed(v.users)
      && (v.outcome != Verified ==> v.users == t)
      && (v.outcome == Verified ==>
            exists id :: TokenHolders(t, token) == {id} && v.users == Saved(t, Confirmed(t[id]), now))
  {
  }

  /** A token that no account holds is refused as invalid, with no change. */
  lemma UnknownTokenIsInvalid(t: Table, token: Token, now: Time)
    requires WellFormed(t) && forall id :: id in t ==> t[id].emailVerificationToken != Some(token)
    ensures VerifyEmailStep(t, token, now) == Verification(InvalidToken, t)
  {
  }

  /** For the sole holder of a token: an expiry strictly before now is refused
      as expired and the token and expiry are left in place (not
      regenerated); an expiry at or after now confirms the account. */
  lemma SoleHolderOutcome(t: Table, id: UserId, token: Token, now: Time)
    requires WellFormed(t) && TokenHolders(t, token) == {id}
    requires t[id].emailVerificationExpiry.Some?
    ensures t[id].emailVerificationExpiry.value < now ==>
              VerifyEmailStep(t, token, now) == Verification(TokenExpired, t)
    ensures now <= t[id].emailVerificationExpiry.value ==>
              VerifyEmailStep(t, token, now) == Verification(Verified, Saved(t, Confirmed(t[id]), now))
  {
  }

  /** Verification is one-way: after a success, presenting the same token
      again at any later instant is refused as invalid, and the account stays verified. */
  lemma VerifiedTokenIsSpent(t: Table, token: Token, now: Time, later: Time)
    requires WellFormed(t) && VerifyEmailStep(t, token, now).outcome == Verified
    ensures var t' := VerifyEmailStep(t, token, now).users;
      && WellFormed(t')
      && VerifyEmailStep(t', token, later) == Verification(InvalidToken, t')
      && (forall id :: id in TokenHolders(t, token) ==> t'[id].isEmailVerified)
  {
  }

  /** A freshly registered account, whose token no other account holds, is
      confirmed by its link at any instant up to and including 24 hours after
      registration, and refused as expired afterwards. */
  lemma RegisteredLinkWindow(t: Table, id: UserId, email: Email, hashed: string, token: Token, now: Time, at: Time)
    requires WellFormed(t) && id !in t && !EmailTaken(t, email) && TokenHolders(t, token) == {}
    ensures var t' := t[id := Registered(id, email, hashed, token, now)];
      && WellFormed(t')
      && (at <= now + VerificationMinutes ==> VerifyEmailStep(t', token, at).outcome == Verified)
      && (at > now + VerificationMinutes ==> VerifyEmailStep(t', token, at) == Verification(TokenExpired, t'))
  {
    var a := Registered(id, email, hashed, token, now);
    var t' := t[id := a];
    forall j | j in t' ensures j in TokenHolders(t', token) <==> j == id {
      if j != id { assert j !in TokenHolders(t, token); }
    }
    assert TokenHolders(t', token) == {id};
    SoleHolderOutcome(t', id, token, at);
  }

  class Inscription {
    var users: Table
    /** Messages the mail sender accepted. */
    var sent: seq<Mail>
    /** The password encoder's one-way hash, given by the caller. */
    const encode: string -> string

    ghost predicate Valid()
      reads this
    {
      WellFormed(users)
    }

    constructor (users: Table, encode: string -> string)
      requires WellFormed(users)
      ensures Valid() && this.users == users && sent == [] && this.encode == encode
    {
      this.users := users;
      this.sent := [];
      this.encode := encode;
    }

    /** `register` with the fresh id and token drawn for it and whether the
        mail sender accepts the verification mail. A taken email is refused
        with 400 and nothing stored or sent. A missing email or password fails
        before anything is stored. Otherwise the account is stored first; a
        failed send then turns the reply into 500 but the account remains. */
    method Register(email: Option<Email>, rawPassword: Option<string>, now: Time,
                    freshId: UserId, token: Token, sendOk: bool) returns (outcome: RegisterOutcome)
      requires Valid() && freshId !in users && TokenHolders(users, token) == {}
      modifies this
      ensures Valid()
      ensures email.Some? && EmailTaken(old(users), email.value) ==>
                outcome == EmailExists && users == old(users) && sent == old(sent)
      ensures email.None? || (!EmailTaken(old(users), email.value) && rawPassword.None?) ==>
                outcome == RegistrationError && users == old(users) && sent == old(sent)
      ensures email.Some? && !EmailTaken(old(users), email.value) && rawPassword.Some? ==>
                && users == old(users)[freshId := Registered(freshId, email.value, encode(rawPassword.value), token, now)]
                && (sendOk ==> outcome == Created && sent == old(sent) + [VerificationMail(email.value, token)])
                && (!sendOk ==> outcome == RegistrationError && sent == old(sent))
    {
      if email.None? {
        return RegistrationError;
      }
      if FindByEmail(users, email.value).Some? {
        return EmailExists;
      }
      if rawPassword.None? {
        return RegistrationError;
      }
      var a := Pending(freshId, email.value, encode(rawPassword.value), token, now);
      InsertKeepsWellFormed(users, a, now);
      users := Inserted(users, a, now);
      if sendOk {
        sent := sent + [VerificationMail(email.value, token)];
        outcome := Created;
      } else {
        outcome := RegistrationError;
      }
    }

    /** `verifyEmail`. */
    method VerifyEmail(token: Token, now: Time) returns (outcome: VerifyOutcome)
      requires Valid()
      modifies this
      ensures Valid() && sent == old(sent)
      ensures Verification(outcome, users) == VerifyEmailStep(old(users), token, now)
    {
      VerifyEmailEffect(users, token, now);
      var holders := TokenHolders(users, token);
      if forall j :: j !in holders {
        return InvalidToken;
      }
      var id :| id in holders;
      if holders != {id} {
        return VerificationError;
      }
      var a := users[id];
      if a.emailVerificationExpiry.None? {
        return VerificationError;
      }
      if a.emailVerificationExpiry.value < now {
        return TokenExpired;
      }
      users := Saved(users, Confirmed(a), now);
      outcome := Verified;
    }
  }
}
