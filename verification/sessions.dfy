/** The session table of repositories/SessionRepository.java: sessions keyed
    by their unique token, the token finder, and the two bulk deletes; plus
    the state changes of services/SessionService.java as functions on the
    table, with the properties that relate them. */
module Sessions {
  import opened Common

  /** A session row. `lastActivity` is absent until the first successful validation. */
  datatype Session = Session(owner: UserId, expiresAt: Time, lastActivity: Option<Time>)

  type SessionTable = map<Token, Session>

  /** The condition of `deleteExpiredSessions`: expired before the first
      instant, or last active before the second. Both comparisons are strict,
      and an absent `lastActivity` never satisfies the second one (a comparison
      with SQL NULL is not true). */
  predicate Stale(s: Session, expirationTime: Time, inactivityTime: Time) {
    s.expiresAt < expirationTime || (s.lastActivity.Some? && s.lastActivity.value < inactivityTime)
  }

  /** The table after `deleteExpiredSessions`: exactly the stale rows are gone. */
  function WithoutStale(rows: SessionTable, expirationTime: Time, inactivityTime: Time): (r: SessionTable)
    ensures forall t :: t in r <==> t in rows && !Stale(rows[t], expirationTime, inactivityTime)
    ensures forall t :: t in r ==> r[t] == rows[t]
  {
    map t | t in rows && !Stale(rows[t], expirationTime, inactivityTime) :: rows[t]
  }

  /** The table after `deleteByUser_Id`: exactly the user's rows are gone. */
  function WithoutOwner(rows: SessionTable, userId: UserId): (r: SessionTable)
    ensures forall t :: t in r <==> t in rows && rows[t].owner != userId
    ensures forall t :: t in r ==> r[t] == rows[t]
  {
    map t | t in rows && rows[t].owner != userId :: rows[t]
  }

  /** Both bulk deletes are idempotent. */
  lemma BulkDeletesIdempotent(rows: SessionTable, expirationTime: Time, inactivityTime: Time, userId: UserId)
    ensures WithoutStale(WithoutStale(rows, expirationTime, inactivityTime), expirationTime, inactivityTime)
            == WithoutStale(rows, expirationTime, inactivityTime)
    ensures WithoutOwner(WithoutOwner(rows, userId), userId) == WithoutOwner(rows, userId)
  {
  }

  /** `createSession`: the user's earlier sessions are dropped and one new
      session under the fresh token expires one timeout from now. */
  function Created(rows: SessionTable, userId: UserId, token: Token, now: Time, timeout: int): (r: SessionTable)
    ensures token in r && r[token] == Session(userId, now + timeout, None)
    ensures forall t :: t in r && r[t].owner == userId ==> t == token
    ensures forall t :: t in rows && rows[t].owner != userId && t != token ==> t in r && r[t] == rows[t]
    ensures forall t :: t in r ==> t == token || (t in rows && rows[t].owner != userId)
  {
    WithoutOwner(rows, userId)[token := Session(userId, now + timeout, None)]
  }

  /** What `validateAndUpdateSession` answers and the table it leaves. */
  datatype Validation = Validation(valid: bool, rows: SessionTable)

  /** `validateAndUpdateSession`: an unknown token is refused with no change; a
      session strictly past its expiry is deleted and refused; otherwise its
      window slides to one timeout from now. */
  function Validated(rows: SessionTable, token: Token, now: Time, timeout: int): (v: Validation)
    ensures token !in rows ==> v == Validation(false, rows)
    ensures token in rows && now > rows[token].expiresAt ==> v == Validation(false, rows - {token})
    ensures token in rows && now <= rows[token].expiresAt ==>
              && v.valid
              && v.rows == rows[token := rows[token].(lastActivity := Some(now), expiresAt := now + timeout)]
  {
    if token !in rows then Validation(false, rows)
    else if now > rows[token].expiresAt then Validation(false, rows - {token})
    else Validation(true, rows[token := rows[token].(lastActivity := Some(now), expiresAt := now + timeout)])
  }

  /** `invalidateSession`: the token's session is gone, whether or not it was there. */
  function Invalidated(rows: SessionTable, token: Token): (r: SessionTable)
    ensures token !in r
    ensures forall t :: t in r <==> t in rows && t != token
    ensures forall t :: t in r ==> r[t] == rows[t]
  {
    rows - {token}
  }

  /** Logging out twice is logging out once, and logging out an absent token changes nothing. */
  lemma LogoutIdempotent(rows: SessionTable, token: Token)
    ensures Invalidated(Invalidated(rows, token), token) == Invalidated(rows, token)
    ensures token !in rows ==> Invalidated(rows, token) == rows
  {
  }

  /** `cleanupExpiredSessions` at `now`: the bulk delete with the current
      instant and the instant one timeout ago. Survivors are untouched and not
      yet past their expiry; a session is kept exactly when it has neither
      expired nor been idle longer than the timeout. */
  function Swept(rows: SessionTable, now: Time, timeout: int): (r: SessionTable)
    ensures forall t :: t in r ==> t in rows && r[t] == rows[t] && now <= r[t].expiresAt
    ensures forall t ::
              && t in rows && now <= rows[t].expiresAt
              && (rows[t].lastActivity.None? || now - timeout <= rows[t].lastActivity.value)
              ==> t in r
  {
    WithoutStale(rows, now, now - timeout)
  }

  /** At most one session per user. */
  predicate OnePerOwner(rows: SessionTable) {
    forall t1, t2 :: t1 in rows && t2 in rows && rows[t1].owner == rows[t2].owner ==> t1 == t2
  }

  /** A session that has been validated expires exactly one timeout after its last activity. */
  predicate Sliding(rows: SessionTable, timeout: int) {
    forall t :: t in rows && rows[t].lastActivity.Some? ==>
      rows[t].expiresAt == rows[t].lastActivity.value + timeout
  }

  /** Creating a session keeps both invariants. */
  lemma CreateKeepsInvariants(rows: SessionTable, userId: UserId, token: Token, now: Time, timeout: int)
    requires OnePerOwner(rows) && Sliding(rows, timeout)
    ensures OnePerOwner(Created(rows, userId, token, now, timeout))
    ensures Sliding(Created(rows, userId, token, now, timeout), timeout)
  {
  }

  /** Validating a token keeps both invariants. */
  lemma ValidateKeepsInvariants(rows: SessionTable, token: Token, now: Time, timeout: int)
    requires OnePerOwner(rows) && Sliding(rows, timeout)
    ensures OnePerOwner(Validated(rows, token, now, timeout).rows)
    ensures Sliding(Validated(rows, token, now, timeout).rows, timeout)
  {
  }

  /** Logging out keeps both invariants. */
  lemma InvalidateKeepsInvariants(rows: SessionTable, token: Token, timeout: int)
    requires OnePerOwner(rows) && Sliding(rows, timeout)
    ensures OnePerOwner(Invalidated(rows, token)) && Sliding(Invalidated(rows, token), timeout)
  {
  }

  /** Sweeping keeps both invariants. */
  lemma SweepKeepsInvariants(rows: SessionTable, now: Time, timeout: int)
    requires OnePerOwner(rows) && Sliding(rows, timeout)
    ensures OnePerOwner(Swept(rows, now, timeout)) && Sliding(Swept(rows, now, timeout), timeout)
  {
  }

  /** A refused token stays refused: after a failed validation, no later
      validation of the same token succeeds. */
  lemma RefusedStaysRefused(rows: SessionTable, token: Token, now: Time, later: Time, timeout: int)
    requires !Validated(rows, token, now, timeout).valid
    ensures token !in Validated(rows, token, now, timeout).rows
    ensures !Validated(Validated(rows, token, now, timeout).rows, token, later, timeout).valid
  {
  }

  /** A new login displaces the old one: once a second session is created for
      the same user, the first token no longer validates. */
  lemma NewSessionDisplacesOld(rows: SessionTable, userId: UserId, first: Token, second: Token, now: Time, later: Time, timeout: int)
    requires first in rows && rows[first].owner == userId && first != second
    ensures !Validated(Created(rows, userId, second, now, timeout), first, later, timeout).valid
  {
  }

  /** Validation at the expiry instant itself still succeeds, and leaves the
      session expiring one timeout after this activity. */
  lemma ValidationSlidesAtBoundary(rows: SessionTable, token: Token, timeout: int)
    requires token in rows
    ensures var now := rows[token].expiresAt;
      var v := Validated(rows, token, now, timeout);
      && v.valid && v.rows[token].lastActivity == Some(now)
      && v.rows[token].expiresAt == v.rows[token].lastActivity.value + timeout
  {
  }

  /** The sweep agrees with the lazy check of validation: while expiries slide
      with activity, a session is swept at `now` exactly when a validation at
      `now` would refuse it; the inactivity clause removes nothing more. */
  lemma SweepMatchesLazyExpiry(rows: SessionTable, now: Time, timeout: int)
    requires Sliding(rows, timeout)
    ensures forall t :: t in rows ==> (Stale(rows[t], now, now - timeout) <==> now > rows[t].expiresAt)
    ensures forall t :: t in rows ==> (t in Swept(rows, now, timeout) <==> Validated(rows, t, now, timeout).valid)
  {
  }

  /** The repository over the session table. */
  class SessionRepository {
    var rows: SessionTable

    constructor ()
      ensures rows == map[]
    {
      rows := map[];
    }

    /** `findByToken`: the session stored under the token, if any. */
    function FindByToken(token: Token): (r: Option<Session>)
      reads this
      ensures r.Some? <==> token in rows
      ensures r.Some? ==> r.value == rows[token]
    {
      if token in rows then Some(rows[token]) else None
    }

    method Save(token: Token, s: Session)
      modifies this
      ensures rows == old(rows)[token := s]
    {
      rows := rows[token := s];
    }

    method Delete(token: Token)
      modifies this
      ensures rows == old(rows) - {token}
    {
      rows := rows - {token};
    }

    method DeleteExpiredSessions(expirationTime: Time, inactivityTime: Time)
      modifies this
      ensures rows == WithoutStale(old(rows), expirationTime, inactivityTime)
    {
      rows := WithoutStale(rows, expirationTime, inactivityTime);
    }

    method DeleteByUserId(userId: UserId)
      modifies this
      ensures rows == WithoutOwner(old(rows), userId)
    {
      rows := WithoutOwner(rows, userId);
    }
  }
}
