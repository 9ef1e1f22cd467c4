/** services/SessionService.java: issues one session per user, validates and
    slides sessions, logs out, and sweeps stale sessions, all through the
    session repository. */
module SessionService {
  import opened Common
  import opened Sessions

  class SessionService {
    const repo: SessionRepository
    /** The configured `app.session.timeout-minutes`. */
    const sessionTimeoutMinutes: int

    /** At most one session per user, and validated sessions expire one timeout after their last activity. */
    ghost predicate Valid()
      reads this, repo
    {
      OnePerOwner(repo.rows) && Sliding(repo.rows, sessionTimeoutMinutes)
    }

    constructor (repo: SessionRepository, sessionTimeoutMinutes: int)
      requires OnePerOwner(repo.rows) && Sliding(repo.rows, sessionTimeoutMinutes)
      ensures Valid() && this.repo == repo && this.sessionTimeoutMinutes == sessionTimeoutMinutes
    {
      this.repo := repo;
      this.sessionTimeoutMinutes := sessionTimeoutMinutes;
    }

    /** `createSession` with the freshly drawn token. */
    method CreateSession(userId: UserId, now: Time, token: Token) returns (s: Session)
      requires Valid() && token !in repo.rows
      modifies repo
      ensures Valid()
      ensures repo.rows == Created(old(repo.rows), userId, token, now, sessionTimeoutMinutes)
      ensures s == Session(userId, now + sessionTimeoutMinutes, None) && repo.rows[token] == s
      ensures forall t :: t in repo.rows && repo.rows[t].owner == userId ==> t == token
    {
      CreateKeepsInvariants(repo.rows, userId, token, now, sessionTimeoutMinutes);
      repo.DeleteByUserId(userId);
      s := Session(userId, now + sessionTimeoutMinutes, None);
      repo.Save(token, s);
    }

    /** `validateAndUpdateSession`. */
    method ValidateAndUpdateSession(token: Token, now: Time) returns (valid: bool)
      requires Valid()
      modifies repo
      ensures Valid()
      ensures Validation(valid, repo.rows) == Validated(old(repo.rows), token, now, sessionTimeoutMinutes)
      ensures !valid ==> token !in repo.rows
      ensures valid ==> repo.rows[token].expiresAt == now + sessionTimeoutMinutes
                        && repo.rows[token].lastActivity == Some(now)
    {
      ValidateKeepsInvariants(repo.rows, token, now, sessionTimeoutMinutes);
      var found := repo.FindByToken(token);
      if found.None? {
        return false;
      }
      var s := found.value;
      if now > s.expiresAt {
        repo.Delete(token);
        return false;
      }
      repo.Save(token, s.(lastActivity := Some(now), expiresAt := now + sessionTimeoutMinutes));
      valid := true;
    }

    /** `invalidateSession`: logout; an absent token is not an error. */
    method InvalidateSession(token: Token)
      requires Valid()
      modifies repo
      ensures Valid()
      ensures repo.rows == Invalidated(old(repo.rows), token)
    {
      InvalidateKeepsInvariants(repo.rows, token, sessionTimeoutMinutes);
      var found := repo.FindByToken(token);
      if found.Some? {
        repo.Delete(token);
      }
    }

    /** `cleanupExpiredSessions`: drops the sessions expired before now or idle for longer than the timeout. */
    method CleanupExpiredSessions(now: Time)
      requires Valid()
      modifies repo
      ensures Valid()
      ensures repo.rows == Swept(old(repo.rows), now, sessionTimeoutMinutes)
      ensures forall t :: t in repo.rows <==> t in old(repo.rows) && now <= old(repo.rows)[t].expiresAt
    {
      SweepKeepsInvariants(repo.rows, now, sessionTimeoutMinutes);
      SweepMatchesLazyExpiry(repo.rows, now, sessionTimeoutMinutes);
      repo.DeleteExpiredSessions(now, now - sessionTimeoutMinutes);
    }
  }
}
