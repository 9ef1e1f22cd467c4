# Account-security core of authAPI, modelled in Dafny

This project models the account-security state machine of the authAPI
Spring service. It covers two in-memory stores: the `users` table, keyed
by id with a unique email column, and the session table, keyed by its
unique token. Over them it models:

- the brute-force lockout bookkeeping (failure counter, threshold, a lock
  with a one-hour expiry, lazy unlock on read), which
  `services/UserService.java` and `service/UserService.java` share line
  for line;
- the `service/UserService.java` variant: validated registration with
  defaults, record updates that keep the stored password hash, and a PIN
  second factor held in an append-only table with a five-minute lifetime;
- email verification in `auth/Inscription.java`: registration issues a
  token valid for 24 hours, and redeeming it is a one-way
  `Unverified -> Verified` transition;
- the session manager `services/SessionService.java` with the queries of
  `repositories/SessionRepository.java`: one session per user, sliding
  expiry on validation, lazy deletion on an expired read, idempotent logout,
  and a periodic sweep.

Time is a whole number of minutes passed in as `now`. The password hash is
a function supplied when a service is constructed; a password check is
"the raw password hashes to the stored hash". Random tokens and the random
PIN draw are parameters, constrained by freshness or range preconditions.
Each delivery attempt by the mail sender is a `sendOk` parameter, and
accepted messages are appended to a `sent` log.

Layout, one module per file: `Common` (common.dfy), `Entity`
(entity.dfy, the account record and its persistence hooks), `Users`
(users.dfy, the users table and what saving an entity does to it),
`Lockout` (lockout.dfy), `LoginGuard` (login_guard.dfy,
services/UserService.java), `Pins` (pins.dfy) and `AccountService`
(account_service.dfy, service/UserService.java), `Sessions` (sessions.dfy,
the session table and repository), `SessionService` (session_service.dfy),
`EmailVerification` (inscription.dfy, auth/Inscription.java).

Every state-changing method is proved against a specification function of
the old state: for example `users == Saved(old(users), AfterFailedLogin(...), now)`
or `repo.rows == Created(old(repo.rows), ...)`. The properties of those
functions are then proved as lemmas. The session service also keeps a class
invariant: at most one session per user, and a validated session expires
exactly one timeout after its last activity.

## How the model reads the persistence layer

- Saving a new entity runs the pre-persist hook of `entity/User.java`, so
  both timestamps become the save instant. Saving a loaded entity runs the
  pre-update hook only when the record actually changed; an unchanged
  record is not written (`Users.Saved`). As a consequence, the
  "only if absent" timestamp defaults of `save` in
  `service/UserService.java` are always overwritten by the hook
  (`AccountService.AccountService.Save`).
- `auth/Inscription.java` declares its request body as `models/User`,
  but its repository is typed over `entity/User`. The model follows the
  repository, so the entity's hooks apply to registration too.
- `findByEmailVerificationToken` returns at most one row. If several
  accounts hold the token, the finder fails and the handler, which does not
  catch it, answers 500. An account holding a token without an expiry makes
  the expiry read fail, also 500.
- In `incrementFailedLoginAttempts` the threshold test re-reads the
  account in the same persistence context, so it sees the incremented
  count.
- `isAccountLocked` runs in a read-only transaction but calls `save`
  explicitly. The model persists the lazy unlock as that call asks.

## Behaviour worth noting

- An expired verification token is only refused; it is not regenerated
  and nothing is re-sent (`EmailVerification.SoleHolderOutcome`).
- Presenting a verification token a second time is answered as an invalid
  token, because the first success cleared it
  (`EmailVerification.VerifiedTokenIsSpent`).
- Every failure at or above the threshold re-stamps the lock expiry to an
  hour from that failure. An active lock is extended, not kept
  (`Lockout.FailureAtThresholdRestampsLock`).
- A lock flag without an expiry is reported as not locked
  (`Lockout.LockWithoutExpiryIsOpen`).
- PINs are appended, never overwritten, and nothing marks a PIN used. A PIN
  is accepted again until it expires, and issuing a new PIN does not revoke
  earlier ones (`Pins.IssuingKeepsEarlierPins`,
  `AccountService.AccountService.VerifyPinAndLogin`).
- `initiateLogin` never touches the failure counters, and a failed mail
  send still leaves the stored PIN behind.

## Model

| member | source | states |
|---|---|---|
| Entity.NewAccount | src/main/java/com/remix/authAPI/entity/User.java:13-58 | a new account is unverified, has zero login and second-factor failure counts, is unlocked, and has no token, expiry, lock time, code or timestamp |
| Entity.OnCreate | src/main/java/com/remix/authAPI/entity/User.java:60-64 | the pre-persist hook sets createdAt and updatedAt to the same instant and changes nothing else |
| Entity.OnUpdate | src/main/java/com/remix/authAPI/entity/User.java:66-69 | the pre-update hook sets updatedAt to now and keeps every other column, createdAt included |
| Users.FindByEmail | src/main/java/com/remix/authAPI/repositories/UserRepository.java:8 | the finder returns the one account holding the email, and returns nothing exactly when no account holds it |
| Users.TokenHolders | src/main/java/com/remix/authAPI/repositories/UserRepository.java:9 | the token finder's candidates are exactly the accounts whose pending verification token is the given token |
| Users.Inserted | src/main/java/com/remix/authAPI/entity/User.java:60-64 | persisting a new entity adds exactly its id, keeps every other row, and stores the entity with both timestamps set to the insert instant |
| Users.Saved | src/main/java/com/remix/authAPI/entity/User.java:66-69 | saving an entity back keeps the key set and every other row; an unchanged entity leaves the table exactly as it was, a changed one is stored after the pre-update hook stamps it with now |
| Users.InsertKeepsWellFormed | src/main/java/com/remix/authAPI/entity/User.java:15-16 | inserting under a fresh id with an unused email keeps emails unique, and the email then finds the new id |
| Users.SaveKeepsWellFormed | src/main/java/com/remix/authAPI/entity/User.java:15-16 | writing back an account whose email no other row holds keeps emails unique |
| Lockout.AfterFailedLogin | src/main/java/com/remix/authAPI/services/UserService.java:58-70 | a failure raises the counter by exactly one and records its time; at or above the threshold the account is locked until now plus 60 minutes, below it the lock columns are unchanged; nothing else changes |
| Lockout.AfterReset | src/main/java/com/remix/authAPI/services/UserService.java:73-81 | reset sets the counter to 0 and clears the last-failure time, the lock flag and the lock expiry, changing nothing else |
| Lockout.CheckLock | src/main/java/com/remix/authAPI/services/UserService.java:84-101 | locked exactly when flagged with an expiry and now is not strictly after it (then nothing changes); strictly after it, the lock, expiry and counter are cleared; a flag without expiry reads as open |
| Lockout.NewAccountIsLockConsistent | src/main/java/com/remix/authAPI/entity/User.java:36-40 | a new account satisfies the lockout invariant and is not locked |
| Lockout.TransitionsKeepLockConsistent | src/main/java/com/remix/authAPI/services/UserService.java:58-101 | failure, reset and lock check all keep the invariant that a lock carries an expiry and only an account at the threshold is locked |
| Lockout.FailureAtThresholdRestampsLock | src/main/java/com/remix/authAPI/services/UserService.java:63-66 | a further failure at or above the threshold re-stamps the lock to now plus 60 minutes |
| Lockout.ResetIdempotent | src/main/java/com/remix/authAPI/services/UserService.java:73-81 | resetting twice equals resetting once |
| Lockout.LockWithoutExpiryIsOpen | src/main/java/com/remix/authAPI/services/UserService.java:87-98 | an account flagged locked without an expiry is reported open and left as it is |
| Lockout.LazyUnlockIsFinal | src/main/java/com/remix/authAPI/services/UserService.java:89-94 | after a lazy unlock the counter is 0, the last-failure time is kept, and every later read reports open without change |
| Lockout.FailedLoginsCount | src/main/java/com/remix/authAPI/services/UserService.java:60-61 | a run of failures adds its length to the counter, records the last instant and leaves non-lockout columns untouched |
| Lockout.FailedLoginsLock | src/main/java/com/remix/authAPI/services/UserService.java:63-66 | once a run reaches the threshold the account is locked until one hour after the run's last failure |
| Lockout.ThresholdFailuresLockForAnHour | src/main/java/com/remix/authAPI/services/UserService.java:58-101 | from zero, threshold-many failures lock the account: reads up to one hour after the last failure report locked and change nothing, the first read after it unlocks with a zero count |
| LoginGuard.LoginGuard.IsLoginAttemptsExceeded | src/main/java/com/remix/authAPI/services/UserService.java:48-55 | true exactly when an account holds the email and its counter has reached the threshold; false for an unknown email |
| LoginGuard.LoginGuard.IncrementFailedLoginAttempts | src/main/java/com/remix/authAPI/services/UserService.java:58-70 | the found account becomes its failure transition, saved back; an unknown email changes nothing |
| LoginGuard.LoginGuard.ResetFailedLoginAttempts | src/main/java/com/remix/authAPI/services/UserService.java:73-81 | the found account becomes its reset, saved back; an unknown email changes nothing |
| LoginGuard.LoginGuard.IsAccountLocked | src/main/java/com/remix/authAPI/services/UserService.java:84-101 | answers as the lock check and saves the lazily unlocked account; an unknown email is open; a locked answer changes nothing |
| Pins.ZeroPadded | src/main/java/com/remix/authAPI/service/UserService.java:224 | the padded rendering has exactly the requested width and only decimal digits |
| Pins.ZeroPaddedValue | src/main/java/com/remix/authAPI/service/UserService.java:224 | padding to a wide enough width loses nothing: the digits read back as the number |
| Pins.FormatPin | src/main/java/com/remix/authAPI/service/UserService.java:222-225 | a generated PIN is six decimal digits, zero-padded, and reads back as the drawn number below 1000000 |
| Pins.FormatPinInjective | src/main/java/com/remix/authAPI/service/UserService.java:222-225 | distinct draws give distinct PINs |
| Pins.IssuedPin | src/main/java/com/remix/authAPI/service/UserService.java:227-231 | the row a PIN save inserts is unused, expires five minutes after issue, and redeems only that user's PIN, only strictly before that expiry |
| Pins.PinValid | src/main/java/com/remix/authAPI/service/UserService.java:256-258 | a PIN is valid exactly when some row holds that user and PIN, is unused and expires strictly after now |
| Pins.SavedPinWindow | src/main/java/com/remix/authAPI/service/UserService.java:253-261 | a PIN saved at t is accepted at every instant strictly before t plus 5 and, absent other matching rows, refused from t plus 5 on |
| Pins.IssuingKeepsEarlierPins | src/main/java/com/remix/authAPI/service/UserService.java:227-231 | the PIN table is append-only: a new row never invalidates a PIN that was valid |
| Pins.PinIsBoundToUser | src/main/java/com/remix/authAPI/service/UserService.java:256-258 | a PIN issued to one user never validates for another |
| AccountService.Prepared | src/main/java/com/remix/authAPI/service/UserService.java:71-84 | save stores the hash of the raw password and fills verified false, count 0, unlocked, status disconnected and both timestamps only where the draft left them null |
| AccountService.AccountService.VerifyPassword | src/main/java/com/remix/authAPI/service/UserService.java:170-172 | a password checks exactly when it hashes to the stored hash |
| AccountService.AccountService.Save | src/main/java/com/remix/authAPI/service/UserService.java:57-88 | refused exactly when the email is null, the password is null or the email is taken (reported in that order), with no store change; otherwise the prepared account is stored under the fresh id, stamped with the save instant whatever the draft carried, its email finds it, and its raw password checks |
| AccountService.AccountService.RegisterUser | src/main/java/com/remix/authAPI/service/UserService.java:173-179 | refused exactly when the email is taken, with no change; otherwise a default account with the hashed password is stored |
| AccountService.AccountService.IsLoginAttemptsExceeded | src/main/java/com/remix/authAPI/service/UserService.java:97-104 | true exactly when an account holds the email and its counter has reached the threshold |
| AccountService.AccountService.IncrementFailedLoginAttempts | src/main/java/com/remix/authAPI/service/UserService.java:107-119 | same failure transition as the other variant, saved back; unknown email changes nothing |
| AccountService.AccountService.ResetFailedLoginAttempts | src/main/java/com/remix/authAPI/service/UserService.java:122-130 | same reset as the other variant, saved back; unknown email changes nothing |
| AccountService.AccountService.IsAccountLocked | src/main/java/com/remix/authAPI/service/UserService.java:133-150 | same lock check and lazy unlock as the other variant; a locked answer changes nothing |
| AccountService.AccountService.UpdateUser | src/main/java/com/remix/authAPI/service/UserService.java:153-166 | succeeds exactly when the id exists and no other account holds the email; an unknown id is refused as not found, a conflicting email as a conflict, both with no change; on success the given record is stored with the existing password hash and updatedAt now |
| AccountService.AccountService.VerifyPin | src/main/java/com/remix/authAPI/service/UserService.java:253-265 | true exactly when some PIN row matches user and PIN, is unused and expires strictly after now |
| AccountService.AccountService.SavePin | src/main/java/com/remix/authAPI/service/UserService.java:227-232 | appends one row expiring five minutes from now and keeps all earlier rows |
| AccountService.AccountService.InitiateLogin | src/main/java/com/remix/authAPI/service/UserService.java:201-220 | unknown email or wrong password: empty, no PIN, no mail; right password: a PIN row is stored and the account is returned only if the PIN mail was sent; the users table is never changed |
| AccountService.AccountService.VerifyPinAndLogin | src/main/java/com/remix/authAPI/service/UserService.java:244-251 | with a valid PIN only the account's status becomes connected and the saved account is returned; the PIN table is unchanged, so the PIN stays valid |
| Sessions.WithoutStale | src/main/java/com/remix/authAPI/repositories/SessionRepository.java:13-15 | the expired-session delete removes exactly the sessions expired strictly before the first instant or last active strictly before the second, with no last activity never matching |
| Sessions.WithoutOwner | src/main/java/com/remix/authAPI/repositories/SessionRepository.java:17 | the per-user delete removes exactly that user's sessions and keeps every other |
| Sessions.BulkDeletesIdempotent | src/main/java/com/remix/authAPI/repositories/SessionRepository.java:13-17 | applying either delete twice equals applying it once |
| Sessions.Created | src/main/java/com/remix/authAPI/services/SessionService.java:27-37 | after creating a session the user has exactly one, under the new token, expiring one timeout from now with no activity yet; other users' sessions are unchanged |
| Sessions.Validated | src/main/java/com/remix/authAPI/services/SessionService.java:40-56 | unknown token: refused, no change; strictly past expiry: deleted and refused; otherwise accepted with last activity now and expiry now plus timeout, other sessions unchanged |
| Sessions.Invalidated | src/main/java/com/remix/authAPI/services/SessionService.java:59-62 | logout removes the token's session and keeps every other |
| Sessions.LogoutIdempotent | src/main/java/com/remix/authAPI/services/SessionService.java:59-62 | logging out twice equals once; logging out an absent token changes nothing |
| Sessions.CreateKeepsInvariants | src/main/java/com/remix/authAPI/services/SessionService.java:27-37 | creating a session keeps one-session-per-user and expiry equal to last activity plus timeout |
| Sessions.ValidateKeepsInvariants | src/main/java/com/remix/authAPI/services/SessionService.java:40-56 | validation keeps both session invariants |
| Sessions.InvalidateKeepsInvariants | src/main/java/com/remix/authAPI/services/SessionService.java:59-62 | logout keeps both session invariants |
| Sessions.SweepKeepsInvariants | src/main/java/com/remix/authAPI/services/SessionService.java:66-72 | the sweep keeps both session invariants |
| Sessions.Swept | src/main/java/com/remix/authAPI/services/SessionService.java:66-71 | the sweep at now deletes with the current instant and the instant one timeout ago: survivors are unchanged and not past their expiry, and a session neither expired nor idle longer than the timeout survives |
| Sessions.RefusedStaysRefused | src/main/java/com/remix/authAPI/services/SessionService.java:45-48 | after a refused validation the token is absent and every later validation of it is refused |
| Sessions.NewSessionDisplacesOld | src/main/java/com/remix/authAPI/services/SessionService.java:28-29 | once a second session is created for a user, the user's earlier token no longer validates |
| Sessions.ValidationSlidesAtBoundary | src/main/java/com/remix/authAPI/services/SessionService.java:45-53 | validation at the expiry instant itself succeeds and leaves expiry equal to last activity plus timeout |
| Sessions.SweepMatchesLazyExpiry | src/main/java/com/remix/authAPI/services/SessionService.java:66-72 | while expiries slide with activity, the sweep at now removes exactly the sessions a validation at now would refuse |
| Sessions.SessionRepository.FindByToken | src/main/java/com/remix/authAPI/repositories/SessionRepository.java:11 | the session stored under the token, or nothing exactly when no session has it |
| Sessions.SessionRepository.Save | src/main/java/com/remix/authAPI/services/SessionService.java:50-52 | the session is stored under its token, replacing any previous one |
| Sessions.SessionRepository.Delete | src/main/java/com/remix/authAPI/services/SessionService.java:46 | the token's session is removed |
| Sessions.SessionRepository.DeleteExpiredSessions | src/main/java/com/remix/authAPI/repositories/SessionRepository.java:13-15 | the table becomes its expired-session delete |
| Sessions.SessionRepository.DeleteByUserId | src/main/java/com/remix/authAPI/repositories/SessionRepository.java:17 | the table becomes its per-user delete |
| SessionService.SessionService.CreateSession | src/main/java/com/remix/authAPI/services/SessionService.java:27-37 | the table becomes the created table; the returned session expires one timeout from now and is the user's only one |
| SessionService.SessionService.ValidateAndUpdateSession | src/main/java/com/remix/authAPI/services/SessionService.java:40-56 | answer and table are those of the validation; a refused token is absent afterwards; an accepted one expires one timeout from now |
| SessionService.SessionService.InvalidateSession | src/main/java/com/remix/authAPI/services/SessionService.java:59-62 | the table becomes the logout table |
| SessionService.SessionService.CleanupExpiredSessions | src/main/java/com/remix/authAPI/services/SessionService.java:64-72 | the table becomes the sweep at now with inactivity bound now minus timeout, which keeps exactly the sessions not yet past their expiry |
| EmailVerification.Registered | src/main/java/com/remix/authAPI/auth/Inscription.java:47-55 | a registered account is unverified, holds the encoded password, the token and an expiry 24 hours ahead, has zero failures, is unlocked and is stamped now |
| EmailVerification.Pending | src/main/java/com/remix/authAPI/auth/Inscription.java:47-52 | the account handed to the repository holds the encoded password, is unverified, unlocked, with zero failures, and carries the token with an expiry 24 hours after now |
| EmailVerification.Confirmed | src/main/java/com/remix/authAPI/auth/Inscription.java:120-123 | confirmation sets verified and clears token and expiry, changing nothing else |
| EmailVerification.VerifyEmailStep | src/main/java/com/remix/authAPI/auth/Inscription.java:91-133 | a token is reported invalid exactly when no account holds it; every outcome but success leaves the table unchanged; expired or verified only for a sole holder with an expiry, expired exactly when that expiry is strictly before now |
| EmailVerification.VerifyEmailEffect | src/main/java/com/remix/authAPI/auth/Inscription.java:91-133 | only a successful verification changes the table, it confirms the token's single holder, and the table stays well formed |
| EmailVerification.UnknownTokenIsInvalid | src/main/java/com/remix/authAPI/auth/Inscription.java:94-104 | a token no account holds is refused as invalid with no change |
| EmailVerification.SoleHolderOutcome | src/main/java/com/remix/authAPI/auth/Inscription.java:109-123 | for the sole holder, an expiry strictly before now is refused as expired with token and expiry kept; an expiry at or after now confirms the account |
| EmailVerification.VerifiedTokenIsSpent | src/main/java/com/remix/authAPI/auth/Inscription.java:94-123 | after a success, the same token at any later time is refused as invalid, and the holder stays verified |
| EmailVerification.RegisteredLinkWindow | src/main/java/com/remix/authAPI/auth/Inscription.java:50-52 | a freshly registered account is confirmed by its link up to and including 24 hours after registration, and refused as expired afterwards |
| EmailVerification.Inscription.Register | src/main/java/com/remix/authAPI/auth/Inscription.java:36-78 | taken email: 400, nothing stored or sent; null email or password: 500, nothing stored; otherwise the account is stored first, then 201 with the mail sent, or 500 with the account still stored |
| EmailVerification.Inscription.VerifyEmail | src/main/java/com/remix/authAPI/auth/Inscription.java:91-133 | outcome and table are those of the verification step; nothing is mailed |

## Left out

- Mail delivery: HTML templates and the mail transport of `services/EmailService.java` are replaced by a `sendOk` flag per send and a log of accepted messages.
- HTTP routing and reply wrapping (the controllers, `TestController.java`, `response/ResponseHandler.java`): only the status codes chosen by `Inscription.java` are modelled.
- The stored-procedure login `login` (`service/UserService.java` lines 181-193): its SQL body is not part of this model.
- Pass-through repository calls (`findAll`, `findById`, `findByEmail`, `deleteById`, `saveComplete`, `hashPassword`, and `save`/`updateUser` of `services/UserService.java`): they are the table map itself.
- `models/User.java`: a near-copy of the entity without the second-factor columns; the model uses the entity record.
- Second-factor code columns, their failure counter and their timestamp: no modelled code touches them, so they are inert record fields.
- Password hashing is deterministic: the random BCrypt salt is not modelled, and a password check is equality of hashes.
- UUID tokens, the generated id and the random PIN draw are parameters; their randomness is reduced to freshness and range preconditions.
- Lockout.AfterFailedLogin: the failure counter is an unbounded integer; the source's 32-bit `Integer` increment (`services/UserService.java` line 59, `service/UserService.java` line 109) would wrap after 2^31-1 failures, and failures keep counting while an account is locked, so the model does not capture that overflow.
- Pins.SavedPinWindow: one clock serves both sides; the source stamps a PIN's expiry with the application server's clock (`service/UserService.java` line 230) and compares it with the database's clock (line 258), so skew between the two clocks shifts the real five-minute window and is not modelled.
- Time is whole minutes; sub-minute ordering and calendar arithmetic are not modelled.
- Concurrency, transaction isolation and rollback, the read-only transaction hint and the sweep's scheduling are not modelled: each operation is atomic.
- The account entity is a value: setters on a managed object become record updates, and entity identity or aliasing between loaded objects is not captured.
- The session entity's numeric id is not modelled; sessions are keyed by their unique token.
- Email comparison is exact string equality; database collation is not modelled.
- AccountService.AccountService.Save: draft columns other than those `save` tests for null are taken at their field defaults, so a caller-supplied token, lock expiry or second-factor value is not modelled.
- AccountService.AccountService.UpdateUser: the caller's record is complete; null columns in it are not modelled.
- EmailVerification.Inscription.Register: request fields other than email and password are taken at their field defaults, so a client-supplied verification flag or counter in the body is not modelled.
