/** The `users` table as the services see it through their repository: rows
    keyed by id with a unique email column, the derived finders, and what
    saving an entity does to the table (the entity hooks fire on insert, and on
    update only when the row actually changed). */
module Users {
  import opened Common
  import opened Entity

  type Table = map<UserId, Account>

  /** Every row is stored under its own id, and no two rows share an email
      (the unique constraint on the email column). */
  predicate WellFormed(t: Table) {
    && (forall id :: id in t ==> t[id].id == id)
    && (forall i, j :: i in t && j in t && t[i].email == t[j].email ==> i == j)
  }

  predicate EmailTaken(t: Table, email: Email) {
    exists id :: id in t && t[id].email == email
  }

  /** `findByEmail`: the one account holding the email, or nothing when no account does. */
  function FindByEmail(t: Table, email: Email): (r: Option<UserId>)
    requires WellFormed(t)
    ensures r.Some? <==> EmailTaken(t, email)
    ensures r.Some? ==> r.value in t && t[r.value].email == email
    ensures r.Some? ==> forall id :: id in t && t[id].email == email ==> id == r.value
  {
    if EmailTaken(t, email) then
      var id :| id in t && t[id].email == email;
      Some(id)
    else
      None
  }

  /** `findByEmailVerificationToken` before it is narrowed to one result: every
      account whose pending verification token is `token`. */
  function TokenHolders(t: Table, token: Token): (ids: set<UserId>)
    ensures forall id :: id in ids <==> id in t && t[id].emailVerificationToken == Some(token)
  {
    set id | id in t && t[id].emailVerificationToken == Some(token)
  }

  /** Saving a new entity: the pre-persist hook stamps it, then it becomes a row. */
  function Inserted(t: Table, a: Account, now: Time): (r: Table)
    ensures r.Keys == t.Keys + {a.id}
    ensures forall id :: id in t && id != a.id ==> r[id] == t[id]
    ensures r[a.id].createdAt == Some(now) && r[a.id].updatedAt == Some(now)
    ensures r[a.id].(createdAt := a.createdAt, updatedAt := a.updatedAt) == a
  {
    t[a.id := OnCreate(a, now)]
  }

  /** Saving a loaded entity back: an unchanged entity is not written at all;
      a changed one is written after the pre-update hook stamps it. */
  function Saved(t: Table, a: Account, now: Time): (r: Table)
    requires a.id in t
    ensures r.Keys == t.Keys
    ensures forall id :: id in t && id != a.id ==> r[id] == t[id]
    ensures r[a.id].(updatedAt := a.updatedAt) == a
    ensures r[a.id] == a || r[a.id].updatedAt == Some(now)
    ensures t[a.id] == a ==> r == t
    ensures t[a.id] != a ==> r[a.id] == OnUpdate(a, now)
  {
    if t[a.id] == a then t else t[a.id := OnUpdate(a, now)]
  }

  /** Inserting an account under a fresh id with an unused email keeps the table well formed. */
  lemma InsertKeepsWellFormed(t: Table, a: Account, now: Time)
    requires WellFormed(t) && a.id !in t && !EmailTaken(t, a.email)
    ensures WellFormed(Inserted(t, a, now))
    ensures FindByEmail(Inserted(t, a, now), a.email) == Some(a.id)
  {
    var r := Inserted(t, a, now);
    assert a.id in r && r[a.id].email == a.email;
  }

  /** Writing back an account whose email no other row holds keeps the table well formed. */
  lemma SaveKeepsWellFormed(t: Table, a: Account, now: Time)
    requires WellFormed(t) && a.id in t
    requires forall id :: id in t && id != a.id ==> t[id].email != a.email
    ensures WellFormed(Saved(t, a, now))
  {
  }
}
