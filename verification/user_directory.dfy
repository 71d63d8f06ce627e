/** The user half of `InMemoryAuthRepository`: one map from id to user and
    one from lower-cased email to user (`usersById`, `usersByEmail`), both
    written by `storeUser`. */
module UserDirectory {
  import opened Wrappers
  import opened JsText
  import opened AuthTypes

  datatype Users = Users(byId: map<string, User>, byEmail: map<string, User>)

  const NoUsers: Users := Users(map[], map[])

  /** Each id entry holds the user with that id; each email entry is keyed
      by the lower-cased email of the user it holds, and that user's id is
      known. (An email entry may be stale: see `StaleEmailEntry`.) */
  ghost predicate Valid(u: Users) {
    && (forall id | id in u.byId :: u.byId[id].id == id)
    && (forall e | e in u.byEmail :: ToLower(u.byEmail[e].email) == e && u.byEmail[e].id in u.byId)
  }

  /** `findByEmail`: look up `email.toLowerCase()`. */
  function FindByEmail(u: Users, email: string): Option<User> {
    var key := ToLower(email);
    if key in u.byEmail then Some(u.byEmail[key]) else None
  }

  function FindById(u: Users, id: string): Option<User> {
    if id in u.byId then Some(u.byId[id]) else None
  }

  /** `storeUser` (and so `saveUser`): overwrite the id entry and the
      lower-cased email entry. */
  function Save(u: Users, user: User): (u': Users)
    ensures Valid(u) ==> Valid(u')
    ensures FindById(u', user.id) == Some(user)
    ensures FindByEmail(u', user.email) == Some(user)
    ensures forall id :: id != user.id ==> FindById(u', id) == FindById(u, id)
  {
    Users(u.byId[user.id := user], u.byEmail[ToLower(user.email) := user])
  }

  /** Email lookup ignores letter case. */
  lemma FindByEmailIgnoresCase(u: Users, a: string, b: string)
    requires EqualsIgnoringCase(a, b)
    ensures FindByEmail(u, a) == FindByEmail(u, b)
  {
    LowerEqualIffEqualsIgnoringCase(a, b);
  }

  /** After saving `user`, every casing of its email finds it, and any
      email that is not a casing of it finds what it found before. */
  lemma SaveThenFindByEmail(u: Users, user: User, e: string)
    ensures EqualsIgnoringCase(e, user.email) ==> FindByEmail(Save(u, user), e) == Some(user)
    ensures !EqualsIgnoringCase(e, user.email) ==> FindByEmail(Save(u, user), e) == FindByEmail(u, e)
  {
    LowerEqualIffEqualsIgnoringCase(e, user.email);
  }

  /** Re-saving an id under a different email overwrites the id entry but
      leaves the old email entry in place, still holding the old record. */
  lemma StaleEmailEntry(u: Users, user: User)
    requires user.id in u.byId
    requires ToLower(u.byId[user.id].email) in u.byEmail
    requires ToLower(u.byId[user.id].email) != ToLower(user.email)
    ensures var before := u.byId[user.id];
      && FindById(Save(u, user), user.id) == Some(user)
      && FindByEmail(Save(u, user), before.email) == FindByEmail(u, before.email)
      && FindByEmail(Save(u, user), before.email).Some?
  {
  }
}
