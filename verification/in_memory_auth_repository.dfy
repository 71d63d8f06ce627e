/** `InMemoryAuthRepository`: the user maps of `UserDirectory` plus a map of
    refresh-token records keyed by the string `userId + ":" + tokenId`.
    The string key is injective only when user ids contain no `':'`; under
    that condition the repository refines the pair-keyed `CredentialStore`,
    operation by operation. */
module InMemoryAuthRepository {
  import opened Wrappers
  import opened AuthTypes
  import UserDirectory
  import CS = CredentialStore

  datatype Repository = Repository(users: UserDirectory.Users, refreshTokens: map<string, RefreshRecord>)

  /** `getRefreshKey`. */
  function RefreshKey(userId: string, tokenId: string): (k: string)
    ensures |k| == |userId| + 1 + |tokenId|
    ensures k[..|userId|] == userId && k[|userId|] == ':' && k[|userId| + 1..] == tokenId
  {
    userId + ":" + tokenId
  }

  /** The constructor: `storeUser` applied to each seed user in order. */
  function New(seedUsers: seq<User>): (r: Repository)
    ensures r.refreshTokens == map[]
    ensures UserDirectory.Valid(r.users)
    ensures forall i :: 0 <= i < |seedUsers| ==> seedUsers[i].id in r.users.byId
    ensures |seedUsers| > 0 ==>
              FindById(r, seedUsers[|seedUsers| - 1].id) == Some(seedUsers[|seedUsers| - 1])
    ensures forall i :: 0 <= i < |seedUsers| && (forall j :: i < j < |seedUsers| ==> seedUsers[j].id != seedUsers[i].id) ==>
              FindById(r, seedUsers[i].id) == Some(seedUsers[i])
    decreases |seedUsers|
  {
    if |seedUsers| == 0 then Repository(UserDirectory.NoUsers, map[])
    else SaveUser(New(seedUsers[..|seedUsers| - 1]), seedUsers[|seedUsers| - 1])
  }

  function FindByEmail(r: Repository, email: string): Option<User> {
    UserDirectory.FindByEmail(r.users, email)
  }

  function FindById(r: Repository, id: string): Option<User> {
    UserDirectory.FindById(r.users, id)
  }

  function SaveUser(r: Repository, user: User): (r': Repository)
    ensures UserDirectory.Valid(r.users) ==> UserDirectory.Valid(r'.users)
    ensures r'.refreshTokens == r.refreshTokens
    ensures FindById(r', user.id) == Some(user)
    ensures forall id :: id != user.id ==> FindById(r', id) == FindById(r, id)
  {
    r.(users := UserDirectory.Save(r.users, user))
  }

  /** `saveRefreshToken`: the record is filed under its key; every pair
      with another key, and the users, are untouched. */
  function SaveRefreshToken(r: Repository, rec: RefreshRecord): (r': Repository)
    ensures r'.users == r.users
    ensures FindRefreshToken(r', rec.userId, rec.tokenId) == Some(rec)
    ensures forall u, t :: RefreshKey(u, t) != RefreshKey(rec.userId, rec.tokenId) ==>
              FindRefreshToken(r', u, t) == FindRefreshToken(r, u, t)
  {
    r.(refreshTokens := r.refreshTokens[RefreshKey(rec.userId, rec.tokenId) := rec])
  }

  /** `findRefreshToken`: the record filed under the pair's key, if any. */
  function FindRefreshToken(r: Repository, userId: string, tokenId: string): (found: Option<RefreshRecord>)
    ensures found.None? <==> RefreshKey(userId, tokenId) !in r.refreshTokens
    ensures found.Some? ==> found.value in r.refreshTokens.Values
  {
    var k := RefreshKey(userId, tokenId);
    if k in r.refreshTokens then Some(r.refreshTokens[k]) else None
  }

  /** `revokeRefreshToken`: nothing is found under the pair's key
      afterwards; every pair with another key, and the users, are untouched. */
  function RevokeRefreshToken(r: Repository, userId: string, tokenId: string): (r': Repository)
    ensures r'.users == r.users
    ensures FindRefreshToken(r', userId, tokenId) == None
    ensures forall u, t :: RefreshKey(u, t) != RefreshKey(userId, tokenId) ==>
              FindRefreshToken(r', u, t) == FindRefreshToken(r, u, t)
  {
    r.(refreshTokens := r.refreshTokens - {RefreshKey(userId, tokenId)})
  }

  /** Two pairs whose user ids contain no `':'` share a key only if they
      are the same pair. */
  lemma RefreshKeyInjective(u1: string, t1: string, u2: string, t2: string)
    requires ':' !in u1 && ':' !in u2
    requires RefreshKey(u1, t1) == RefreshKey(u2, t2)
    ensures u1 == u2 && t1 == t2
  {
    var k := RefreshKey(u1, t1);
    FirstColon(u1, t1);
    FirstColon(u2, t2);
    assert u1 == k[..|u1|] == u2;
    assert t1 == k[|u1| + 1..] == t2;
  }

  /** In the key of a colon-free user id, the first `':'` sits right after the id. */
  lemma FirstColon(u: string, t: string)
    requires ':' !in u
    ensures |u| < |RefreshKey(u, t)| && RefreshKey(u, t)[|u|] == ':'
    ensures forall i :: 0 <= i < |u| ==> RefreshKey(u, t)[i] != ':'
  {
  }

  /** Without that condition the key collides: the record of
      `("a:b", "c")` is found, and revoked, as the pair `("a", "b:c")`. */
  lemma RefreshKeyCollision(r: Repository, hashedToken: string, expiresAt: int)
    ensures var rec := RefreshRecord("a:b", "c", hashedToken, expiresAt);
      && FindRefreshToken(SaveRefreshToken(r, rec), "a", "b:c") == Some(rec)
      && FindRefreshToken(RevokeRefreshToken(SaveRefreshToken(r, rec), "a", "b:c"), "a:b", "c") == None
  {
    assert RefreshKey("a:b", "c") == RefreshKey("a", "b:c");
  }

  /** Every record is filed under the key of its own pair. */
  ghost predicate KeysConsistent(r: Repository) {
    forall k | k in r.refreshTokens :: k == RefreshKey(r.refreshTokens[k].userId, r.refreshTokens[k].tokenId)
  }

  /** Every stored record belongs to a user id without `':'` (true of the
      `randomUUID()` ids the service generates). */
  ghost predicate ColonFreeOwners(r: Repository) {
    forall k | k in r.refreshTokens :: ':' !in r.refreshTokens[k].userId
  }

  ghost predicate Inv(r: Repository) {
    KeysConsistent(r) && ColonFreeOwners(r)
  }

  /** The abstraction: re-key every record by its own (userId, tokenId). */
  function Abstract(r: Repository): CS.Store
    requires KeysConsistent(r)
  {
    CS.Store(r.users, map k | k in r.refreshTokens :: CS.KeyOf(r.refreshTokens[k]) := r.refreshTokens[k])
  }

  /** A pair is in the abstract store exactly when its string key is in the
      repository (and its user id is colon-free), holding the same record. */
  lemma AbstractLookup(r: Repository, u: string, t: string)
    requires Inv(r)
    ensures CS.TokenKey(u, t) in Abstract(r).refreshTokens <==> (':' !in u && RefreshKey(u, t) in r.refreshTokens)
    ensures CS.TokenKey(u, t) in Abstract(r).refreshTokens ==>
              Abstract(r).refreshTokens[CS.TokenKey(u, t)] == r.refreshTokens[RefreshKey(u, t)]
  {
    var a := Abstract(r).refreshTokens;
    var tk := CS.TokenKey(u, t);
    if tk in a {
      var k :| k in r.refreshTokens && CS.KeyOf(r.refreshTokens[k]) == tk;
      assert k == RefreshKey(u, t);
    }
    if ':' !in u && RefreshKey(u, t) in r.refreshTokens {
      var k := RefreshKey(u, t);
      var rec := r.refreshTokens[k];
      RefreshKeyInjective(u, t, rec.userId, rec.tokenId);
      assert CS.KeyOf(rec) == tk;
    }
  }

  /** The empty repository (and any freshly constructed one) abstracts to a
      store with no refresh records. */
  lemma AbstractNew(seedUsers: seq<User>)
    ensures Inv(New(seedUsers))
    ensures Abstract(New(seedUsers)) == CS.Store(New(seedUsers).users, map[])
  {
  }

  /** `findRefreshToken` answers as the abstract store does. */
  lemma FindRefreshRefines(r: Repository, u: string, t: string)
    requires Inv(r)
    requires ':' !in u
    ensures FindRefreshToken(r, u, t) == CS.FindRefreshToken(Abstract(r), u, t)
  {
    AbstractLookup(r, u, t);
  }

  /** Saving a record of a colon-free owner keeps every record filed under
      its own key. */
  lemma SaveKeepsInv(r: Repository, rec: RefreshRecord)
    requires Inv(r)
    requires ':' !in rec.userId
    ensures Inv(SaveRefreshToken(r, rec))
  {
    var m' := SaveRefreshToken(r, rec).refreshTokens;
    forall k | k in m'
      ensures k == RefreshKey(m'[k].userId, m'[k].tokenId) && ':' !in m'[k].userId
    {
      if k != RefreshKey(rec.userId, rec.tokenId) {
        assert m'[k] == r.refreshTokens[k];
      }
    }
  }

  /** One pair of the abstract stores after a save. */
  lemma SaveAbstractAt(r: Repository, rec: RefreshRecord, tk: CS.TokenKey)
    requires Inv(r) && Inv(SaveRefreshToken(r, rec))
    requires ':' !in rec.userId
    ensures var a', b := Abstract(SaveRefreshToken(r, rec)).refreshTokens,
                         CS.SaveRefreshToken(Abstract(r), rec).refreshTokens;
      && (tk in a' <==> tk in b)
      && (tk in a' ==> a'[tk] == b[tk])
  {
    AbstractLookup(SaveRefreshToken(r, rec), tk.userId, tk.tokenId);
    AbstractLookup(r, tk.userId, tk.tokenId);
    if ':' !in tk.userId && RefreshKey(tk.userId, tk.tokenId) == RefreshKey(rec.userId, rec.tokenId) {
      RefreshKeyInjective(tk.userId, tk.tokenId, rec.userId, rec.tokenId);
    }
  }

  /** `saveRefreshToken` keeps the invariant and commutes with the abstraction. */
  lemma SaveRefreshRefines(r: Repository, rec: RefreshRecord)
    requires Inv(r)
    requires ':' !in rec.userId
    ensures Inv(SaveRefreshToken(r, rec))
    ensures Abstract(SaveRefreshToken(r, rec)) == CS.SaveRefreshToken(Abstract(r), rec)
  {
    SaveKeepsInv(r, rec);
    var a', b := Abstract(SaveRefreshToken(r, rec)).refreshTokens, CS.SaveRefreshToken(Abstract(r), rec).refreshTokens;
    forall tk: CS.TokenKey
      ensures tk in a' <==> tk in b
      ensures tk in a' ==> a'[tk] == b[tk]
    {
      SaveAbstractAt(r, rec, tk);
    }
    assert a' == b;
  }

  /** Deleting a key keeps every remaining record filed under its own key. */
  lemma RevokeKeepsInv(r: Repository, u: string, t: string)
    requires Inv(r)
    ensures Inv(RevokeRefreshToken(r, u, t))
  {
    var m' := RevokeRefreshToken(r, u, t).refreshTokens;
    forall k | k in m'
      ensures k == RefreshKey(m'[k].userId, m'[k].tokenId) && ':' !in m'[k].userId
    {
      assert m'[k] == r.refreshTokens[k];
    }
  }

  /** One pair of the abstract stores after a delete. */
  lemma RevokeAbstractAt(r: Repository, u: string, t: string, tk: CS.TokenKey)
    requires Inv(r) && Inv(RevokeRefreshToken(r, u, t))
    requires ':' !in u
    ensures var a', b := Abstract(RevokeRefreshToken(r, u, t)).refreshTokens,
                         CS.RevokeRefreshToken(Abstract(r), u, t).refreshTokens;
      && (tk in a' <==> tk in b)
      && (tk in a' ==> a'[tk] == b[tk])
  {
    AbstractLookup(RevokeRefreshToken(r, u, t), tk.userId, tk.tokenId);
    AbstractLookup(r, tk.userId, tk.tokenId);
    if ':' !in tk.userId && RefreshKey(tk.userId, tk.tokenId) == RefreshKey(u, t) {
      RefreshKeyInjective(tk.userId, tk.tokenId, u, t);
    }
  }

  /** `revokeRefreshToken` keeps the invariant and commutes with the abstraction. */
  lemma RevokeRefines(r: Repository, u: string, t: string)
    requires Inv(r)
    requires ':' !in u
    ensures Inv(RevokeRefreshToken(r, u, t))
    ensures Abstract(RevokeRefreshToken(r, u, t)) == CS.RevokeRefreshToken(Abstract(r), u, t)
  {
    RevokeKeepsInv(r, u, t);
    var a', b := Abstract(RevokeRefreshToken(r, u, t)).refreshTokens, CS.RevokeRefreshToken(Abstract(r), u, t).refreshTokens;
    forall tk: CS.TokenKey
      ensures tk in a' <==> tk in b
      ensures tk in a' ==> a'[tk] == b[tk]
    {
      RevokeAbstractAt(r, u, t, tk);
    }
    assert a' == b;
  }

  /** The user operations are shared, so they commute with the abstraction
      unchanged. */
  lemma UserOpsRefine(r: Repository, user: User, email: string, id: string)
    requires Inv(r)
    ensures Inv(SaveUser(r, user))
    ensures Abstract(SaveUser(r, user)) == CS.SaveUser(Abstract(r), user)
    ensures FindByEmail(r, email) == CS.FindByEmail(Abstract(r), email)
    ensures FindById(r, id) == CS.FindById(Abstract(r), id)
  {
  }
}
