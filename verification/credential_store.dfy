/** The credential store the authentication service talks to
    (`AuthRepository`), with refresh-token records keyed by the
    (userId, tokenId) pair. `InMemoryAuthRepository` refines it (see
    `InMemoryAuthRepository.Abstract`). */
module CredentialStore {
  import opened Wrappers
  import opened AuthTypes
  import UserDirectory

  datatype TokenKey = TokenKey(userId: string, tokenId: string)

  function KeyOf(r: RefreshRecord): TokenKey {
    TokenKey(r.userId, r.tokenId)
  }

  datatype Store = Store(users: UserDirectory.Users, refreshTokens: map<TokenKey, RefreshRecord>)

  const EmptyStore: Store := Store(UserDirectory.NoUsers, map[])

  /** The user maps are consistent and every refresh record is filed under
      its own (userId, tokenId). */
  ghost predicate Valid(s: Store) {
    && UserDirectory.Valid(s.users)
    && forall k | k in s.refreshTokens :: KeyOf(s.refreshTokens[k]) == k
  }

  /** No stored record carries token id `t`: what a fresh `randomUUID()` gives. */
  ghost predicate FreshTokenId(s: Store, t: string) {
    forall k | k in s.refreshTokens :: k.tokenId != t
  }

  function FindByEmail(s: Store, email: string): Option<User> {
    UserDirectory.FindByEmail(s.users, email)
  }

  function FindById(s: Store, id: string): Option<User> {
    UserDirectory.FindById(s.users, id)
  }

  function SaveUser(s: Store, user: User): (s': Store)
    ensures Valid(s) ==> Valid(s')
    ensures s'.refreshTokens == s.refreshTokens
    ensures FindById(s', user.id) == Some(user)
    ensures FindByEmail(s', user.email) == Some(user)
  {
    s.(users := UserDirectory.Save(s.users, user))
  }

  function FindRefreshToken(s: Store, userId: string, tokenId: string): Option<RefreshRecord> {
    var k := TokenKey(userId, tokenId);
    if k in s.refreshTokens then Some(s.refreshTokens[k]) else None
  }

  /** `saveRefreshToken`: afterwards the record is found under its own pair,
      every other pair is unchanged and the users are untouched. */
  function SaveRefreshToken(s: Store, r: RefreshRecord): (s': Store)
    ensures Valid(s) ==> Valid(s')
    ensures s'.users == s.users
    ensures FindRefreshToken(s', r.userId, r.tokenId) == Some(r)
    ensures forall u, t :: (u, t) != (r.userId, r.tokenId) ==>
              FindRefreshToken(s', u, t) == FindRefreshToken(s, u, t)
  {
    s.(refreshTokens := s.refreshTokens[KeyOf(r) := r])
  }

  /** `revokeRefreshToken`: afterwards nothing is found under the pair,
      every other pair is unchanged and the users are untouched. */
  function RevokeRefreshToken(s: Store, userId: string, tokenId: string): (s': Store)
    ensures Valid(s) ==> Valid(s')
    ensures s'.users == s.users
    ensures FindRefreshToken(s', userId, tokenId) == None
    ensures forall u, t :: (u, t) != (userId, tokenId) ==>
              FindRefreshToken(s', u, t) == FindRefreshToken(s, u, t)
  {
    s.(refreshTokens := s.refreshTokens - {TokenKey(userId, tokenId)})
  }

  /** Revocation is idempotent: revoking a pair twice is revoking it once,
      and revoking a pair that is absent changes nothing. */
  lemma RevokeIdempotent(s: Store, userId: string, tokenId: string)
    ensures RevokeRefreshToken(RevokeRefreshToken(s, userId, tokenId), userId, tokenId)
            == RevokeRefreshToken(s, userId, tokenId)
    ensures FindRefreshToken(s, userId, tokenId).None? ==> RevokeRefreshToken(s, userId, tokenId) == s
  {
    var k := TokenKey(userId, tokenId);
    if k !in s.refreshTokens {
      assert s.refreshTokens - {k} == s.refreshTokens;
    }
  }
}
