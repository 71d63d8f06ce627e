/** Properties that relate several `AuthService` calls: single-use refresh
    rotation, consumption of expired records, that an issued refresh token
    works once, that a registered user can log in, that login failures are
    indistinguishable, and that every operation keeps the store consistent. */
module AuthServiceProperties {
  import opened Wrappers
  import opened Roles
  import opened Ttl
  import opened Crypto
  import opened AuthTypes
  import opened CredentialStore
  import opened AuthService

  /** Both secrets are configured, so issuing tokens cannot fail. */
  predicate Configured(env: Env) {
    Truthy(env.accessSecret) && Truthy(env.refreshSecret)
  }

  /** A token issued for `user` verifies (under a round-tripping codec) to
      exactly the claims it was signed with: `{sub, email, roles}` for the
      access token and `{sub, tokenId}` for the refresh token. */
  lemma IssuedTokensVerify(s: Store, deps: Deps, env: Env, user: User, tokenId: string, now: int)
    requires RoundTrips(deps.accessCodec) && RoundTrips(deps.refreshCodec)
    requires IssueTokens(s, deps, env, user, tokenId, now).result.Ok?
    ensures var t := IssueTokens(s, deps, env, user, tokenId, now).result.value;
      && deps.accessCodec.verify(t.accessToken, env.accessSecret.value) == Some(AccessClaims(user.id, user.email, user.roles))
      && VerifyRefreshToken(deps, env, t.refreshToken) == Some(RefreshClaims(user.id, tokenId))
  {
  }

  /** Single-use rotation: once `refresh` has succeeded with a token (and
      drawn a token id not used by any stored record), presenting the same
      token again fails as an invalid refresh token, whatever the clock and
      whatever token id the second call would draw. */
  lemma RefreshIsSingleUse(s: Store, deps: Deps, env: Env, token: string,
                           tokenId: string, now: int, tokenId2: string, now2: int)
    requires Valid(s)
    requires FreshTokenId(s, tokenId)
    requires Refresh(s, deps, env, token, tokenId, now).result.Ok?
    ensures var s' := Refresh(s, deps, env, token, tokenId, now).store;
      Refresh(s', deps, env, token, tokenId2, now2) == Step(Err(InvalidRefreshToken), s')
  {
    var c := VerifyRefreshToken(deps, env, token).value;
    var s' := Refresh(s, deps, env, token, tokenId, now).store;
    assert TokenKey(c.sub, c.tokenId) in s.refreshTokens;
    assert c.tokenId != tokenId;
    assert FindRefreshToken(s', c.sub, c.tokenId).None?;
  }

  /** An expired record is consumed by the attempt that finds it expired:
      a later attempt with the same token is reported as invalid, not as
      expired again. */
  lemma ExpiredRefreshIsConsumed(s: Store, deps: Deps, env: Env, token: string,
                                 tokenId: string, now: int, tokenId2: string, now2: int)
    requires Refresh(s, deps, env, token, tokenId, now).result == Err(RefreshTokenExpired)
    ensures var s' := Refresh(s, deps, env, token, tokenId, now).store;
      && s' == RevokeRefreshToken(s, VerifyRefreshToken(deps, env, token).value.sub,
                                  VerifyRefreshToken(deps, env, token).value.tokenId)
      && Refresh(s', deps, env, token, tokenId2, now2) == Step(Err(InvalidRefreshToken), s')
  {
  }

  /** A refresh token just issued to a stored user rotates successfully at
      any time before its signed `exp` (whole seconds: the issuing second
      plus the refresh lifetime), given a sound hasher and a round-tripping
      refresh codec. That moment is never after the stored `expiresAt`. */
  lemma IssuedRefreshTokenRefreshes(s: Store, deps: Deps, env: Env, user: User, tokenId: string, now: int,
                                    tokenId2: string, now2: int)
    requires Valid(s)
    requires Sound(deps.hasher) && RoundTrips(deps.refreshCodec)
    requires FindById(s, user.id).Some?
    requires IssueTokens(s, deps, env, user, tokenId, now).result.Ok?
    requires now2 / 1000 < now / 1000 + RefreshLifetime(env)
    ensures var step := IssueTokens(s, deps, env, user, tokenId, now);
      Refresh(step.store, deps, env, step.result.value.refreshToken, tokenId2, now2).result.Ok?
  {
    var step := IssueTokens(s, deps, env, user, tokenId, now);
    var token := step.result.value.refreshToken;
    assert VerifyRefreshToken(deps, env, token) == Some(RefreshClaims(user.id, tokenId));
    assert FindRefreshToken(step.store, user.id, tokenId).Some?;
    assert deps.hasher.compare(token, deps.hasher.hash(token));
    assert now2 <= now + RefreshLifetime(env) * 1000;
  }

  /** Registering and then logging in with the same email and password
      succeeds, given a sound hasher. */
  lemma RegisterThenLogin(s: Store, deps: Deps, env: Env, req: RegisterRequest, userId: string, tokenId: string,
                          now: int, tokenId2: string, now2: int)
    requires Sound(deps.hasher)
    requires Register(s, deps, env, req, userId, tokenId, now).result.Ok?
    ensures var s' := Register(s, deps, env, req, userId, tokenId, now).store;
      Login(s', deps, env, LoginRequest(req.email, req.password), tokenId2, now2).result.Ok?
  {
    var user := NewUser(deps, req, userId);
    assert deps.hasher.compare(req.password, user.passwordHash);
  }

  /** Login does not reveal whether an account exists: a wrong password
      for an existing email and any password for an unknown email give
      the same result and leave their stores as they were. */
  lemma LoginFailuresIndistinguishable(s1: Store, s2: Store, deps: Deps, env: Env,
                                       known: LoginRequest, unknown: LoginRequest, tokenId: string, now: int)
    requires FindByEmail(s1, known.email).Some?
    requires !deps.hasher.compare(known.password, FindByEmail(s1, known.email).value.passwordHash)
    requires FindByEmail(s2, unknown.email).None?
    ensures Login(s1, deps, env, known, tokenId, now).result == Login(s2, deps, env, unknown, tokenId, now).result
    ensures Login(s1, deps, env, known, tokenId, now).store == s1
    ensures Login(s2, deps, env, unknown, tokenId, now).store == s2
  {
  }

  /** A second registration of the same email, in any letter case, fails
      and leaves the first user exactly as it was. */
  lemma DuplicateRegistrationRejected(s: Store, deps: Deps, env: Env, req: RegisterRequest, userId: string,
                                      tokenId: string, now: int, again: RegisterRequest, userId2: string,
                                      tokenId2: string, now2: int)
    requires Register(s, deps, env, req, userId, tokenId, now).result.Ok?
    requires JsText.EqualsIgnoringCase(again.email, req.email)
    ensures var s' := Register(s, deps, env, req, userId, tokenId, now).store;
      && Register(s', deps, env, again, userId2, tokenId2, now2) == Step(Err(EmailTaken), s')
      && FindById(s', userId) == Some(NewUser(deps, req, userId))
  {
    var s' := Register(s, deps, env, req, userId, tokenId, now).store;
    UserDirectory.FindByEmailIgnoresCase(s'.users, again.email, req.email);
  }

  /** Registering a free email with no roles stores a user holding exactly
      the baseline role, as the principal lookup then reports; the user is
      stored even when a missing secret makes the call fail afterwards, and
      with both secrets set the registration succeeds. */
  lemma DefaultRoleIsPatient(s: Store, deps: Deps, env: Env, email: string, password: string, userId: string,
                             tokenId: string, now: int, claims: AccessClaims)
    requires FindByEmail(s, email).None?
    requires claims.sub == userId
    ensures var step := Register(s, deps, env, RegisterRequest(email, password, None), userId, tokenId, now);
      && FindByEmail(step.store, email) == Some(User(userId, email, deps.hasher.hash(password), [Patient]))
      && ValidateUser(step.store, claims) == Ok(Principal(userId, email, [Patient]))
      && (Configured(env) ==> step.result.Ok?)
  {
    var req := RegisterRequest(email, password, None);
    var s1 := SaveUser(s, NewUser(deps, req, userId));
    var step := Register(s, deps, env, req, userId, tokenId, now);
    assert step == IssueTokens(s1, deps, env, NewUser(deps, req, userId), tokenId, now);
    assert step.store.users == s1.users;
  }

  /** Every operation keeps the store consistent (ids, lower-cased email
      keys and record keys all agree with the records they hold). */
  lemma OperationsPreserveValid(s: Store, deps: Deps, env: Env, reg: RegisterRequest, login: LoginRequest,
                                token: string, userId: string, tokenId: string, now: int)
    requires Valid(s)
    ensures Valid(Register(s, deps, env, reg, userId, tokenId, now).store)
    ensures Valid(Login(s, deps, env, login, tokenId, now).store)
    ensures Valid(Refresh(s, deps, env, token, tokenId, now).store)
  {
    var l := FindByEmail(s, login.email);
    if l.Some? {
      assert l.value.id in s.users.byId;
    }
  }
}
