/** `AuthService`: register, login, refresh-token rotation, principal
    validation and token issuance, each a function from the credential store
    (and the clock reading `now`, in epoch milliseconds, and the fresh ids a
    call would draw from `randomUUID()`) to a result and the new store. */
module AuthService {
  import opened Wrappers
  import opened JsText
  import opened Roles
  import opened Ttl
  import opened Crypto
  import opened AuthTypes
  import opened CredentialStore

  /** `BadRequestException`, `UnauthorizedException` and the plain `Error`
      thrown for missing configuration, each with its message. */
  datatype AuthError = BadRequest(message: string) | Unauthorized(message: string) | ConfigError(message: string)

  const EmailTaken: AuthError := BadRequest("Email already registered")
  const InvalidCredentials: AuthError := Unauthorized("Invalid credentials")
  const InvalidRefreshToken: AuthError := Unauthorized("Invalid refresh token")
  const RefreshTokenExpired: AuthError := Unauthorized("Refresh token expired")
  const UserNotFound: AuthError := Unauthorized("User not found")

  /** The configuration the service reads from `process.env`. */
  datatype Env = Env(
    accessSecret: Option<string>,   // JWT_ACCESS_SECRET
    refreshSecret: Option<string>,  // JWT_REFRESH_SECRET
    accessTtl: Option<string>,      // JWT_ACCESS_TTL
    refreshTtl: Option<string>      // JWT_REFRESH_TTL
  )

  /** The injected collaborators: password hasher and JWT codecs. */
  datatype Deps = Deps(hasher: Hasher, accessCodec: Codec<AccessClaims>, refreshCodec: Codec<RefreshClaims>)

  /** The outcome of one operation and the store it leaves behind. */
  datatype Step<T> = Step(result: Result<T, AuthError>, store: Store)

  datatype RegisterRequest = RegisterRequest(email: string, password: string, roles: Option<seq<string>>)

  datatype LoginRequest = LoginRequest(email: string, password: string)

  /** `getRequiredEnv(name)`: the value, or an error when it is unset or empty. */
  function RequiredEnv(name: string, value: Option<string>): (r: Result<string, AuthError>)
    ensures r.Ok? <==> Truthy(value)
    ensures r.Ok? ==> r.value == value.value && r.value != ""
    ensures r.Err? ==> r.error == ConfigError(name + " is not set")
  {
    if Truthy(value) then Ok(value.value) else Err(ConfigError(name + " is not set"))
  }

  /** The signed access-token lifetime in seconds. */
  function AccessLifetime(env: Env): int {
    ParseTtlSeconds(env.accessTtl, AccessTtlDefault)
  }

  /** The signed refresh-token lifetime in seconds. */
  function RefreshLifetime(env: Env): int {
    ParseTtlSeconds(env.refreshTtl, RefreshTtlDefault)
  }

  function TrimAll(xs: seq<string>): (ys: seq<string>)
    ensures |ys| == |xs|
    ensures forall i :: 0 <= i < |xs| ==> ys[i] == Trim(xs[i])
  {
    seq(|xs|, i requires 0 <= i < |xs| => Trim(xs[i]))
  }

  /** The names outside `AUTH_ROLES`, in order. */
  function Unrecognised(xs: seq<string>): (bad: seq<string>)
    ensures |bad| <= |xs|
    ensures forall i :: 0 <= i < |bad| ==> bad[i] in xs && !IsRoleName(bad[i])
    ensures |bad| == 0 <==> forall i :: 0 <= i < |xs| ==> IsRoleName(xs[i])
    ensures forall i :: 0 <= i < |xs| && !IsRoleName(xs[i]) ==> xs[i] in bad
    decreases |xs|
  {
    if |xs| == 0 then []
    else
      var rest := Unrecognised(xs[1..]);
      assert forall i :: 1 <= i < |xs| ==> xs[i] == xs[1..][i - 1];
      if IsRoleName(xs[0]) then rest else [xs[0]] + rest
  }

  function ToRoles(names: seq<string>): (rs: seq<Role>)
    requires forall i :: 0 <= i < |names| ==> IsRoleName(names[i])
    ensures |rs| == |names|
    ensures forall i :: 0 <= i < |names| ==> Name(rs[i]) == names[i]
  {
    seq(|names|, i requires 0 <= i < |names| && IsRoleName(names[i]) => FromName(names[i]).value)
  }

  /** `normalizeRoles`: a missing or empty list means `['patient']`;
      otherwise every entry is trimmed and must name a role, and the
      unrecognised trimmed names are reported in order. */
  function NormalizeRoles(roles: Option<seq<string>>): (r: Result<seq<Role>, seq<string>>)
    ensures r.Ok? ==> |r.value| >= 1
    ensures roles.None? || roles.value == [] ==> r == Ok([Patient])
    ensures roles.Some? && roles.value != [] ==>
              (r.Ok? <==> forall i :: 0 <= i < |roles.value| ==> IsRoleName(Trim(roles.value[i])))
    ensures roles.Some? && roles.value != [] && r.Ok? ==>
              |r.value| == |roles.value|
              && forall i :: 0 <= i < |roles.value| ==> Name(r.value[i]) == Trim(roles.value[i])
    ensures r.Err? ==>
              && roles.Some? && r.error != []
              && (forall i :: 0 <= i < |r.error| ==> r.error[i] in TrimAll(roles.value) && !IsRoleName(r.error[i]))
              && (forall i :: 0 <= i < |roles.value| && !IsRoleName(Trim(roles.value[i])) ==> Trim(roles.value[i]) in r.error)
  {
    if roles.None? || |roles.value| == 0 then Ok([Patient])
    else
      var normalized := TrimAll(roles.value);
      var invalid := Unrecognised(normalized);
      if |invalid| > 0 then Err(invalid) else Ok(ToRoles(normalized))
  }

  /** `issueTokens`: sign `{sub, email, roles}` with the access secret and
      lifetime, sign `{sub, tokenId}` with the refresh secret and lifetime,
      and persist one record holding the hash of the signed refresh token
      and an expiry exactly one refresh lifetime after `now`. Either secret
      missing aborts before anything is written. */
  function IssueTokens(s: Store, deps: Deps, env: Env, user: User, tokenId: string, now: int): (step: Step<Tokens>)
    ensures step.result.Ok? <==> Truthy(env.accessSecret) && Truthy(env.refreshSecret)
    ensures step.result.Err? ==> step.store == s && step.result.error.ConfigError?
    ensures step.result.Ok? ==>
              var t := step.result.value;
              && t.accessToken == deps.accessCodec.sign(AccessClaims(user.id, user.email, user.roles),
                                                        env.accessSecret.value, AccessLifetime(env))
              && t.refreshToken == deps.refreshCodec.sign(RefreshClaims(user.id, tokenId),
                                                          env.refreshSecret.value, RefreshLifetime(env))
              && step.store == SaveRefreshToken(s, RefreshRecord(user.id, tokenId, deps.hasher.hash(t.refreshToken),
                                                                 now + RefreshLifetime(env) * 1000))
  {
    match RequiredEnv("JWT_ACCESS_SECRET", env.accessSecret)
    case Err(e) => Step(Err(e), s)
    case Ok(accessSecret) =>
      var accessToken := deps.accessCodec.sign(AccessClaims(user.id, user.email, user.roles), accessSecret, AccessLifetime(env));
      match RequiredEnv("JWT_REFRESH_SECRET", env.refreshSecret)
      case Err(e) => Step(Err(e), s)
      case Ok(refreshSecret) =>
        var refreshToken := deps.refreshCodec.sign(RefreshClaims(user.id, tokenId), refreshSecret, RefreshLifetime(env));
        var hashedToken := deps.hasher.hash(refreshToken);
        var expiresAt := ExpiryDate(env.refreshTtl.GetOr(RefreshTtlFallbackText), now);
        RefreshExpiryAgrees(env.refreshTtl, now);
        Step(Ok(Tokens(accessToken, refreshToken)),
             SaveRefreshToken(s, RefreshRecord(user.id, tokenId, hashedToken, expiresAt)))
  }

  /** `login`: an unknown email and a wrong password fail alike, and the
      users are never touched. */
  function Login(s: Store, deps: Deps, env: Env, req: LoginRequest, tokenId: string, now: int): (step: Step<Tokens>)
    ensures step.store.users == s.users
    ensures step.result.Err? ==> step.store == s && (step.result.error == InvalidCredentials || step.result.error.ConfigError?)
    ensures FindByEmail(s, req.email).None? ==> step == Step(Err(InvalidCredentials), s)
    ensures (FindByEmail(s, req.email).Some?
             && !deps.hasher.compare(req.password, FindByEmail(s, req.email).value.passwordHash)) ==>
              step == Step(Err(InvalidCredentials), s)
    ensures step.result.Ok? ==>
              FindByEmail(s, req.email).Some? && deps.hasher.compare(req.password, FindByEmail(s, req.email).value.passwordHash)
    ensures (FindByEmail(s, req.email).Some?
             && deps.hasher.compare(req.password, FindByEmail(s, req.email).value.passwordHash)) ==>
              step == IssueTokens(s, deps, env, FindByEmail(s, req.email).value, tokenId, now)
  {
    match FindByEmail(s, req.email)
    case None => Step(Err(InvalidCredentials), s)
    case Some(user) =>
      if !deps.hasher.compare(req.password, user.passwordHash) then Step(Err(InvalidCredentials), s)
      else IssueTokens(s, deps, env, user, tokenId, now)
  }

  /** The user `register` builds for a request whose roles normalise. */
  function NewUser(deps: Deps, req: RegisterRequest, userId: string): User
    requires NormalizeRoles(req.roles).Ok?
  {
    User(userId, req.email, deps.hasher.hash(req.password), NormalizeRoles(req.roles).value)
  }

  /** `register`: a taken email or a bad role fails with the store
      unchanged; otherwise the new user is saved and tokens are issued. The
      user is saved before the secrets are read, so a missing secret leaves
      the user persisted. */
  function Register(s: Store, deps: Deps, env: Env, req: RegisterRequest, userId: string, tokenId: string, now: int)
    : (step: Step<Tokens>)
    ensures FindByEmail(s, req.email).Some? ==> step == Step(Err(EmailTaken), s)
    ensures FindByEmail(s, req.email).None? && NormalizeRoles(req.roles).Err? ==>
              step == Step(Err(BadRequest("Invalid roles: " + Join(NormalizeRoles(req.roles).error, ", "))), s)
    ensures step.result.Ok? ==>
              && FindByEmail(s, req.email).None?
              && NormalizeRoles(req.roles).Ok?
              && FindById(step.store, userId) == Some(NewUser(deps, req, userId))
              && FindByEmail(step.store, req.email) == Some(NewUser(deps, req, userId))
    ensures step.result.Err? && step.store != s ==>
              step.result.error.ConfigError?
              && NormalizeRoles(req.roles).Ok?
              && step.store == SaveUser(s, NewUser(deps, req, userId))
    ensures FindByEmail(s, req.email).None? && NormalizeRoles(req.roles).Ok? ==>
              step == IssueTokens(SaveUser(s, NewUser(deps, req, userId)), deps, env, NewUser(deps, req, userId), tokenId, now)
    ensures (FindByEmail(s, req.email).None? && NormalizeRoles(req.roles).Ok?
             && Truthy(env.accessSecret) && Truthy(env.refreshSecret)) ==> step.result.Ok?
  {
    if FindByEmail(s, req.email).Some? then Step(Err(EmailTaken), s)
    else
      match NormalizeRoles(req.roles)
      case Err(invalid) => Step(Err(BadRequest("Invalid roles: " + Join(invalid, ", "))), s)
      case Ok(roles) =>
        var user := User(userId, req.email, deps.hasher.hash(req.password), roles);
        IssueTokens(SaveUser(s, user), deps, env, user, tokenId, now)
  }

  /** `verifyRefreshToken`: the claims of a token that verifies under the
      refresh secret; an unset secret fails like a bad token (the error is
      thrown inside the same `try`). */
  function VerifyRefreshToken(deps: Deps, env: Env, token: string): (c: Option<RefreshClaims>)
    ensures !Truthy(env.refreshSecret) ==> c.None?
    ensures Truthy(env.refreshSecret) ==> c == deps.refreshCodec.verify(token, env.refreshSecret.value)
  {
    if Truthy(env.refreshSecret) then deps.refreshCodec.verify(token, env.refreshSecret.value) else None
  }

  /** The stored record a refresh token designates, if it verifies and one exists. */
  function PresentedRecord(s: Store, deps: Deps, env: Env, token: string): Option<RefreshRecord> {
    match VerifyRefreshToken(deps, env, token)
    case None => None
    case Some(c) => FindRefreshToken(s, c.sub, c.tokenId)
  }

  /** `refresh`: rotate a refresh token. An unverifiable token or a missing
      record fails with the store unchanged; an expired record (strictly
      before `now`) is deleted and reported as expired; a hash mismatch
      fails and keeps the record; a success deletes the presented record
      before issuing a new pair for the stored user it names, so the
      presented pair is gone afterwards; if that user no longer exists the
      record stays deleted and the user is reported missing. */
  function Refresh(s: Store, deps: Deps, env: Env, token: string, tokenId: string, now: int): (step: Step<Tokens>)
    ensures PresentedRecord(s, deps, env, token).None? ==> step == Step(Err(InvalidRefreshToken), s)
    ensures PresentedRecord(s, deps, env, token).Some? ==>
              var c, rec := VerifyRefreshToken(deps, env, token).value, PresentedRecord(s, deps, env, token).value;
              && (rec.expiresAt < now ==>
                    step == Step(Err(RefreshTokenExpired), RevokeRefreshToken(s, c.sub, c.tokenId)))
              && (rec.expiresAt >= now && !deps.hasher.compare(token, rec.hashedToken) ==>
                    step == Step(Err(InvalidRefreshToken), s))
              && (step.result.Ok? ==>
                    && rec.expiresAt >= now && deps.hasher.compare(token, rec.hashedToken)
                    && (tokenId != c.tokenId ==> FindRefreshToken(step.store, c.sub, c.tokenId).None?))
              && (rec.expiresAt >= now && deps.hasher.compare(token, rec.hashedToken) ==>
                    var s1 := RevokeRefreshToken(s, c.sub, c.tokenId);
                    && (FindById(s, c.sub).None? ==> step == Step(Err(UserNotFound), s1))
                    && (FindById(s, c.sub).Some? ==>
                          step == IssueTokens(s1, deps, env, FindById(s, c.sub).value, tokenId, now)))
    ensures step.result.Ok? ==> PresentedRecord(s, deps, env, token).Some?
    ensures step.store.users == s.users
  {
    match VerifyRefreshToken(deps, env, token)
    case None => Step(Err(InvalidRefreshToken), s)
    case Some(c) =>
      match FindRefreshToken(s, c.sub, c.tokenId)
      case None => Step(Err(InvalidRefreshToken), s)
      case Some(rec) =>
        if rec.expiresAt < now then
          Step(Err(RefreshTokenExpired), RevokeRefreshToken(s, c.sub, c.tokenId))
        else if !deps.hasher.compare(token, rec.hashedToken) then
          Step(Err(InvalidRefreshToken), s)
        else
          var s1 := RevokeRefreshToken(s, c.sub, c.tokenId);
          match FindById(s1, c.sub)
          case None => Step(Err(UserNotFound), s1)
          case Some(user) => IssueTokens(s1, deps, env, user, tokenId, now)
  }

  /** `validateUser`: the principal of the stored user the claims name. */
  function ValidateUser(s: Store, claims: AccessClaims): (r: Result<Principal, AuthError>)
    ensures r.Ok? <==> FindById(s, claims.sub).Some?
    ensures r.Err? ==> r.error == UserNotFound
    ensures r.Ok? ==> var u := FindById(s, claims.sub).value;
              r.value.userId == u.id && r.value.email == u.email && r.value.roles == u.roles
  {
    match FindById(s, claims.sub)
    case None => Err(UserNotFound)
    case Some(user) => Ok(Principal(user.id, user.email, user.roles))
  }
}
