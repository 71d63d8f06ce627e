/** The authentication cookies: `setAuthCookies` writes the access and
    refresh tokens as two cookies, `clearAuthCookies` removes them. The
    lifetimes come from the same TTL reader the service signs with. */
module CookiePolicy {
  import opened Wrappers
  import opened Ttl
  import AuthService

  /** The configuration the helper reads from `process.env`. */
  datatype CookieEnv = CookieEnv(
    nodeEnv: Option<string>,     // NODE_ENV
    accessTtl: Option<string>,   // JWT_ACCESS_TTL
    refreshTtl: Option<string>   // JWT_REFRESH_TTL
  )

  /** The attributes shared by setting and clearing a cookie. */
  datatype CookieOptions = CookieOptions(httpOnly: bool, secure: bool, sameSite: string, path: string)

  /** `res.cookie(name, value, {...options, maxAge})`. */
  datatype SetCookie = SetCookie(name: string, value: string, options: CookieOptions, maxAge: int)

  /** `res.clearCookie(name, options)`. */
  datatype ClearCookie = ClearCookie(name: string, options: CookieOptions)

  const AccessCookie: string := "accessToken"
  const RefreshCookie: string := "refreshToken"
  const AccessPath: string := "/"
  const RefreshPath: string := "/api/auth"

  /** `isProduction()`: strict equality with `'production'`. */
  predicate IsProduction(env: CookieEnv) {
    env.nodeEnv == Some("production")
  }

  function Options(env: CookieEnv, path: string): CookieOptions {
    CookieOptions(true, IsProduction(env), "strict", path)
  }

  /** The two cookies `setAuthCookies` writes, access first. */
  function SetAuthCookies(env: CookieEnv, accessToken: string, refreshToken: string): (cs: seq<SetCookie>)
    ensures |cs| == 2
    ensures cs[0].name == AccessCookie && cs[0].value == accessToken && cs[0].options.path == AccessPath
    ensures cs[1].name == RefreshCookie && cs[1].value == refreshToken && cs[1].options.path == RefreshPath
    ensures cs[0].maxAge == ParseTtlSeconds(env.accessTtl, AccessTtlDefault) * 1000
    ensures cs[1].maxAge == ParseTtlSeconds(env.refreshTtl, RefreshTtlDefault) * 1000
    ensures forall i :: 0 <= i < 2 ==>
              cs[i].options.httpOnly && cs[i].options.sameSite == "strict"
              && (cs[i].options.secure <==> env.nodeEnv == Some("production"))
  {
    [ SetCookie(AccessCookie, accessToken, Options(env, AccessPath),
                ParseTtlSeconds(env.accessTtl, AccessTtlDefault) * 1000),
      SetCookie(RefreshCookie, refreshToken, Options(env, RefreshPath),
                ParseTtlSeconds(env.refreshTtl, RefreshTtlDefault) * 1000) ]
  }

  /** The two cookies `clearAuthCookies` removes, access first. */
  function ClearAuthCookies(env: CookieEnv): (cs: seq<ClearCookie>)
    ensures |cs| == 2
    ensures cs[0].name == AccessCookie && cs[1].name == RefreshCookie
  {
    [ ClearCookie(AccessCookie, Options(env, AccessPath)),
      ClearCookie(RefreshCookie, Options(env, RefreshPath)) ]
  }

  /** A browser drops a cookie only when the clearing call names it with the
      same path (and the same flags): every cookie that is set is the one
      that gets cleared, whatever the tokens. */
  lemma ClearMatchesSet(env: CookieEnv, accessToken: string, refreshToken: string)
    ensures var set_, clear := SetAuthCookies(env, accessToken, refreshToken), ClearAuthCookies(env);
      forall i :: 0 <= i < 2 ==> clear[i].name == set_[i].name && clear[i].options == set_[i].options
  {
  }

  /** With no TTL configured the access cookie lives 15 minutes and the
      refresh cookie 7 days; an unusable TTL falls back the same way. */
  lemma DefaultLifetimes(env: CookieEnv, accessToken: string, refreshToken: string)
    requires !Truthy(env.accessTtl) || MatchDuration(env.accessTtl.value).None?
    requires !Truthy(env.refreshTtl) || MatchDuration(env.refreshTtl.value).None?
    ensures SetAuthCookies(env, accessToken, refreshToken)[0].maxAge == 900000
    ensures SetAuthCookies(env, accessToken, refreshToken)[1].maxAge == 604800000
  {
  }

  /** The refresh cookie lives exactly as long as the refresh token it holds
      is signed for, and expires exactly when the record the service stored
      for it does, when both read the same `JWT_REFRESH_TTL` and the same
      clock reading `now`. (The program reads the clock once to stamp the
      record and again when the response sets the cookie, so in practice
      the cookie outlives the record by the time between the two.) */
  lemma RefreshCookieMatchesRecord(env: CookieEnv, svc: AuthService.Env, accessToken: string,
                                   refreshToken: string, now: int)
    requires env.refreshTtl == svc.refreshTtl && env.accessTtl == svc.accessTtl
    ensures SetAuthCookies(env, accessToken, refreshToken)[1].maxAge == AuthService.RefreshLifetime(svc) * 1000
    ensures SetAuthCookies(env, accessToken, refreshToken)[0].maxAge == AuthService.AccessLifetime(svc) * 1000
    ensures now + SetAuthCookies(env, accessToken, refreshToken)[1].maxAge
            == ExpiryDate(svc.refreshTtl.GetOr(RefreshTtlFallbackText), now)
  {
    RefreshExpiryAgrees(svc.refreshTtl, now);
  }
}
