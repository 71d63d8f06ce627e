/** The frontend `middleware`: every matched request either passes through,
    is sent home because a signed-in user asked for the login page, or is
    sent to the login page (remembering where it was going) because an
    anonymous user asked for anything else. */
module RouteGate {
  import opened Wrappers
  import opened JsText

  datatype Decision =
    | Next
    | Redirect(pathname: string, from: Option<string>)

  const PublicPaths: seq<string> := ["/login"]
  const Home: string := "/"
  const LoginPage: string := "/login"

  /** `PUBLIC_PATHS.some(p => pathname.startsWith(p))`. */
  function IsPublicAmong(paths: seq<string>, pathname: string): (b: bool)
    ensures b <==> exists i :: 0 <= i < |paths| && StartsWith(pathname, paths[i])
    decreases |paths|
  {
    if |paths| == 0 then false
    else if StartsWith(pathname, paths[0]) then true
    else
      var b := IsPublicAmong(paths[1..], pathname);
      assert forall i :: 1 <= i < |paths| ==> paths[i] == paths[1..][i - 1];
      b
  }

  predicate IsPublic(pathname: string) {
    IsPublicAmong(PublicPaths, pathname)
  }

  /** `middleware(request)` for a request to `pathname`, with or without an
      `accessToken` cookie. */
  function Middleware(pathname: string, hasToken: bool): (d: Decision)
    ensures d == Redirect(Home, None) <==> IsPublic(pathname) && hasToken
    ensures d == Redirect(LoginPage, Some(pathname)) <==> !IsPublic(pathname) && !hasToken
    ensures d == Next <==> (IsPublic(pathname) <==> !hasToken)
  {
    if IsPublic(pathname) && hasToken then Redirect(Home, None)
    else if !IsPublic(pathname) && !hasToken then Redirect(LoginPage, Some(pathname))
    else Next
  }

  /** Public means "starts with `/login`": a prefix test, so `/login-x` and
      `/loginfoo/bar` are public while `/` and `/dashboard` are not. */
  lemma PublicIsLoginPrefix(pathname: string)
    ensures IsPublic(pathname) <==> StartsWith(pathname, LoginPage)
    ensures IsPublic("/login-x") && IsPublic("/login") && !IsPublic("/") && !IsPublic("/dashboard")
  {
    assert "/login-x"[..6] == "/login";
    assert "/login"[..6] == "/login";
    assert "/dashboard"[..6][1] == 'd' != "/login"[1];
  }

  /** No redirect loop: following either redirect with the same cookie
      state passes straight through. */
  lemma NoRedirectLoop(pathname: string, hasToken: bool)
    ensures var d := Middleware(pathname, hasToken);
      d.Redirect? ==> Middleware(d.pathname, hasToken) == Next
  {
    PublicIsLoginPrefix(Home);
    PublicIsLoginPrefix(LoginPage);
  }
}
