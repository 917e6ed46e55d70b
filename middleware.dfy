/**
 * The access gate of src/middleware.ts: a decision from the request path and the
 * session (`auth()`'s answer, `None` for no session) to pass the request on,
 * redirect it, or answer with a JSON error.
 */
module Middleware {
  import opened Wrappers
  import opened JsString
  import opened AuthConfig

  const LoginPath: string := "/admin/login"

  /** The route prefixes that need a superuser. */
  const AdminRoutes: seq<string> := ["/admin", "/api/posts"]

  /** `routes.some((route) => path.startsWith(route))`. */
  function AnyPrefix(routes: seq<string>, path: string): (r: bool)
    ensures r <==> exists i :: 0 <= i < |routes| && StartsWith(path, routes[i])
  {
    if routes == [] then false
    else StartsWith(path, routes[0]) || AnyPrefix(routes[1..], path)
  }

  /** The path needs a superuser: it starts with "/admin" or "/api/posts", as plain text. */
  predicate RequiresAdmin(pathname: string)
    ensures RequiresAdmin(pathname) <==> StartsWith(pathname, "/admin") || StartsWith(pathname, "/api/posts")
  {
    assert AdminRoutes[0] == "/admin" && AdminRoutes[1] == "/api/posts";
    AnyPrefix(AdminRoutes, pathname)
  }

  /** The path is answered with JSON errors: every "/api/posts" path is one, no "/admin" path is. */
  predicate IsApiPath(pathname: string)
    ensures StartsWith(pathname, "/api/posts") ==> IsApiPath(pathname)
    ensures StartsWith(pathname, "/admin") ==> !IsApiPath(pathname)
  {
    assert StartsWith(pathname, "/api/posts") ==> pathname[..5] == "/api/posts"[..5] == "/api/";
    assert StartsWith(pathname, "/admin") ==> pathname[2] == 'd';
    StartsWith(pathname, "/api/")
  }

  datatype ErrorBody = ErrorBody(success: bool, error: string)

  /** `NextResponse.next()`, a redirect to a path of this site, or a JSON error response. */
  datatype Response = Next | Redirect(location: string) | Json(status: nat, body: ErrorBody)

  /** `session?.user` is truthy. */
  predicate SignedIn(session: Option<Session>) {
    session.Some? && session.value.user.Some?
  }

  /** `session.user.isSuperuser` is truthy; a missing flag counts as false. */
  predicate Superuser(session: Option<Session>) {
    SignedIn(session) && session.value.user.value.isSuperuser == Some(true)
  }

  /** `middleware(request)` for a request to `pathname` whose session is `session`. */
  function Gate(pathname: string, session: Option<Session>): (r: Response)
    ensures !RequiresAdmin(pathname) ==> r == Next
    ensures r.Next? && pathname != LoginPath && RequiresAdmin(pathname) ==> Superuser(session)
    ensures r.Json? ==> IsApiPath(pathname) && RequiresAdmin(pathname) && !Superuser(session)
    ensures r.Redirect? ==> !IsApiPath(pathname)
    ensures pathname == LoginPath ==> r == if SignedIn(session) then Redirect("/admin") else Next
  {
    if pathname == LoginPath then
      assert LoginPath[2] != "/api/"[2];
      if SignedIn(session) then Redirect("/admin") else Next
    else if RequiresAdmin(pathname) then
      if !SignedIn(session) then
        if IsApiPath(pathname) then Json(401, ErrorBody(false, "Authentication required"))
        else Redirect("/admin/login")
      else if !Superuser(session) then
        if IsApiPath(pathname) then Json(403, ErrorBody(false, "Admin privileges required"))
        else Redirect("/admin/login?error=unauthorized")
      else Next
    else Next
  }

  /** Among protected paths, the API ones are exactly the "/api/posts" ones. */
  lemma {:induction false} ProtectedApiPaths(pathname: string)
    requires RequiresAdmin(pathname)
    ensures IsApiPath(pathname) <==> StartsWith(pathname, "/api/posts")
  {
    if StartsWith(pathname, "/api/posts") {
      assert "/api/" == "/api/posts"[..5];
      assert pathname[..5] == "/api/";
    } else {
      assert "/admin" <= pathname;
      assert pathname[1] == 'a' && pathname[2] == 'd';
    }
  }

  /** The outcomes for a protected path other than the login page. */
  lemma ProtectedOutcomes(pathname: string, session: Option<Session>)
    requires RequiresAdmin(pathname) && pathname != LoginPath
    ensures !SignedIn(session) && IsApiPath(pathname) ==> Gate(pathname, session) == Json(401, ErrorBody(false, "Authentication required"))
    ensures !SignedIn(session) && !IsApiPath(pathname) ==> Gate(pathname, session) == Redirect("/admin/login")
    ensures SignedIn(session) && !Superuser(session) && IsApiPath(pathname) ==>
      Gate(pathname, session) == Json(403, ErrorBody(false, "Admin privileges required"))
    ensures SignedIn(session) && !Superuser(session) && !IsApiPath(pathname) ==>
      Gate(pathname, session) == Redirect("/admin/login?error=unauthorized")
    ensures Superuser(session) ==> Gate(pathname, session) == Next
  {
  }

  /**
   * From sign-in to the gate: once `authorize` has accepted a stored user, the
   * session built by the jwt and session callbacks opens every protected path iff
   * that user is a superuser, and the login page sends the user to "/admin".
   */
  lemma {:induction false} SignedInAccess(credentials: Option<Credentials>, users: seq<DbUser>, lookupFails: bool,
                                          verify: (string, string) -> Option<bool>, a: AuthorizedUser,
                                          token: TokenClaims, session: Session, refreshes: nat, pathname: string)
    requires Authorize(credentials, users, lookupFails, verify) == Some(a)
    requires a.id != []
    ensures var u := FindByEmail(users, credentials.value.email.value).value;
      var s := SessionCallback(session, Refreshed(JwtClaims(token, Some(SignInUser(a))), refreshes));
      && (RequiresAdmin(pathname) && pathname != LoginPath ==> (Gate(pathname, Some(s)) == Next <==> u.isSuperuser))
      && Gate(LoginPath, Some(s)) == Redirect("/admin")
  {
    SignInSession(credentials, users, lookupFails, verify, a, token, session, refreshes);
    var u := FindByEmail(users, credentials.value.email.value).value;
    var s := SessionCallback(session, Refreshed(JwtClaims(token, Some(SignInUser(a))), refreshes));
    assert SignedIn(Some(s)) && (Superuser(Some(s)) <==> u.isSuperuser);
    if RequiresAdmin(pathname) && pathname != LoginPath {
      ProtectedOutcomes(pathname, Some(s));
    }
  }
}
