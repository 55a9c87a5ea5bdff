/** The route guard (middleware.ts): the login page is always reachable,
    other `/team` paths need a session. Whether the request carries a valid
    session is an input. */
module Middleware {
  import opened Text

  /** `NextResponse.next()`, or a redirect to `location` with the
      `redirect` query parameter. */
  datatype GuardResponse = Next | Redirect(location: string, redirectParam: string)

  const LoginPath: string := "/team/login"
  const ProtectedPrefix: string := "/team"

  /** `middleware`: the pass-or-redirect decision for a path. */
  function Guard(pathname: string, authenticated: bool): GuardResponse {
    if pathname == LoginPath then Next
    else if StartsWith(pathname, ProtectedPrefix) && !authenticated then Redirect(LoginPath, pathname)
    else Next
  }

  /** A redirect happens exactly for an unauthenticated request to a path
      starting with '/team' other than the login page, and it sends the
      original path along; the login page, authenticated requests and other
      paths pass. */
  lemma GuardDecision(pathname: string, authenticated: bool)
    ensures Guard(pathname, authenticated).Redirect? <==>
      pathname != LoginPath && StartsWith(pathname, ProtectedPrefix) && !authenticated
    ensures Guard(pathname, authenticated).Redirect? ==>
      Guard(pathname, authenticated) == Redirect("/team/login", pathname)
    ensures pathname == "/team/login" ==> Guard(pathname, authenticated) == Next
    ensures authenticated ==> Guard(pathname, authenticated) == Next
  {
  }

  /** The `matcher` `/team/:path*`: `/team` itself or a path below it. */
  predicate MatcherApplies(pathname: string) {
    pathname == "/team" || StartsWith(pathname, "/team/")
  }

  /** Every path the matcher hands over is a protected one; the prefix test
      alone would also take in '/teams', which the matcher never hands over. */
  lemma MatcherWithinPrefix(pathname: string)
    ensures MatcherApplies(pathname) ==> StartsWith(pathname, ProtectedPrefix)
    ensures Guard("/teams", false) == Redirect("/team/login", "/teams")
    ensures !MatcherApplies("/teams")
  {
    if StartsWith(pathname, "/team/") {
      assert pathname[..5] == pathname[..6][..5];
    }
    assert "/teams"[..5] == "/team";
    assert "/teams"[..6][5] == 's' && "/team/"[5] == '/';
  }
}
