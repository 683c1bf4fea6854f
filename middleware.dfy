/**
 * The navigation gate run before every page request: from whether the
 * visitor has a session and the requested path, it decides to redirect to
 * the dashboard, redirect to the login page, or let the request through.
 */
module Middleware {

  datatype Decision = RedirectTo(target: string) | Next

  /** The login and registration pages (prefix match). */
  predicate IsAuthPage(path: string) {
    "/login" <= path || "/register" <= path
  }

  /** The landing page exactly, or anything under the "/pricing" prefix. */
  predicate IsPublicPage(path: string) {
    path == "/" || "/pricing" <= path
  }

  /** The gate: a visitor with a session is sent away from the auth pages;
      a visitor without one is sent to login from every page that is
      neither an auth page nor public; everything else passes. */
  function Gate(loggedIn: bool, path: string): (d: Decision)
    ensures d == RedirectTo("/dashboard") <==> loggedIn && IsAuthPage(path)
    ensures d == RedirectTo("/login") <==> !loggedIn && !IsAuthPage(path) && !IsPublicPage(path)
    ensures d == Next <==> (loggedIn && !IsAuthPage(path)) || (!loggedIn && (IsAuthPage(path) || IsPublicPage(path)))
    ensures d.RedirectTo? ==> d.target == "/dashboard" || d.target == "/login"
  {
    if loggedIn && IsAuthPage(path) then RedirectTo("/dashboard")
    else if !loggedIn && !IsAuthPage(path) && !IsPublicPage(path) then RedirectTo("/login")
    else Next
  }

  /** Following a redirect lands on a page the gate lets through for the
      same visitor, so the gate never loops, and a visitor with a session
      is never sent to login, one without a session never to the dashboard. */
  lemma RedirectsSettle(loggedIn: bool, path: string)
    ensures Gate(loggedIn, path).RedirectTo? ==> Gate(loggedIn, Gate(loggedIn, path).target) == Next
    ensures loggedIn ==> Gate(loggedIn, path) != RedirectTo("/login")
    ensures !loggedIn ==> Gate(loggedIn, path) != RedirectTo("/dashboard")
  {
    assert "/dashboard"[..6] != "/login" && "/dashboard"[..9] != "/register";
    assert "/login" <= "/login";
  }

  /** "/pricingx" counts as public, because the check is a prefix match. */
  lemma PricingPrefixIsPublic()
    ensures Gate(false, "/pricingx") == Next
    ensures Gate(false, "/dashboard") == RedirectTo("/login")
  {
    assert "/pricing" <= "/pricingx";
    assert "/dashboard"[..6] != "/login" && "/dashboard"[..9] != "/register" && "/dashboard"[..8] != "/pricing";
  }
}
