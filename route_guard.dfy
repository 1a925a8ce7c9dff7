/**
 * The Next.js `proxy` that runs before every page request: it sends visitors without a
 * refresh-token cookie away from the dashboard, and visitors with one away from the public
 * pages, unless the request is a client-side navigation.
 */
module RouteGuard {
  import opened Strings

  datatype Decision = Next | Redirect(location: string)

  const LOGIN := "/login"
  const DASHBOARD := "/dashboard"
  const PUBLIC_PATHS: seq<string> := ["/", "/login", "/signup"]

  predicate IsProtectedPath(pathname: string) {
    StartsWith(pathname, DASHBOARD)
  }

  predicate IsPublicPath(pathname: string) {
    pathname in PUBLIC_PATHS
  }

  /**
   * `proxy(request)`: `hasRefreshCookie` is whether the `refreshToken` cookie is present and
   * `isClientNavigation` whether the referer has the request's own origin.
   */
  function Proxy(pathname: string, hasRefreshCookie: bool, isClientNavigation: bool): (d: Decision)
    ensures d.Redirect? ==> d.location in {LOGIN, DASHBOARD}
    ensures d.Redirect? ==> d.location != pathname
  {
    if !hasRefreshCookie && IsProtectedPath(pathname) then Redirect(LOGIN)
    else if hasRefreshCookie && IsPublicPath(pathname) && !isClientNavigation then Redirect(DASHBOARD)
    else Next
  }

  /** The three outcomes, each with the exact conditions under which it happens. */
  lemma ProxyOutcomes(pathname: string, hasRefreshCookie: bool, isClientNavigation: bool)
    ensures var d := Proxy(pathname, hasRefreshCookie, isClientNavigation);
      && (d == Redirect(LOGIN) <==> !hasRefreshCookie && IsProtectedPath(pathname))
      && (d == Redirect(DASHBOARD) <==> hasRefreshCookie && IsPublicPath(pathname) && !isClientNavigation)
      && (d == Next <==>
            !(!hasRefreshCookie && IsProtectedPath(pathname)) &&
            !(hasRefreshCookie && IsPublicPath(pathname) && !isClientNavigation))
  {
  }

  /** No public path is protected, so the two redirect rules never compete even for the path. */
  lemma PublicPathsAreUnprotected(pathname: string)
    requires IsPublicPath(pathname)
    ensures !IsProtectedPath(pathname)
  {
  }

  /**
   * Following a redirect once settles: the page redirected to passes through for the same
   * cookie state, whether or not that follow-up request counts as a client navigation.
   */
  lemma RedirectTargetPassesThrough(pathname: string, hasRefreshCookie: bool, isClientNavigation: bool, followUp: bool)
    requires Proxy(pathname, hasRefreshCookie, isClientNavigation).Redirect?
    ensures Proxy(Proxy(pathname, hasRefreshCookie, isClientNavigation).location, hasRefreshCookie, followUp) == Next
  {
  }

  /** Every path under the dashboard sends a visitor without the cookie to the login page. */
  lemma DashboardSubpathsProtected(rest: string)
    ensures Proxy(DASHBOARD + rest, false, false) == Redirect(LOGIN)
    ensures Proxy(DASHBOARD + rest, false, true) == Redirect(LOGIN)
  {
    assert (DASHBOARD + rest)[..|DASHBOARD|] == DASHBOARD;
  }
}
