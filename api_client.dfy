/**
 * The browser-side session cache: the access token kept in memory, the request interceptor
 * that attaches it, the response interceptor that refreshes it once per request on a 401,
 * and the `api` calls that set or clear it.
 *
 * HTTP exchanges are not performed: every reply the client would wait for is an argument.
 */
module ApiClient {
  import opened Errors
  import opened Strings

  /** What a request came back with: a status and the body's `accessToken` field, or no response at all. */
  datatype Reply = Reply(status: nat, accessToken: Option<string>) | NoResponse

  /** The HTTP client resolves 2xx replies and rejects everything else. */
  predicate Succeeded(r: Reply) {
    r.Reply? && 200 <= r.status < 300
  }

  /** Endpoints whose 401 must not trigger a refresh. */
  const AUTH_ENDPOINTS: seq<string> := ["/auth/login", "/auth/register", "/auth/refresh"]

  /** Pages from which a failed refresh does not redirect to the login page. */
  const NO_REDIRECT_PATHS: seq<string> := ["/login", "/signup", "/"]

  const LOGIN_URL := "/auth/login"
  const LOGOUT_URL := "/auth/logout"

  predicate IsAuthEndpoint(url: string) {
    exists e :: e in AUTH_ENDPOINTS && Includes(url, e)
  }

  /** The refresh condition of the response interceptor. */
  predicate ShouldRefresh(reply: Reply, retried: bool, url: string) {
    reply.Reply? && reply.status == 401 && !retried && !IsAuthEndpoint(url)
  }

  predicate RedirectsToLogin(currentPath: string) {
    currentPath !in NO_REDIRECT_PATHS
  }

  /** `if (accessToken)`: neither null nor the empty string. */
  predicate IsTruthy(token: Option<string>) {
    token.Some? && token.value != ""
  }

  /** `${token}` in a template literal; a missing field renders as "undefined". */
  function Rendered(token: Option<string>): (text: string) {
    if token.Some? then token.value else "undefined"
  }

  function Bearer(token: string): (header: string) {
    "Bearer " + token
  }

  /** The request config the interceptors read and mutate. */
  class Request {
    const url: string
    var authorization: Option<string>
    var retry: bool

    constructor (url: string)
      ensures this.url == url && authorization == None && !retry
    {
      this.url := url;
      authorization := None;
      retry := false;
    }
  }

  /** A request as it left the browser. */
  datatype Sent = Sent(url: string, authorization: Option<string>)

  /** How the call settles for its caller. */
  datatype Outcome = Resolved(reply: Reply) | Rejected(reply: Reply)

  class Session {
    var accessToken: Option<string>

    /** A page load starts with no token in memory. */
    constructor ()
      ensures accessToken == None
    {
      accessToken := None;
    }

    method SetAccessToken(token: Option<string>)
      modifies this
      ensures accessToken == token
    {
      accessToken := token;
    }

    method GetAccessToken() returns (token: Option<string>)
      ensures token == accessToken
    {
      token := accessToken;
    }

    /** The request interceptor: a truthy token becomes the bearer header; otherwise the header is left as it was. */
    method AttachToken(req: Request)
      modifies req
      ensures req.retry == old(req.retry)
      ensures req.authorization ==
        if IsTruthy(accessToken) then Some(Bearer(accessToken.value)) else old(req.authorization)
    {
      if IsTruthy(accessToken) {
        req.authorization := Some(Bearer(accessToken.value));
      }
    }

    /**
     * One call through the configured client. `first` is the reply to the request, `refresh`
     * the reply to the refresh call the interceptor may make, and `retried` the reply to the
     * re-sent request; `currentPath` is the page the browser shows.
     */
    method Send(req: Request, first: Reply, refresh: Reply, retried: Reply, currentPath: string)
      returns (outcome: Outcome, sent: seq<Sent>, refreshed: bool, redirectToLogin: bool)
      modifies this, req
      ensures 1 <= |sent| <= 2
      ensures sent[0] == Sent(req.url,
        if IsTruthy(old(accessToken)) then Some(Bearer(old(accessToken).value)) else old(req.authorization))
      ensures refreshed == ShouldRefresh(first, old(req.retry), req.url)
      ensures req.retry == (old(req.retry) || refreshed)
      ensures req.authorization == sent[|sent| - 1].authorization
      ensures !refreshed ==>
        && accessToken == old(accessToken) && |sent| == 1 && !redirectToLogin
        && outcome == if Succeeded(first) then Resolved(first) else Rejected(first)
      ensures refreshed && Succeeded(refresh) ==>
        && accessToken == refresh.accessToken && !redirectToLogin
        && |sent| == 2 && sent[1] == Sent(req.url, Some(Bearer(Rendered(refresh.accessToken))))
        && outcome == if Succeeded(retried) then Resolved(retried) else Rejected(retried)
      ensures refreshed && !Succeeded(refresh) ==>
        && accessToken == None && |sent| == 1
        && redirectToLogin == RedirectsToLogin(currentPath)
        && outcome == Rejected(refresh)
    {
      AttachToken(req);
      sent := [Sent(req.url, req.authorization)];
      refreshed, redirectToLogin := false, false;
      if Succeeded(first) {
        return Resolved(first), sent, refreshed, redirectToLogin;
      }
      if !ShouldRefresh(first, req.retry, req.url) {
        return Rejected(first), sent, refreshed, redirectToLogin;
      }
      req.retry := true;
      refreshed := true;
      if Succeeded(refresh) {
        SetAccessToken(refresh.accessToken);
        req.authorization := Some(Bearer(Rendered(refresh.accessToken)));
        AttachToken(req);
        sent := sent + [Sent(req.url, req.authorization)];
        // A failure of the re-sent request reaches the interceptor again, now with `_retry` set.
        assert !ShouldRefresh(retried, req.retry, req.url);
        outcome := if Succeeded(retried) then Resolved(retried) else Rejected(retried);
      } else {
        SetAccessToken(None);
        redirectToLogin := RedirectsToLogin(currentPath);
        outcome := Rejected(refresh);
      }
    }

    /** `api.login`: on success the reply's access token is held; on failure nothing changes. */
    method Login(reply: Reply, currentPath: string) returns (outcome: Outcome)
      modifies this
      ensures outcome == if Succeeded(reply) then Resolved(reply) else Rejected(reply)
      ensures accessToken == if Succeeded(reply) then reply.accessToken else old(accessToken)
    {
      var req := new Request(LOGIN_URL);
      assert IsAuthEndpoint(req.url) by {
        assert Includes(req.url, AUTH_ENDPOINTS[0]);
      }
      var sent, refreshed, redirect;
      outcome, sent, refreshed, redirect := Send(req, reply, NoResponse, NoResponse, currentPath);
      if Succeeded(reply) {
        SetAccessToken(reply.accessToken);
      }
    }

    /** `api.logout`: whatever the server answers, the held token ends up cleared. */
    method Logout(first: Reply, refresh: Reply, retried: Reply, currentPath: string)
      returns (outcome: Outcome, redirectToLogin: bool)
      modifies this
      ensures accessToken == None
      ensures redirectToLogin ==> RedirectsToLogin(currentPath) && first.Reply? && first.status == 401
    {
      var req := new Request(LOGOUT_URL);
      var sent, refreshed;
      outcome, sent, refreshed, redirectToLogin := Send(req, first, refresh, retried, currentPath);
      SetAccessToken(None);
    }

    /** `api.refreshToken`: a direct call that bypasses the interceptors. */
    method RefreshToken(reply: Reply) returns (outcome: Outcome)
      modifies this
      ensures outcome == if Succeeded(reply) then Resolved(reply) else Rejected(reply)
      ensures accessToken == if Succeeded(reply) then reply.accessToken else old(accessToken)
    {
      if Succeeded(reply) {
        SetAccessToken(reply.accessToken);
        outcome := Resolved(reply);
      } else {
        outcome := Rejected(reply);
      }
    }
  }

  /** A request already retried once never triggers another refresh, whatever it gets back. */
  lemma RetriedRequestNeverRefreshes(reply: Reply, url: string)
    ensures !ShouldRefresh(reply, true, url)
  {
  }

  /** A 401 on any URL that contains the refresh endpoint is rejected without a refresh. */
  lemma RefreshUrlsNeverRefresh(prefix: string, suffix: string, reply: Reply, retried: bool)
    ensures !ShouldRefresh(reply, retried, prefix + "/auth/refresh" + suffix)
  {
    var url := prefix + "/auth/refresh" + suffix;
    assert url[|prefix|..|prefix| + |"/auth/refresh"|] == "/auth/refresh";
    assert OccursAt(url, "/auth/refresh", |prefix|);
    assert AUTH_ENDPOINTS[2] in AUTH_ENDPOINTS && Includes(url, AUTH_ENDPOINTS[2]);
  }

  /** The logout endpoint is not exempt: a 401 on logout is refreshed and retried like any other call. */
  lemma LogoutIsNotExempt()
    ensures ShouldRefresh(Reply(401, None), false, LOGOUT_URL)
  {
    forall i ensures !OccursAt(LOGOUT_URL, "/auth/login", i) {
      if 0 <= i && i + 11 <= |LOGOUT_URL| {
        assert LOGOUT_URL[i..i + 11][10] == LOGOUT_URL[i + 10] != 'n';
      }
    }
    assert !Includes(LOGOUT_URL, "/auth/register");
    assert !Includes(LOGOUT_URL, "/auth/refresh");
  }
}
