/**
 * `authInterceptor`: attach the access token as a bearer credential
 * (section 2.1 of RFC 6750) to every request that is not an authentication
 * request, and on a 401 try one refresh and one retry.
 */
module Interceptor {
  import opened Wrappers
  import opened JsValues
  import opened AuthClient

  /** The URL fragments that mark an authentication request. */
  const AuthPaths: seq<string> := ["/login", "/register", "/refresh", "/forgot-password", "/reset-password", "/health"]

  /** `part` occurs in `s` at index `i`. */
  predicate OccursAt(s: string, part: string, i: int) {
    0 <= i && i + |part| <= |s| && s[i..i + |part|] == part
  }

  /** `s.includes(part)`, searching from the left. */
  function Includes(s: string, part: string): (b: bool)
    ensures b <==> exists i :: OccursAt(s, part, i)
    decreases |s|
  {
    if |s| < |part| then false
    else if s[..|part|] == part then
      assert OccursAt(s, part, 0);
      true
    else
      assert forall i :: OccursAt(s[1..], part, i) ==> OccursAt(s, part, i + 1);
      assert forall i :: OccursAt(s, part, i) ==> i == 0 || OccursAt(s[1..], part, i - 1);
      Includes(s[1..], part)
  }

  /** `isAuthRequest`: the URL contains one of the fragments anywhere. */
  function IsAuthRequest(url: string): (b: bool)
    ensures b <==> exists k :: 0 <= k < |AuthPaths| && Includes(url, AuthPaths[k])
  {
    assert AuthPaths[0] == "/login" && AuthPaths[1] == "/register" && AuthPaths[2] == "/refresh";
    assert AuthPaths[3] == "/forgot-password" && AuthPaths[4] == "/reset-password" && AuthPaths[5] == "/health";
    Includes(url, "/login") || Includes(url, "/register") || Includes(url, "/refresh") ||
    Includes(url, "/forgot-password") || Includes(url, "/reset-password") || Includes(url, "/health")
  }

  /** An outgoing request: its URL and its headers. */
  datatype Request = Request(url: string, headers: map<string, string>)

  /** `req.clone({ setHeaders: { Authorization: `Bearer ${token}` } })`; a
      `null` token is printed as `null`. */
  function WithBearer(req: Request, token: Option<string>): (r: Request)
    ensures r.url == req.url
    ensures r.headers.Keys == req.headers.Keys + {"Authorization"}
    ensures forall h :: h in req.headers && h != "Authorization" ==> r.headers[h] == req.headers[h]
    ensures token.Some? ==> r.headers["Authorization"] == "Bearer " + token.value
  {
    Request(req.url, req.headers["Authorization" := "Bearer " + (if token.Some? then token.value else "null")])
  }

  /** `next(req)`: the rest of the HTTP pipeline. */
  type Backend = Request -> Result<JsValue, HttpError>

  /** The `POST refresh` that `authService.refreshToken` sends (itself an
      authentication request, so it passes this interceptor untouched). */
  type RefreshCall = string -> Result<AuthResponse, HttpError>

  /** What the interceptor's observable errors with: an HTTP error, or the
      message `refreshToken`'s error handler threw. */
  datatype Failure = Http(error: HttpError) | Rethrown(message: JsValue)

  /** The result of one intercepted request, the requests sent downstream,
      whether a refresh was attempted, and the storage afterwards. */
  datatype Exchange = Exchange(outcome: Result<JsValue, Failure>, sent: seq<Request>, refreshed: bool,
                               storage: map<string, Item>)

  /** The request as first sent: with the bearer header iff a token is stored
      and the URL is not an authentication request. */
  function FirstRequest(storage: map<string, Item>, req: Request): (r: Request)
    ensures Authenticated(storage) && !IsAuthRequest(req.url) ==>
              "Authorization" in r.headers && r.headers["Authorization"] == "Bearer " + TokenIn(storage).value
    ensures !(Authenticated(storage) && !IsAuthRequest(req.url)) ==> r == req
  {
    if Authenticated(storage) && !IsAuthRequest(req.url) then WithBearer(req, TokenIn(storage)) else req
  }

  /** The interceptor on `req`, with the service's storage `storage`. */
  function Intercept(storage: map<string, Item>, decode: Decoder, req: Request, next: Backend,
                     refresh: RefreshCall, now: int): (x: Exchange)
    ensures 1 <= |x.sent| <= 2 && x.sent[0] == FirstRequest(storage, req)
    ensures !x.refreshed ==> |x.sent| == 1
    ensures x.outcome.Ok? ==> next(x.sent[|x.sent| - 1]) == Ok(x.outcome.value)
    ensures x.outcome.Ok? && !x.refreshed ==> x.storage == storage
    ensures x.outcome.Ok? && x.refreshed ==>
              && RefreshTokenIn(storage).Some? && refresh(RefreshTokenIn(storage).value).Ok?
              && x.storage == AfterAuth(storage, refresh(RefreshTokenIn(storage).value).value, decode, now)
  {
    var first := FirstRequest(storage, req);
    match next(first)
    case Ok(v) => Exchange(Ok(v), [first], false, storage)
    case Err(e) =>
      if e.status == 401 && !IsAuthRequest(req.url) then
        var rt := RefreshTokenIn(storage);
        if rt.Some? && rt.value != "" then
          match refresh(rt.value)
          case Err(re) => Exchange(Err(Rethrown(ExtractErrorMessage(re))), [first], true, AfterClear(storage))
          case Ok(response) =>
            var renewed := AfterAuth(storage, response, decode, now);
            var retry := WithBearer(first, TokenIn(renewed));
            match next(retry)
            case Ok(v) => Exchange(Ok(v), [first, retry], true, renewed)
            case Err(e2) => Exchange(Err(Http(e2)), [first, retry], true, AfterClear(renewed))
        else Exchange(Err(Http(e)), [first], false, AfterClear(storage))
      else Exchange(Err(Http(e)), [first], false, storage)
  }

  /** At most one retry: a second request is sent only after a 401 on a
      non-authentication request, a stored refresh token and a successful
      refresh, and it carries the newly stored access token. */
  lemma AtMostOneRetry(storage: map<string, Item>, decode: Decoder, req: Request, next: Backend,
                       refresh: RefreshCall, now: int)
    ensures var x := Intercept(storage, decode, req, next, refresh, now);
            var first := FirstRequest(storage, req);
            && (|x.sent| == 1 || |x.sent| == 2)
            && x.sent[0] == first
            && (|x.sent| == 2 ==>
                  && x.refreshed
                  && next(first).Err? && next(first).error.status == 401 && !IsAuthRequest(req.url)
                  && RefreshTokenIn(storage).Some?
                  && refresh(RefreshTokenIn(storage).value).Ok?
                  && x.sent[1].url == req.url
                  && x.sent[1].headers["Authorization"] ==
                       "Bearer " + refresh(RefreshTokenIn(storage).value).value.accessToken)
  {
  }

  /** A refresh that fails, or a retry that fails, leaves the client logged out
      and rethrows that failure. */
  lemma {:induction false} FailedRecoveryLogsOut(storage: map<string, Item>, decode: Decoder, req: Request,
                                                 next: Backend, refresh: RefreshCall, now: int)
    ensures var x := Intercept(storage, decode, req, next, refresh, now);
            x.refreshed && x.outcome.Err? ==> x.storage == AfterClear(storage) && !Authenticated(x.storage)
  {
    var first := FirstRequest(storage, req);
    var rt := RefreshTokenIn(storage);
    if next(first).Err? && next(first).error.status == 401 && !IsAuthRequest(req.url) &&
       rt.Some? && rt.value != "" && refresh(rt.value).Ok? {
      ClearUndoesAuth(storage, refresh(rt.value).value, decode, now);
    }
  }

  /** A 401 with no stored refresh token logs out and rethrows the original error. */
  lemma NoRefreshTokenLogsOut(storage: map<string, Item>, decode: Decoder, req: Request, next: Backend,
                              refresh: RefreshCall, now: int)
    requires next(FirstRequest(storage, req)).Err? && next(FirstRequest(storage, req)).error.status == 401
    requires !IsAuthRequest(req.url)
    requires RefreshTokenIn(storage).None? || RefreshTokenIn(storage).value == ""
    ensures Intercept(storage, decode, req, next, refresh, now) ==
              Exchange(Err(Http(next(FirstRequest(storage, req)).error)), [FirstRequest(storage, req)], false,
                       AfterClear(storage))
  {
  }

  /** Any other error, and any error on an authentication request, passes
      through unchanged, with no refresh and no change to the session. */
  lemma OtherErrorsPassThrough(storage: map<string, Item>, decode: Decoder, req: Request, next: Backend,
                               refresh: RefreshCall, now: int)
    requires next(FirstRequest(storage, req)).Err?
    requires next(FirstRequest(storage, req)).error.status != 401 || IsAuthRequest(req.url)
    ensures Intercept(storage, decode, req, next, refresh, now) ==
              Exchange(Err(Http(next(FirstRequest(storage, req)).error)), [FirstRequest(storage, req)], false, storage)
  {
  }

  /** `authInterceptor` against the service `svc`: the state changes go through
      `handleAuthResponse` and `logoutLocal`. */
  method Run(svc: AuthService, req: Request, next: Backend, refresh: RefreshCall, now: int)
    returns (outcome: Result<JsValue, Failure>, sent: seq<Request>)
    modifies svc
    ensures var x := Intercept(old(svc.storage), svc.decode, req, next, refresh, now);
            outcome == x.outcome && sent == x.sent && svc.storage == x.storage
    ensures old(svc.Valid()) ==> svc.Valid()
  {
    var token := TokenIn(svc.storage);
    var isAuthRequest := IsAuthRequest(req.url);
    var r := req;
    if token.Some? && token.value != "" && !isAuthRequest {
      r := WithBearer(r, token);
    }
    sent := [r];
    var first := next(r);
    if first.Ok? {
      return Ok(first.value), sent;
    }
    var error := first.error;
    if error.status == 401 && !isAuthRequest {
      var refreshToken := svc.GetRefreshToken();
      if refreshToken.Some? && refreshToken.value != "" {
        var refreshed := refresh(refreshToken.value);
        if refreshed.Err? {
          svc.LogoutLocal();
          return Err(Rethrown(ExtractErrorMessage(refreshed.error))), sent;
        }
        svc.HandleAuthResponse(refreshed.value, now);
        var newToken := TokenIn(svc.storage);
        var clonedReq := WithBearer(r, newToken);
        sent := sent + [clonedReq];
        var retried := next(clonedReq);
        if retried.Err? {
          svc.LogoutLocal();
          return Err(Http(retried.error)), sent;
        }
        return Ok(retried.value), sent;
      } else {
        svc.LogoutLocal();
      }
    }
    return Err(Http(error)), sent;
  }

  // ---- Classifying URLs by substring ----

  /** As written: a user query whose e-mail begins with `health` is taken for
      an authentication request, so it is sent without the bearer header. */
  lemma EmailQueryTakenForAuthRequest(authUrl: string)
    ensures IsAuthRequest(authUrl + "/users/email/healthy@example.com")
  {
    var tail := "/users/email/healthy@example.com";
    var url := authUrl + tail;
    var i := |authUrl| + 12;
    assert tail[12..19] == "/health";
    assert url[i..i + 7] == tail[12..19];
    assert OccursAt(url, "/health", i);
  }

  /** Corrected: the request is for one of the authentication endpoints under `authUrl`. */
  predicate IsAuthEndpoint(url: string, authUrl: string) {
    exists k :: 0 <= k < |AuthPaths| && url == authUrl + AuthPaths[k]
  }

  /** The corrected test never classifies a user query as an authentication
      request, and still recognises every authentication endpoint. */
  lemma {:induction false} UserQueriesAreNotAuthEndpoints(authUrl: string, rest: string)
    ensures !IsAuthEndpoint(authUrl + "/users/" + rest, authUrl)
    ensures forall k :: 0 <= k < |AuthPaths| ==> IsAuthEndpoint(authUrl + AuthPaths[k], authUrl)
  {
    var url := authUrl + "/users/" + rest;
    assert url[|authUrl| + 1] == 'u';
    forall k | 0 <= k < |AuthPaths|
      ensures url != authUrl + AuthPaths[k]
    {
      assert AuthPaths[k][1] != 'u';
      assert (authUrl + AuthPaths[k])[|authUrl| + 1] == AuthPaths[k][1];
    }
  }
}
