/**
 * The `GET` handler of the Spotify token route: hand out a usable access
 * token, refreshing it with the OAuth 2.0 refresh-token grant (section 6 of
 * RFC 6749) when the stored one is missing or stale, and write the new
 * credentials back into cookies.
 *
 * The clock, the upstream exchange and the deployment mode are inputs:
 * `now` is the `Date.now()` read by the freshness check, `refreshedAt` the one
 * read after the exchange has answered, `upstream` what the exchange did, and
 * `production` whether cookies are marked `Secure`.
 */
module TokenRoute {
  import opened Wrappers
  import opened Cookies
  import opened JsNumbers

  const NoRefreshTokenError := "No refresh token found"
  const RefreshFailedError := "Failed to refresh token"
  const InternalError := "Failed to process token request"

  /** Lifetime of a rotated refresh token, one year in seconds. */
  const RefreshTokenMaxAge := 365 * 24 * 60 * 60

  /** The fields of the token endpoint's JSON answer the route reads (section 5.1 of RFC 6749). */
  datatype TokenResponse = TokenResponse(accessToken: string, expiresIn: int, refreshToken: Option<string>)

  /** How the exchange with the token endpoint ended. `Throws` is a rejected
      `fetch` or a body that is not JSON; `NotOk` a response outside 200-299. */
  datatype Upstream = Throws | NotOk | Ok(data: TokenResponse)

  /** The form the route posts: `grant_type=refresh_token&refresh_token=<stored token>`. */
  datatype RefreshRequest = RefreshRequest(grantType: string, refreshToken: string)

  /** The JSON body: `{access_token}` or `{error}`. */
  datatype Body = Token(accessToken: string) | Error(error: string)

  /** Everything the handler does: the response, the cookies it sets in order,
      and the exchange it starts, if any. */
  datatype Outcome = Outcome(status: int, body: Body, writes: seq<CookieWrite>, request: Option<RefreshRequest>)

  /** JavaScript truthiness of an optional string: set and not empty. */
  predicate Truthy(v: Option<string>) {
    v.Some? && v.value != ""
  }

  /** `parseInt(expiry) > now`, where NaN compares false. */
  predicate ExpiresAfter(expiry: string, now: int) {
    match ParseInt(expiry)
    case Some(t) => t > now
    case None => false
  }

  /** The stored access token may be handed out as it is. */
  predicate FastPath(jar: Jar, now: int): (reusable: bool)
    // only a non-empty token with a non-empty expiry is ever reused
    ensures reusable ==> Truthy(jar.accessToken) && Truthy(jar.tokenExpiry)
    // the expiry must be a number (not NaN) strictly after now
    ensures reusable ==> ParseInt(jar.tokenExpiry.value).Some? && now < ParseInt(jar.tokenExpiry.value).value
    ensures jar.tokenExpiry.Some? && ParseInt(jar.tokenExpiry.value) == Some(now) ==> !reusable
  {
    Truthy(jar.accessToken) && Truthy(jar.tokenExpiry) && ExpiresAfter(jar.tokenExpiry.value, now)
  }

  function Options(production: bool, maxAge: int): CookieOptions {
    CookieOptions(httpOnly := true, secure := production, sameSite := "lax", maxAge := maxAge)
  }

  /** The cookies a successful exchange sets: the new token and its expiry in
      milliseconds, both living `expires_in` seconds, and the rotated refresh
      token for a year when the endpoint sent one. */
  function RefreshWrites(data: TokenResponse, refreshedAt: int, production: bool): (ws: seq<CookieWrite>)
    ensures |ws| == if Truthy(data.refreshToken) then 3 else 2
    ensures ws[0].name == AccessTokenCookie && ws[0].value == data.accessToken
    ensures ws[0].options.maxAge == data.expiresIn
    // the expiry is an absolute time in milliseconds, its cookie lives expires_in seconds
    ensures ws[1].name == TokenExpiryCookie && ws[1].value == IntToString(refreshedAt + data.expiresIn * 1000)
    ensures ws[1].options.maxAge == data.expiresIn
    ensures |ws| == 3 ==> ws[2].name == RefreshTokenCookie && ws[2].value == data.refreshToken.value
    ensures |ws| == 3 ==> ws[2].options.maxAge == 31536000
  {
    [ CookieWrite(AccessTokenCookie, data.accessToken, Options(production, data.expiresIn)),
      CookieWrite(TokenExpiryCookie, IntToString(refreshedAt + data.expiresIn * 1000), Options(production, data.expiresIn)) ]
    + if Truthy(data.refreshToken)
      then [CookieWrite(RefreshTokenCookie, data.refreshToken.value, Options(production, RefreshTokenMaxAge))]
      else []
  }

  /** The expiry cookie a refresh writes reads back, through `parseInt`, as the
      refresh time plus `expires_in` seconds counted in milliseconds. */
  lemma ExpiryCookieReadsBack(data: TokenResponse, refreshedAt: int, production: bool)
    ensures ParseInt(RefreshWrites(data, refreshedAt, production)[1].value) == Some(refreshedAt + data.expiresIn * 1000)
  {
    var expiry := refreshedAt + data.expiresIn * 1000;
    assert RefreshWrites(data, refreshedAt, production)[1].value == IntToString(expiry);
    ParseIntOfIntToString(expiry);
  }

  /** The handler as a function of its inputs. */
  function Supply(jar: Jar, now: int, refreshedAt: int, upstream: Upstream, production: bool): (o: Outcome)
    // three terminal outcomes, and a token body exactly on 200
    ensures o.status == 200 || o.status == 401 || o.status == 500
    ensures o.body.Token? <==> o.status == 200
    // the fast path: the stored token, no exchange, no cookie
    ensures FastPath(jar, now) ==> o.status == 200 && o.body == Token(jar.accessToken.value) && o.writes == [] && o.request == None
    // an exchange happens exactly when the fast path is not taken and a refresh token is stored, and it carries that token
    ensures o.request.Some? <==> !FastPath(jar, now) && Truthy(jar.refreshToken)
    ensures o.request.Some? ==> o.request.value == RefreshRequest("refresh_token", jar.refreshToken.value)
    // failures: which error for which cause, and never a cookie
    ensures o.status != 200 ==> o.writes == []
    ensures o.status == 401 <==> !FastPath(jar, now) && (!Truthy(jar.refreshToken) || upstream.NotOk?)
    ensures o.status == 401 ==> o.body == Error(if Truthy(jar.refreshToken) then RefreshFailedError else NoRefreshTokenError)
    ensures o.status == 500 <==> o.request.Some? && upstream.Throws?
    ensures o.status == 500 ==> o.body == Error(InternalError)
    // a token handed out is either the stored one, still fresh, or the one just issued
    ensures o.body.Token? ==>
      (o.request.None? && FastPath(jar, now) && o.body.accessToken == jar.accessToken.value)
      || (o.request.Some? && upstream.Ok? && o.body.accessToken == upstream.data.accessToken)
    // every cookie is HTTP-only, SameSite=Lax, and Secure exactly in production
    // a successful exchange writes exactly the refreshed cookies
    ensures o.status == 200 && o.request.Some? ==> o.writes == RefreshWrites(upstream.data, refreshedAt, production)
    ensures forall w :: w in o.writes ==>
      w.options.httpOnly && w.options.sameSite == "lax" && w.options.secure == production
  {
    if FastPath(jar, now) then
      Outcome(200, Token(jar.accessToken.value), [], None)
    else if !Truthy(jar.refreshToken) then
      Outcome(401, Error(NoRefreshTokenError), [], None)
    else
      var request := Some(RefreshRequest("refresh_token", jar.refreshToken.value));
      match upstream
      case Throws => Outcome(500, Error(InternalError), [], request)
      case NotOk => Outcome(401, Error(RefreshFailedError), [], request)
      case Ok(data) => Outcome(200, Token(data.accessToken), RefreshWrites(data, refreshedAt, production), request)
  }

  /** The cookie jar the browser holds after the handler's response. */
  function Next(jar: Jar, now: int, refreshedAt: int, upstream: Upstream, production: bool): Jar {
    Apply(jar, Supply(jar, now, refreshedAt, upstream, production).writes)
  }

  /** Only a successful exchange changes the jar: the fast path and every failure leave it as it was. */
  lemma OnlyRefreshChangesJar(jar: Jar, now: int, refreshedAt: int, upstream: Upstream, production: bool)
    ensures Next(jar, now, refreshedAt, upstream, production) != jar ==>
      !FastPath(jar, now) && Truthy(jar.refreshToken) && upstream.Ok?
  {
  }

  /** After a successful exchange the jar holds the new token and its expiry in
      milliseconds (both gone at once when `expires_in` is not positive), and the
      refresh token is the rotated one when one came back and the old one otherwise. */
  lemma JarAfterRefresh(jar: Jar, now: int, refreshedAt: int, data: TokenResponse, production: bool)
    requires !FastPath(jar, now) && Truthy(jar.refreshToken)
    ensures var j := Next(jar, now, refreshedAt, Ok(data), production);
      && j.accessToken == (if data.expiresIn > 0 then Some(data.accessToken) else None)
      && j.tokenExpiry == (if data.expiresIn > 0 then Some(IntToString(refreshedAt + data.expiresIn * 1000)) else None)
      && j.refreshToken == (if Truthy(data.refreshToken) then data.refreshToken else jar.refreshToken)
  {
    var ws := RefreshWrites(data, refreshedAt, production);
    var j := Apply(jar, ws);
    assert j.Get(AccessTokenCookie) == Stored(ws[0]);
    assert j.Get(TokenExpiryCookie) == Stored(ws[1]);
    if Truthy(data.refreshToken) {
      assert j.Get(RefreshTokenCookie) == Stored(ws[2]);
    } else {
      assert j.Get(RefreshTokenCookie) == jar.refreshToken;
    }
  }

  /** The expiry written at `refreshedAt` makes the next request reuse the new
      token exactly while its clock is before `refreshedAt + expires_in * 1000`,
      provided the token is not empty and its lifetime is positive. */
  lemma RefreshedTokenReusedUntilExpiry(jar: Jar, now: int, refreshedAt: int, data: TokenResponse, production: bool, later: int)
    requires !FastPath(jar, now) && Truthy(jar.refreshToken)
    ensures FastPath(Next(jar, now, refreshedAt, Ok(data), production), later) <==>
      data.accessToken != "" && data.expiresIn > 0 && later < refreshedAt + data.expiresIn * 1000
  {
    JarAfterRefresh(jar, now, refreshedAt, data, production);
    ParseIntOfIntToString(refreshedAt + data.expiresIn * 1000);
  }

  /** A request carrying the cookies of an earlier refresh, made before they expire,
      gets the refreshed token back without any exchange or cookie write. */
  lemma SecondRequestTakesFastPath(jar: Jar, now: int, refreshedAt: int, data: TokenResponse, production: bool,
                                   later: int, laterRefreshedAt: int, laterUpstream: Upstream, laterProduction: bool)
    requires !FastPath(jar, now) && Truthy(jar.refreshToken)
    requires data.accessToken != "" && data.expiresIn > 0 && later < refreshedAt + data.expiresIn * 1000
    ensures Supply(Next(jar, now, refreshedAt, Ok(data), production), later, laterRefreshedAt, laterUpstream, laterProduction)
      == Outcome(200, Token(data.accessToken), [], None)
  {
    RefreshedTokenReusedUntilExpiry(jar, now, refreshedAt, data, production, later);
    JarAfterRefresh(jar, now, refreshedAt, data, production);
  }

  /** An expiry equal to `now`, or one that does not parse, does not allow the fast path. */
  lemma StaleOrMalformedExpiryRefreshes(jar: Jar, now: int)
    requires jar.tokenExpiry.Some? && (ParseInt(jar.tokenExpiry.value) == Some(now) || ParseInt(jar.tokenExpiry.value).None?)
    ensures !FastPath(jar, now)
  {
  }

  /** An empty cookie read as a missing one. */
  function EmptyAsMissing(v: Option<string>): Option<string> {
    if v == Some("") then None else v
  }

  /** An empty cookie is treated exactly like a missing one. */
  lemma EmptyCookieIsAbsent(jar: Jar, now: int, refreshedAt: int, upstream: Upstream, production: bool)
    ensures Supply(Jar(EmptyAsMissing(jar.accessToken), EmptyAsMissing(jar.refreshToken), EmptyAsMissing(jar.tokenExpiry)), now, refreshedAt, upstream, production)
      == Supply(jar, now, refreshedAt, upstream, production)
  {
  }

  /** The response cookies are written one name at a time, each at most once. */
  lemma WritesNameDistinctCookies(data: TokenResponse, refreshedAt: int, production: bool)
    ensures var ws := RefreshWrites(data, refreshedAt, production);
      && 2 <= |ws| <= 3
      && (forall i, k :: 0 <= i < k < |ws| ==> ws[i].name != ws[k].name)
      && (forall i :: 0 <= i < |ws| ==> IsTracked(ws[i].name))
  {
  }

  /** The worked example: a token stale by one second, refresh token `rt1`, and an
      exchange answering `at2` for an hour without rotation. */
  lemma StaleTokenScenario(now: int, production: bool)
    ensures var jar := Jar(Some("at1"), Some("rt1"), Some(IntToString(now - 1000)));
      var o := Supply(jar, now, now, Ok(TokenResponse("at2", 3600, None)), production);
      && o.body == Token("at2")
      && o.request == Some(RefreshRequest("refresh_token", "rt1"))
      && Apply(jar, o.writes) == Jar(Some("at2"), Some("rt1"), Some(IntToString(now + 3600000)))
  {
    var jar := Jar(Some("at1"), Some("rt1"), Some(IntToString(now - 1000)));
    ParseIntOfIntToString(now - 1000);
    assert !FastPath(jar, now);
    JarAfterRefresh(jar, now, now, TokenResponse("at2", 3600, None), production);
  }

  /** The response object of the handler: its status and body are fixed when it
      is made, and its cookie list grows with every `cookies.set`. */
  class JsonResponse {
    const status: int
    const body: Body
    var cookies: seq<CookieWrite>

    constructor Json(body: Body, status: int)
      ensures this.status == status && this.body == body && cookies == []
    {
      this.status := status;
      this.body := body;
      cookies := [];
    }

    /** `cookies.set(name, value, options)`; the handler never sets a name twice. */
    method SetCookie(name: string, value: string, options: CookieOptions)
      modifies this
      ensures cookies == old(cookies) + [CookieWrite(name, value, options)]
    {
      cookies := cookies + [CookieWrite(name, value, options)];
    }
  }

  /** The handler step by step: early returns on the two guards and on the
      exchange's failures, then up to three cookie writes on a fresh response. */
  method HandleGet(jar: Jar, now: int, refreshedAt: int, upstream: Upstream, production: bool)
    returns (response: JsonResponse, request: Option<RefreshRequest>)
    ensures fresh(response)
    ensures Outcome(response.status, response.body, response.cookies, request) == Supply(jar, now, refreshedAt, upstream, production)
  {
    var accessToken := jar.Get(AccessTokenCookie);
    var refreshToken := jar.Get(RefreshTokenCookie);
    var tokenExpiry := jar.Get(TokenExpiryCookie);
    request := None;

    if Truthy(accessToken) && Truthy(tokenExpiry) && ExpiresAfter(tokenExpiry.value, now) {
      assert Supply(jar, now, refreshedAt, upstream, production) == Outcome(200, Token(accessToken.value), [], None);
      response := new JsonResponse.Json(Token(accessToken.value), 200);
      return;
    }
    assert !FastPath(jar, now);

    if !Truthy(refreshToken) {
      assert Supply(jar, now, refreshedAt, upstream, production) == Outcome(401, Error(NoRefreshTokenError), [], None);
      response := new JsonResponse.Json(Error(NoRefreshTokenError), 401);
      return;
    }

    request := Some(RefreshRequest("refresh_token", refreshToken.value));
    if upstream.Throws? {
      response := new JsonResponse.Json(Error(InternalError), 500);
    } else if upstream.NotOk? {
      response := new JsonResponse.Json(Error(RefreshFailedError), 401);
    } else {
      var data := upstream.data;
      response := new JsonResponse.Json(Token(data.accessToken), 200);
      response.SetCookie(AccessTokenCookie, data.accessToken, Options(production, data.expiresIn));
      response.SetCookie(TokenExpiryCookie, IntToString(refreshedAt + data.expiresIn * 1000), Options(production, data.expiresIn));
      if Truthy(data.refreshToken) {
        response.SetCookie(RefreshTokenCookie, data.refreshToken.value, Options(production, RefreshTokenMaxAge));
      }
      assert response.cookies == RefreshWrites(data, refreshedAt, production);
    }
  }
}
