# Spotify token route, modelled in Dafny

The site's one server-side behaviour is `GET /api/spotify/token`. It hands the
browser a usable Spotify access token. When the access-token and expiry cookies
show a token that is still fresh, it returns that token unchanged. Otherwise it
runs the OAuth 2.0 refresh-token grant (section 6 of RFC 6749) against
Spotify's token endpoint with the refresh-token cookie, and writes the new
token back into cookies. The first write is `spotify_access_token`. The second
is `spotify_token_expiry`, which holds an absolute time in milliseconds. The
third, `spotify_refresh_token`, is written only when the endpoint rotated the
refresh token. Failures end in 401 (no refresh token, or the endpoint refused)
or 500 (the exchange threw).

The model makes every hidden input explicit:

- `now` is the `Date.now()` read by the freshness check.
- `refreshedAt` is the `Date.now()` read after the awaited exchange. The source reads the clock twice, so the expiry it writes counts from the end of the exchange.
- `upstream` is what the exchange did: `Throws`, `NotOk` or `Ok(TokenResponse)`.
- `production` stands for `NODE_ENV === 'production'`, which decides the `Secure` flag.

Files:

- `Wrappers.dfy`: `Option`.
- `JsNumbers.dfy`: JavaScript's `parseInt` without a radix, after section 19.2.5 of ECMAScript. It skips leading WhiteSpace and LineTerminator characters, reads a sign and an optional `0x` prefix, then the longest digit run, and gives NaN (`None`) when there is no digit. This file also holds `toString` on integers.
- `Cookies.dfy`: the three-cookie `Jar` and how the browser applies an ordered list of `Set-Cookie` writes to it. A `Max-Age` of zero or less removes the cookie (sections 5.2.2 and 5.3 of RFC 6265).
- `TokenRoute.dfy`: the handler. `Supply` is the handler as a function. `HandleGet` is the handler as the source writes it: early returns, then up to three `cookies.set` calls on a `JsonResponse` object. It is proved to produce exactly what `Supply` describes. The lemmas connect one request to the next through `Next`, which applies the handler's cookie writes to the jar.

## Model

| member | source | states |
|---|---|---|
| `TokenRoute.Supply` | app/api/spotify/token/route.ts:11-98 | Every outcome is 200, 401 or 500, and the body carries a token exactly on 200. A fresh stored token is returned with no exchange and no cookie write. An exchange happens exactly when the fast path is not taken and a refresh token is stored, and it posts `grant_type=refresh_token` with that token. Non-200 outcomes write no cookie. 401 carries "No refresh token found" or "Failed to refresh token" according to the cause. 500 happens exactly when the exchange threw, and carries "Failed to process token request". A returned token is either the stored one while fresh or the one just issued. A successful exchange writes exactly the cookies `RefreshWrites` describes. Every cookie is HttpOnly and SameSite=Lax, and it is Secure exactly in production. |
| `TokenRoute.FastPath` | app/api/spotify/token/route.ts:19 | A stored token is reused only when both the token and the expiry cookies are non-empty. The expiry must also parse to a number (not NaN) strictly greater than `now`. An expiry that parses to exactly `now` is never enough. |
| `TokenRoute.RefreshWrites` | app/api/spotify/token/route.ts:63-87 | A successful exchange writes three cookies when a non-empty refresh token came back, and two otherwise. First comes `spotify_access_token`, holding the new token with `Max-Age` = `expires_in`. Second comes `spotify_token_expiry`: its value is the numeral of `refreshedAt + expires_in * 1000` milliseconds, while its `Max-Age` is `expires_in` seconds. Third, when present, is `spotify_refresh_token`, holding the rotated token with `Max-Age` 31536000, which is one year. |
| `TokenRoute.ExpiryCookieReadsBack` | app/api/spotify/token/route.ts:71-72 | `parseInt` reads the expiry cookie a refresh writes back as exactly `refreshedAt + expires_in * 1000`, so the seconds of `expires_in` become milliseconds. |
| `TokenRoute.HandleGet` | app/api/spotify/token/route.ts:11-98 | The step-by-step handler returns a fresh response. Its status, body and cookie list, and the exchange request it makes, are exactly those of `Supply`. |
| `TokenRoute.JsonResponse.Json` | app/api/spotify/token/route.ts:59-61 | A new JSON response has the given body and status, and no cookies yet. |
| `TokenRoute.JsonResponse.SetCookie` | app/api/spotify/token/route.ts:64-69 | `cookies.set` appends exactly one write with the given name, value and options, and keeps the earlier writes. |
| `TokenRoute.OnlyRefreshChangesJar` | app/api/spotify/token/route.ts:19-54 | The next jar differs from the current one only after a successful exchange. The fast path, the missing refresh token, the refused exchange and the thrown exchange all leave every cookie as it was, so there is no partial write. |
| `TokenRoute.JarAfterRefresh` | app/api/spotify/token/route.ts:63-87 | After a successful exchange, the access-token cookie holds the new token. The expiry cookie holds `refreshedAt + expires_in * 1000`, which converts seconds to milliseconds. Both cookies vanish when `expires_in` is not positive. The refresh-token cookie holds the rotated token when a non-empty one came back, and the previous value otherwise. |
| `TokenRoute.RefreshedTokenReusedUntilExpiry` | app/api/spotify/token/route.ts:19-77 | A request made at time `later` on the refreshed jar takes the fast path exactly when three things hold: the new token is non-empty, `expires_in` is positive, and `later < refreshedAt + expires_in * 1000`. Both directions are proved. |
| `TokenRoute.SecondRequestTakesFastPath` | app/api/spotify/token/route.ts:19-21 | Before the written expiry, the next request gets the refreshed token back with status 200. It writes no cookie and makes no exchange, whatever the exchange would have done. |
| `TokenRoute.StaleOrMalformedExpiryRefreshes` | app/api/spotify/token/route.ts:19 | An expiry that parses to exactly `now`, or does not parse at all (NaN), does not allow the fast path. |
| `TokenRoute.EmptyCookieIsAbsent` | app/api/spotify/token/route.ts:14-29 | Replacing any empty cookie by a missing one does not change the outcome. |
| `TokenRoute.WritesNameDistinctCookies` | app/api/spotify/token/route.ts:63-87 | A successful exchange writes two or three cookies. They all have different names, and each is one of the three cookies the route reads. |
| `TokenRoute.StaleTokenScenario` | app/api/spotify/token/route.ts:11-89 | In the example, the stored token expired one second ago and the refresh token is `rt1`. The endpoint answers `at2` for 3600 s without rotation. The handler then returns `at2` after posting `rt1`. The next jar is `at2`, `rt1` and expiry `now + 3600000`. |
| `JsNumbers.ParseInt` | app/api/spotify/token/route.ts:19 | An empty string is NaN. A leading decimal digit that does not open a `0x` prefix gives a non-negative number. A leading character that is not white space, a sign or a decimal digit gives NaN. What it reads back is stated by `ParseIntOfIntToString` and `ParseIntSkipsWhiteSpace`. |
| `JsNumbers.ParseIntOfIntToString` | app/api/spotify/token/route.ts:72 | `parseInt` reads back exactly the integer whose `toString` was written into the expiry cookie. |
| `JsNumbers.ParseIntSkipsWhiteSpace` | app/api/spotify/token/route.ts:19 | Leading white space and line terminators do not change what `parseInt` reads from the expiry cookie. |
| `JsNumbers.IntToString` | app/api/spotify/token/route.ts:72 | The numeral written for the expiry is never empty and does not start with white space. It starts with `-` exactly when the number is negative. |
| `Cookies.Apply` | app/api/spotify/token/route.ts:63-87 | After the browser processes the response's writes in order, each of the three cookies holds what its last write stored: the value, or nothing when `Max-Age` was not positive. A cookie that no write names keeps its old value. |

## Left out

- The client credentials and their HTTP Basic encoding (section 2.3.1 of RFC 6749; `Buffer.from(...).toString('base64')`, `process.env` reads) are not modelled. The exchange request records only its form fields, `grant_type` and `refresh_token`.
- The network exchange and `response.json()` are inputs (`Upstream`), not computations. A fetch that rejects and a body that is not JSON both become `Throws`, because the source handles them alike. A JSON body missing `access_token` or `expires_in` is not modelled, and the fields are taken as typed by the `TokenResponse` interface.
- Numbers are unbounded integers, not IEEE doubles. Fractional `expires_in`, precision loss above 2^53, and the exponent notation `toString` uses from 10^21 upward are not modelled. Real `Date.now()` values are about 1.7 * 10^12. A negative zero from `parseInt` is the integer 0, which compares the same way.
- `JsNumbers.ParseInt` models `parseInt` only as the route calls it, with no radix argument.
- The jar holds only the three cookies the route reads. Cookie domain, path, duplicate names and expiry by the passage of time are not modelled. A cookie's time-based expiry is assumed not to have passed between two requests, except that a non-positive `Max-Age` removes it at once.
- `TokenRoute.JsonResponse.SetCookie` appends, whereas Next.js's response cookie store replaces an earlier entry of the same name. The handler never sets a name twice (`WritesNameDistinctCookies`), so the two agree here.
- `console.error` logging and `NextRequest`/`NextResponse` as framework objects are left out. No retry, timeout or serialisation of concurrent refreshes exists in the source, so none is modelled.
- `app/layout.tsx` is page scaffolding with no behaviour and is not part of this model.
