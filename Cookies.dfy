/**
 * The browser's cookie jar as the token route sees it: the three cookies it
 * reads, and how a list of `Set-Cookie` writes changes them. A cookie whose
 * `Max-Age` is zero or negative expires at once (section 5.2.2 of RFC 6265)
 * and is evicted from the store (section 5.3 of RFC 6265); otherwise the
 * newest write of a name replaces the older value.
 */
module Cookies {
  import opened Wrappers

  const AccessTokenCookie := "spotify_access_token"
  const RefreshTokenCookie := "spotify_refresh_token"
  const TokenExpiryCookie := "spotify_token_expiry"

  /** The cookies a request carries; `None` is a cookie that is not set. */
  datatype Jar = Jar(accessToken: Option<string>, refreshToken: Option<string>, tokenExpiry: Option<string>) {

    /** `request.cookies.get(name)?.value`; cookies other than the three are not part of the model. */
    function Get(name: string): Option<string> {
      if name == AccessTokenCookie then accessToken
      else if name == RefreshTokenCookie then refreshToken
      else if name == TokenExpiryCookie then tokenExpiry
      else None
    }
  }

  predicate IsTracked(name: string) {
    name == AccessTokenCookie || name == RefreshTokenCookie || name == TokenExpiryCookie
  }

  /** The attributes the route passes to `cookies.set`. */
  datatype CookieOptions = CookieOptions(httpOnly: bool, secure: bool, sameSite: string, maxAge: int)

  /** One `Set-Cookie` instruction of a response. */
  datatype CookieWrite = CookieWrite(name: string, value: string, options: CookieOptions)

  /** What the store holds for a name after `w`: its value, or nothing when it expired on arrival. */
  function Stored(w: CookieWrite): Option<string> {
    if w.options.maxAge > 0 then Some(w.value) else None
  }

  /** The jar after the browser processes `w`. */
  function Store(jar: Jar, w: CookieWrite): (j: Jar)
    ensures IsTracked(w.name) ==> j.Get(w.name) == Stored(w)
    ensures forall name :: name != w.name ==> j.Get(name) == jar.Get(name)
  {
    if w.name == AccessTokenCookie then jar.(accessToken := Stored(w))
    else if w.name == RefreshTokenCookie then jar.(refreshToken := Stored(w))
    else if w.name == TokenExpiryCookie then jar.(tokenExpiry := Stored(w))
    else jar
  }

  /** The last write of `name` in `writes`, if any. */
  function LastWrite(writes: seq<CookieWrite>, name: string): (w: Option<CookieWrite>)
    ensures w.Some? ==> w.value in writes && w.value.name == name
    ensures w.None? <==> forall x :: x in writes ==> x.name != name
    ensures w.Some? ==> exists i :: 0 <= i < |writes| && writes[i] == w.value
                                   && (forall k :: i < k < |writes| ==> writes[k].name != name)
  {
    if writes == [] then None
    else if writes[|writes| - 1].name == name then Some(writes[|writes| - 1])
    else LastWrite(writes[..|writes| - 1], name)
  }

  /** The jar after the browser processes `writes` in order. Every tracked cookie
      holds what its last write left, and a cookie nothing wrote keeps its value. */
  function Apply(jar: Jar, writes: seq<CookieWrite>): (j: Jar)
    ensures forall name :: IsTracked(name) ==>
      j.Get(name) == match LastWrite(writes, name) case Some(w) => Stored(w) case None => jar.Get(name)
  {
    if writes == [] then jar
    else Store(Apply(jar, writes[..|writes| - 1]), writes[|writes| - 1])
  }
}
