/**
 * The part of Starlette's Response the service uses: an ordered list of Set-Cookie headers,
 * appended to by `set_cookie` and `delete_cookie`.
 */
module Http {
  import opened Wrappers

  datatype SameSite = Lax | Strict | NoSameSite

  /** One Set-Cookie header. `expiresNow` is `expires=0`, which `delete_cookie` adds. */
  datatype Cookie = Cookie(
    key: string,
    value: string,
    maxAge: int,
    httpOnly: bool,
    sameSite: SameSite,
    expiresNow: bool)

  /** The header `delete_cookie(key)` sends with its default arguments. */
  function Expired(key: string): Cookie {
    Cookie(key, "", 0, false, Lax, true)
  }

  /**
   * The header a client applies for `key`: the last one the response sets for it, since a
   * later Set-Cookie for the same name replaces an earlier one.
   */
  function CookieFor(cookies: seq<Cookie>, key: string): (r: Option<Cookie>)
    ensures r.Some? <==> exists i :: 0 <= i < |cookies| && cookies[i].key == key
    ensures r.Some? ==> r.value.key == key && r.value in cookies
    ensures r.Some? ==> exists i :: 0 <= i < |cookies| && cookies[i] == r.value &&
                          forall j :: i < j < |cookies| ==> cookies[j].key != key
  {
    if cookies == [] then None
    else if cookies[|cookies| - 1].key == key then Some(cookies[|cookies| - 1])
    else CookieFor(cookies[..|cookies| - 1], key)
  }

  /** Appending one header changes the cookie kept for that header's name and for no other name. */
  lemma CookieForAppend(cookies: seq<Cookie>, c: Cookie, key: string)
    ensures CookieFor(cookies + [c], key) == if c.key == key then Some(c) else CookieFor(cookies, key)
  {
    assert (cookies + [c])[..|cookies|] == cookies;
  }

  /**
   * A Starlette `Response` as the handlers build it: no body, status 200 unless given, and the
   * Set-Cookie headers in the order they were added.
   */
  class Response {
    var statusCode: int
    var cookies: seq<Cookie>

    constructor ()
      ensures statusCode == 200 && cookies == []
    {
      statusCode := 200;
      cookies := [];
    }

    /** `set_cookie`: append a header; the cookie kept for `key` becomes this one, every other is unchanged. */
    method SetCookie(key: string, value: string, maxAge: int, httpOnly: bool, sameSite: SameSite)
      modifies this
      ensures cookies == old(cookies) + [Cookie(key, value, maxAge, httpOnly, sameSite, false)]
      ensures CookieFor(cookies, key) == Some(Cookie(key, value, maxAge, httpOnly, sameSite, false))
      ensures forall k :: k != key ==> CookieFor(cookies, k) == CookieFor(old(cookies), k)
      ensures statusCode == old(statusCode)
    {
      var c := Cookie(key, value, maxAge, httpOnly, sameSite, false);
      forall k {
        CookieForAppend(cookies, c, k);
      }
      cookies := cookies + [c];
    }

    /**
     * `delete_cookie`: append an expiring, empty header for `key`; every other cookie is
     * unchanged.
     */
    method DeleteCookie(key: string)
      modifies this
      ensures cookies == old(cookies) + [Expired(key)]
      ensures CookieFor(cookies, key) == Some(Expired(key))
      ensures forall k :: k != key ==> CookieFor(cookies, k) == CookieFor(old(cookies), k)
      ensures statusCode == old(statusCode)
    {
      forall k {
        CookieForAppend(cookies, Expired(key), k);
      }
      cookies := cookies + [Expired(key)];
    }
  }
}
