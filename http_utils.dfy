/** Where a request's bearer token is read from (pkg/utils/http_utils.go). The request
    is reduced to its `Authorization` header and its `Authorization` cookie, each absent
    or present. */
module HttpUtils {
  import opened Common

  const BearerPrefix := "Bearer "

  /** `r.Header.Get`: an absent header reads as the empty string. */
  function HeaderValue(header: Option<string>): string {
    if header.Some? then header.value else ""
  }

  /** `GetTokenFromRequest`: a non-empty header wins, with one leading "Bearer " removed
      when present; otherwise the cookie's value; otherwise the empty string. */
  function GetTokenFromRequest(header: Option<string>, cookie: Option<string>): (token: string)
    ensures HeaderValue(header) != "" && HasPrefix(HeaderValue(header), BearerPrefix) ==>
      BearerPrefix + token == HeaderValue(header)
    ensures HeaderValue(header) != "" && !HasPrefix(HeaderValue(header), BearerPrefix) ==>
      token == HeaderValue(header)
    ensures HeaderValue(header) == "" && cookie.Some? ==> token == cookie.value
    ensures HeaderValue(header) == "" && cookie.None? ==> token == ""
  {
    var h := HeaderValue(header);
    if h != "" then
      if HasPrefix(h, BearerPrefix) then TrimPrefix(h, BearerPrefix) else h
    else if cookie.Some? then cookie.value
    else ""
  }

  /** A token sent as "Bearer <token>" is read back exactly, whatever the cookie holds. */
  lemma BearerRoundTrip(token: string, cookie: Option<string>)
    ensures GetTokenFromRequest(Some(BearerPrefix + token), cookie) == token
  {
    var h := BearerPrefix + token;
    assert h[..|BearerPrefix|] == BearerPrefix;
  }
}
