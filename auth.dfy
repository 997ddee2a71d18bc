/** The `verifyJWT` middleware: take the token out of the Authorization header and
    resolve it to an email through the identity provider, or answer 401. */
module Auth {
  import opened Http
  import Text

  /** `authorization?.split(" ")[1]`: the second space-separated piece of the
      header, undefined when the header is absent or has no space. */
  function TokenPart(header: Option<string>): (t: Option<string>)
    ensures t.Some? <==> header.Some? && ' ' in header.value
    ensures t.Some? ==> ' ' !in t.value
  {
    match header
    case None => None
    case Some(h) =>
      var parts := Text.Split(h, ' ');
      if |parts| > 1 then Some(parts[1]) else None
  }

  /** The middleware. The identity provider's `verifyIdToken` is the oracle `verify`:
      the email a token belongs to, or None when it rejects the token. A missing or
      empty token is refused before the provider is asked. */
  function Authenticate(header: Option<string>, verify: string -> Option<string>): (r: Result<string>)
    ensures r.Err? ==> r.code == UNAUTHORIZED
    ensures r.Ok? <==> TokenPart(header).Some? && TokenPart(header).value != ""
                       && verify(TokenPart(header).value).Some?
    ensures r.Ok? ==> r.value == verify(TokenPart(header).value).value
  {
    match TokenPart(header)
    case None => Err(UNAUTHORIZED)
    case Some(token) =>
      if token == "" then Err(UNAUTHORIZED)
      else match verify(token)
        case None => Err(UNAUTHORIZED)
        case Some(email) => Ok(email)
  }

  /** A header `scheme + " " + token` yields exactly `token` (the scheme itself is
      never checked), and a third space-separated piece is ignored. */
  lemma BearerToken(scheme: string, token: string, rest: string)
    requires ' ' !in scheme && ' ' !in token
    ensures TokenPart(Some(scheme + " " + token)) == Some(token)
    ensures TokenPart(Some(scheme + " " + token + " " + rest)) == Some(token)
  {
    Text.SplitJoin([scheme, token], ' ');
    assert Text.Join([scheme, token], ' ') == scheme + " " + token;
    var tail := Text.Split(rest, ' ');
    Text.JoinSplit(rest, ' ');
    Text.SplitJoin([scheme, token] + tail, ' ');
    assert ([scheme, token] + tail)[1..] == [token] + tail;
    assert ([token] + tail)[1..] == tail;
    assert Text.Join([scheme, token] + tail, ' ') == scheme + " " + token + " " + rest;
  }

  /** A missing header, a header without a space, and a header whose second piece
      is empty are refused whatever the provider says. */
  lemma RefusedHeaders(h: string, verify: string -> Option<string>)
    ensures ' ' !in h ==> Authenticate(Some(h), verify) == Err(UNAUTHORIZED)
    ensures Authenticate(None, verify) == Err(UNAUTHORIZED)
    ensures Authenticate(Some("Bearer "), verify) == Err(UNAUTHORIZED)
  {
    BearerToken("Bearer", "", "");
    assert "Bearer" + " " + "" == "Bearer ";
  }
}
