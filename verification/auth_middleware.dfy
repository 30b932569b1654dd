/**
 * The `protect` middleware: a request goes on to the route only with a
 * bearer token that the token verifier accepts.
 */
module AuthMiddleware {
  import opened Base
  import opened Text

  const BearerPrefix := "Bearer "
  const NoToken := "Not authorized, no token"
  const TokenFailed := "Not authorized, token failed"

  /** What `protect` does with a request: answer 401 with a message, or
      record the decoded claims as the request's user and call the next
      handler. */
  datatype AuthOutcome<Claims> =
    | Rejected(status: int, message: string)
    | Authorized(user: Claims)

  /** The token of an `Authorization` header: the second space-separated
      piece of a header that starts with "Bearer ", or nothing. */
  function BearerToken(header: Option<string>): (t: Option<string>)
    ensures t.Some? <==> header.Some? && StartsWith(header.value, BearerPrefix)
    ensures t.Some? ==> ' ' !in t.value
  {
    if header.Some? && header.value != "" && StartsWith(header.value, BearerPrefix) then
      assert header.value[6] == BearerPrefix[6] == ' ';
      Some(Split(header.value, ' ')[1])
    else None
  }

  /** `protect`. `verify` stands for checking the token's signature and
      expiry against the server secret; it yields the decoded claims or
      nothing when it throws. */
  function Protect<Claims>(header: Option<string>, verify: string -> Option<Claims>): (r: AuthOutcome<Claims>)
    ensures r.Rejected? ==> r.status == 401
    ensures BearerToken(header).None? || BearerToken(header).value == "" ==> r == Rejected(401, NoToken)
    ensures r.Authorized? ==> BearerToken(header).Some? && verify(BearerToken(header).value) == Some(r.user)
  {
    var token := BearerToken(header);
    if token.None? || token.value == "" then Rejected(401, NoToken)
    else
      match verify(token.value)
      case None => Rejected(401, TokenFailed)
      case Some(claims) => Authorized(claims)
  }

  /** The token is what follows "Bearer " up to the next space: a header
      "Bearer <rest>" is authorised exactly when that piece is non-empty and
      verifies, and is then authorised with the verified claims. A second
      space right after "Bearer" leaves the token empty. */
  lemma ProtectAcceptsBearer<Claims>(rest: string, verify: string -> Option<Claims>)
    ensures var token := TakeUntil(rest, ' ');
            && BearerToken(Some(BearerPrefix + rest)) == Some(token)
            && (Protect(Some(BearerPrefix + rest), verify).Authorized? <==> token != "" && verify(token).Some?)
            && (token != "" && verify(token).Some? ==>
                  Protect(Some(BearerPrefix + rest), verify) == Authorized(verify(token).value))
            && (token != "" && verify(token).None? ==>
                  Protect(Some(BearerPrefix + rest), verify) == Rejected(401, TokenFailed))
  {
    var h := BearerPrefix + rest;
    assert h == "Bearer" + [' '] + rest;
    assert StartsWith(h, BearerPrefix);
    SplitAfterWord("Bearer", ' ', rest);
  }
}
