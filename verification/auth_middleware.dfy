/**
 * The bearer-token middleware guarding authenticated routes: it takes the token
 * from the Authorization header, has the JWT library verify it, and either hands
 * the request on with the token's subject as the user id or answers 401.
 */
module AuthMiddleware {
  import opened Wrappers

  /** The claims the middleware reads from a verified token. */
  datatype Claims = Claims(sub: Option<string>)

  /** `jwt.verify(token, secret)`, taken as given: the claims, or None when it throws. */
  type Verifier = string -> Option<Claims>

  /** Call the next handler with `req.user = { id }`, or answer 401 with `{ error }`. */
  datatype Outcome = Next(userId: Option<string>) | Unauthorized(status: nat, error: string)

  const BearerPrefix: string := "Bearer "
  const MissingToken: string := "Token manquant"
  const InvalidToken: string := "Token invalide ou expir\U{e9}"

  /**
   * `header.startsWith('Bearer ') ? header.slice(7) : null` with `header` the
   * Authorization header or "" when it is absent.
   */
  function BearerToken(authorization: Option<string>): (token: Option<string>)
    ensures token.Some? <==> authorization.Some? && |authorization.value| >= 7
                              && authorization.value[..7] == BearerPrefix
    ensures token.Some? ==> authorization.value == BearerPrefix + token.value
  {
    var header := authorization.GetOr("");
    if |header| >= 7 && header[..7] == BearerPrefix then
      assert header == header[..7] + header[7..];
      Some(header[7..])
    else None
  }

  /** `auth(req, res, next)`. */
  function Authenticate(authorization: Option<string>, verify: Verifier): (r: Outcome)
    ensures r.Unauthorized? ==> r.status == 401
    ensures r == Unauthorized(401, MissingToken)
            <==> (forall t :: authorization != Some(BearerPrefix + t) || t == "")
  {
    match BearerToken(authorization)
    case None => Unauthorized(401, MissingToken)
    case Some(token) =>
      if token == "" then Unauthorized(401, MissingToken)
      else
        match verify(token)
        case None => Unauthorized(401, InvalidToken)
        case Some(claims) => Next(claims.sub)
  }

  /** A present token is verified: the request goes on with its subject, or is refused as invalid. */
  lemma PresentTokenIsVerified(token: string, verify: Verifier)
    requires token != ""
    ensures verify(token).Some? ==> Authenticate(Some(BearerPrefix + token), verify) == Next(verify(token).value.sub)
    ensures verify(token).None? ==> Authenticate(Some(BearerPrefix + token), verify) == Unauthorized(401, InvalidToken)
  {
    var h := BearerPrefix + token;
    assert h[..7] == BearerPrefix;
    assert h[7..] == token;
  }

  /** Without a usable token the verifier is never consulted: any two verifiers give the same answer. */
  lemma NoTokenNoVerification(authorization: Option<string>, v1: Verifier, v2: Verifier)
    requires BearerToken(authorization) in {None, Some("")}
    ensures Authenticate(authorization, v1) == Authenticate(authorization, v2) == Unauthorized(401, MissingToken)
  {
  }

  /** The scheme is matched case-sensitively: "bearer <token>" has no token. */
  lemma SchemeIsCaseSensitive(token: string, verify: Verifier)
    ensures Authenticate(Some("bearer " + token), verify) == Unauthorized(401, MissingToken)
  {
    assert ("bearer " + token)[0] == 'b';
  }
}
