/** server/src/utils/auth.ts: where a request's token comes from, how the
    request becomes authenticated, how tokens are issued, and the error the
    resolvers throw when a caller is not authenticated.

    The `jsonwebtoken` library is not modelled: a `Jwt` is any pair of
    `sign` and `verify` functions, and `Lawful` states, as hypotheses, the
    behaviour the server relies on. */
module Auth {
  import opened Wrappers
  import opened JsString
  import opened Errors

  type UserId = string

  /** The payload `{username, email, _id}` that `signToken` places under the
      token's `data` key, and that `authenticateToken` attaches as `req.user`. */
  datatype Claim = Claim(username: string, email: string, id: UserId)

  /** `expiresIn: '2h'`, in seconds. */
  const TokenLifetime: int := 7200

  const SecretMissing: string := "JWT secret key is not defined in the environment variables"

  /** `jwt.sign({ data }, secret, {expiresIn})` issued at second `iat`, and
      `jwt.verify(token, secret)` at second `now`, giving the token's `data`
      or nothing when `verify` throws. `P` is the type of `data`. */
  datatype Jwt<!P> = Jwt(sign: (P, string, int, int) -> string,
                         verify: (string, string, int) -> Option<P>)

  /** The characters of a compact JWS serialization: base64url and dots. */
  predicate IsTokenChar(c: char) {
    'A' <= c <= 'Z' || 'a' <= c <= 'z' || '0' <= c <= '9' || c == '-' || c == '_' || c == '.'
  }

  predicate IsCompact(token: string) {
    |token| > 0 && forall i :: 0 <= i < |token| ==> IsTokenChar(token[i])
  }

  /** `token` was signed for `claim` with `secret` and is still valid at `now`. */
  ghost predicate Issued<P>(jwt: Jwt<P>, token: string, claim: P, secret: string, now: int) {
    exists iat, ttl :: token == jwt.sign(claim, secret, iat, ttl) && now < iat + ttl
  }

  /** What the server assumes of the JWT library: a token verified with the
      secret that signed it gives back its payload until it expires and
      nothing afterwards; `verify` gives a payload only for a token signed
      with that secret that has not expired; and a signed token is a
      non-empty compact serialization. */
  ghost predicate Lawful<P(!new)>(jwt: Jwt<P>) {
    && (forall claim, secret, iat, ttl, now ::
          jwt.verify(jwt.sign(claim, secret, iat, ttl), secret, now)
            == if now < iat + ttl then Some(claim) else None)
    && (forall token, secret, now ::
          jwt.verify(token, secret, now).Some? ==>
            Issued(jwt, token, jwt.verify(token, secret, now).value, secret, now))
    && (forall claim, secret, iat, ttl :: IsCompact(jwt.sign(claim, secret, iat, ttl)))
  }

  /** `new AuthenticationError(message)`: a GraphQL error whose extension
      code is always `UNAUTHENTICATED`. */
  function AuthenticationError(message: string): (e: Failure)
    ensures e.GraphQLError? && e.code == "UNAUTHENTICATED" && e.message == message
  {
    GraphQLError(message, "UNAUTHENTICATED")
  }

  /** `req.body.token || req.query.token || req.headers.authorization`. */
  function TokenFrom(body: Option<string>, query: Option<string>, authorization: Option<string>): (t: Option<string>)
    ensures Truthy(t) <==> Truthy(body) || Truthy(query) || Truthy(authorization)
    ensures Truthy(body) ==> t == body
    ensures !Truthy(body) && Truthy(query) ==> t == query
    ensures !Truthy(body) && !Truthy(query) ==> t == authorization
  {
    Or(Or(body, query), authorization)
  }

  /** The token `authenticateToken` goes on to verify: the chosen one, cut to
      its last space-separated segment and trimmed whenever an
      `Authorization` header is present, whichever source it came from. */
  function ExtractToken(body: Option<string>, query: Option<string>, authorization: Option<string>): (t: Option<string>)
    ensures Truthy(authorization) ==>
              t.Some? && ' ' !in t.value &&
              (t.value == [] || (!IsWhitespace(t.value[0]) && !IsWhitespace(t.value[|t.value| - 1])))
    ensures Truthy(authorization) ==> t == Some(Trim(LastSegment(TokenFrom(body, query, authorization).value)))
    ensures !Truthy(authorization) ==> t == TokenFrom(body, query, authorization)
  {
    var token := TokenFrom(body, query, authorization);
    if Truthy(authorization) then Some(Trim(LastSegment(token.value))) else token
  }

  /** The claim `authenticateToken` attaches to the request, if any: none when
      no non-empty token was found, when the secret is missing, or when the
      token does not verify. */
  function RequestClaim<P>(body: Option<string>, query: Option<string>, authorization: Option<string>,
                           secret: Option<string>, jwt: Jwt<P>, now: int): (c: Option<P>)
    ensures c.Some? ==> Truthy(secret) && Truthy(ExtractToken(body, query, authorization))
  {
    var token := ExtractToken(body, query, authorization);
    if !Truthy(token) || !Truthy(secret) then None
    else jwt.verify(token.value, secret.value, now)
  }

  /** The incoming HTTP request, as far as `authenticateToken` looks at it. */
  class Request {
    var bodyToken: Option<string>
    var queryToken: Option<string>
    var authorization: Option<string>
    /** `req.user`: the verified claim, when there is one. */
    var user: Option<Claim>

    constructor (bodyToken: Option<string>, queryToken: Option<string>, authorization: Option<string>)
      ensures this.bodyToken == bodyToken && this.queryToken == queryToken
      ensures this.authorization == authorization && user == None
    {
      this.bodyToken := bodyToken;
      this.queryToken := queryToken;
      this.authorization := authorization;
      user := None;
    }
  }

  /** `authenticateToken({ req })`, with `process.env.JWT_SECRET_KEY` as
      `secret` and the clock as `now`. Never fails: a missing secret or a
      token that does not verify leaves the request as it was. Only
      `req.user` may change, and it becomes exactly the verified claim. */
  method AuthenticateToken(req: Request, secret: Option<string>, jwt: Jwt<Claim>, now: int) returns (ctx: Request)
    modifies req`user
    ensures ctx == req
    ensures var c := RequestClaim(req.bodyToken, req.queryToken, req.authorization, secret, jwt, now);
            req.user == if c.Some? then c else old(req.user)
  {
    ctx := req;
    var token := TokenFrom(req.bodyToken, req.queryToken, req.authorization);
    if Truthy(req.authorization) {
      token := Some(Trim(LastSegment(token.value)));
    }
    if !Truthy(token) {
      return;
    }
    if !Truthy(secret) {
      // the thrown Error is caught and only logged
      return;
    }
    var data := jwt.verify(token.value, secret.value, now);
    if data.Some? {
      req.user := data;
    }
  }

  /** The body of `signToken` once its payload is built, at second `now`:
      fails without a secret, otherwise signs `{ data }` for two hours. */
  function SignData<P>(data: P, secret: Option<string>, jwt: Jwt<P>, now: int): (r: Result<string, Failure>)
    ensures r.Failure? <==> !Truthy(secret)
    ensures r.Failure? ==> r.error == Error(SecretMissing)
    ensures r.Success? ==> r.value == jwt.sign(data, secret.value, now, TokenLifetime)
  {
    if !Truthy(secret) then Failure(Error(SecretMissing))
    else Success(jwt.sign(data, secret.value, now, TokenLifetime))
  }

  /** `signToken(username, email, _id)` at second `now`: fails without a
      secret, otherwise signs `{username, email, _id}` for two hours. */
  function SignToken(username: string, email: string, id: UserId, secret: Option<string>, jwt: Jwt<Claim>, now: int)
    : (r: Result<string, Failure>)
    ensures r.Failure? <==> !Truthy(secret)
    ensures r.Failure? ==> r.error == Error(SecretMissing)
    ensures r.Success? ==> r.value == jwt.sign(Claim(username, email, id), secret.value, now, TokenLifetime)
  {
    SignData(Claim(username, email, id), secret, jwt, now)
  }

  /** A compact token passes `split(' ').pop().trim()` unchanged. */
  lemma CompactTokenSurvivesCut(token: string)
    requires IsCompact(token)
    ensures ' ' !in token && Trim(LastSegment(token)) == token
  {
    assert forall i :: 0 <= i < |token| ==> token[i] != ' ';
    TrimUnchanged(token);
  }

  /** An `Authorization: <scheme> <token>` header yields `<token>`. */
  lemma {:induction false} BearerHeaderYieldsToken(scheme: string, token: string)
    requires IsCompact(token)
    ensures ExtractToken(None, None, Some(scheme + " " + token)) == Some(token)
  {
    var header := scheme + " " + token;
    assert header == scheme + [' '] + token;
    LastSegmentAfterSpace(scheme, token);
    CompactTokenSurvivesCut(token);
    assert TokenFrom(None, None, Some(header)) == Some(header);
    assert Trim(LastSegment(header)) == token;
  }

  /** The usual case: `Authorization: Bearer <token>`. */
  lemma BearerHeaderYieldsIt(token: string)
    requires IsCompact(token)
    ensures ExtractToken(None, None, Some("Bearer " + token)) == Some(token)
  {
    var header := "Bearer " + token;
    assert header == "Bearer" + " " + token;
    BearerHeaderYieldsToken("Bearer", token);
  }

  /** A header that ends in a space (`"Bearer "`) yields the empty token, so
      the request stays anonymous whatever the secret and the JWT library. */
  lemma {:induction false} TrailingSpaceIsAnonymous(header: string, secret: Option<string>, jwt: Jwt<Claim>, now: int)
    requires |header| > 0 && header[|header| - 1] == ' '
    ensures ExtractToken(None, None, Some(header)) == Some("")
    ensures RequestClaim(None, None, Some(header), secret, jwt, now) == None
  {
    assert LastSegment(header) == [];
  }

  /** With an `Authorization` header present, a body token still takes
      precedence; a compact one passes the header's cut unchanged. */
  lemma {:induction false} BodyTokenBeatsHeader(token: string, query: Option<string>, header: string)
    requires IsCompact(token) && header != ""
    ensures ExtractToken(Some(token), query, Some(header)) == Some(token)
  {
    assert TokenFrom(Some(token), query, Some(header)) == Some(token);
    CompactTokenSurvivesCut(token);
  }

  /** A claim is attached only for a token that was signed for that claim
      with the server's secret and has not expired. */
  lemma ClaimOnlyFromIssuedToken(body: Option<string>, query: Option<string>, authorization: Option<string>,
                                 secret: Option<string>, jwt: Jwt<Claim>, now: int)
    requires Lawful(jwt)
    requires RequestClaim(body, query, authorization, secret, jwt, now).Some?
    ensures Issued(jwt, ExtractToken(body, query, authorization).value,
                   RequestClaim(body, query, authorization, secret, jwt, now).value, secret.value, now)
  {
  }

  /** Whatever the payload, a token signed for it, sent as a bearer header
      before it expires, makes `authenticateToken` attach exactly that
      payload. */
  lemma SignedDataAuthenticates<P(!new)>(data: P, secret: Option<string>, jwt: Jwt<P>, issuedAt: int, now: int)
    requires Lawful(jwt)
    requires SignData(data, secret, jwt, issuedAt).Success?
    requires now < issuedAt + TokenLifetime
    ensures var token := SignData(data, secret, jwt, issuedAt).value;
            RequestClaim(None, None, Some("Bearer " + token), secret, jwt, now) == Some(data)
  {
    var token := SignData(data, secret, jwt, issuedAt).value;
    assert token == jwt.sign(data, secret.value, issuedAt, TokenLifetime);
    assert IsCompact(token);
    BearerHeaderYieldsIt(token);
    assert jwt.verify(token, secret.value, now) == Some(data);
  }

  /** Round trip: a token from `signToken`, sent as a bearer header before it
      expires, makes `authenticateToken` attach exactly `{username, email, _id}`. */
  lemma SignedTokenAuthenticates(username: string, email: string, id: UserId,
                                 secret: Option<string>, jwt: Jwt<Claim>, issuedAt: int, now: int)
    requires Lawful(jwt)
    requires SignToken(username, email, id, secret, jwt, issuedAt).Success?
    requires now < issuedAt + TokenLifetime
    ensures var token := SignToken(username, email, id, secret, jwt, issuedAt).value;
            RequestClaim(None, None, Some("Bearer " + token), secret, jwt, now) == Some(Claim(username, email, id))
  {
    SignedDataAuthenticates(Claim(username, email, id), secret, jwt, issuedAt, now);
  }

  /** Once two hours have passed, the same token leaves the request anonymous. */
  lemma ExpiredTokenIsAnonymous(username: string, email: string, id: UserId,
                                secret: Option<string>, jwt: Jwt<Claim>, issuedAt: int, now: int)
    requires Lawful(jwt)
    requires SignToken(username, email, id, secret, jwt, issuedAt).Success?
    requires issuedAt + TokenLifetime <= now
    ensures var token := SignToken(username, email, id, secret, jwt, issuedAt).value;
            RequestClaim(None, None, Some("Bearer " + token), secret, jwt, now) == None
  {
    var token := SignToken(username, email, id, secret, jwt, issuedAt).value;
    assert token == jwt.sign(Claim(username, email, id), secret.value, issuedAt, TokenLifetime);
    assert IsCompact(token);
    BearerHeaderYieldsIt(token);
    assert jwt.verify(token, secret.value, now) == None;
  }
}
