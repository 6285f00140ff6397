/**
 * The middleware of middleware/auth.js: it reads the Authorization header,
 * expects `Bearer <token>`, verifies the token and, on success only, stores the
 * token's `userId` in `req.auth` and calls `next()`. Signature checking and
 * expiry belong to `jwt.verify`, which is a parameter here.
 */
module AuthGuard {
  import opened Common
  import opened Text
  import opened Http

  /** The payload of a token `jwt.verify` accepts; `userId` may be absent from it. */
  datatype Claims = Claims(userId: Option<string>)

  /** `jwt.verify(token, secret)`: the claims, or None when it throws. */
  type Verifier = string -> Option<Claims>

  /** What the middleware concludes about a request. */
  datatype AuthResult =
    | Missing
    | BadFormat
    | Unauthorized
    | Authorized(userId: Option<string>)

  /** `req.auth`. */
  datatype AuthInfo = AuthInfo(userId: Option<string>)

  const Scheme: string := "Bearer"

  /** The token of an `Authorization` header: the header split at spaces must start
      with the word `Bearer` followed by a non-empty second piece, which is the
      token; otherwise None. */
  function BearerToken(header: string): (r: Option<string>)
    ensures r.Some? ==> r.value != "" && ' ' !in r.value
  {
    var parts := Split(header, ' ');
    if parts[0] != Scheme || |parts| < 2 || parts[1] == "" then None else Some(parts[1])
  }

  /** The header shape a token is accepted from: `Bearer`, one space, the token, then
      the end or another space (whatever follows is ignored). */
  predicate BearerShaped(header: string, token: string) {
    && |header| >= |Scheme| + 1 + |token|
    && header[..|Scheme| + 1] == Scheme + " "
    && header[|Scheme| + 1..|Scheme| + 1 + |token|] == token
    && token != "" && ' ' !in token
    && (|header| == |Scheme| + 1 + |token| || header[|Scheme| + 1 + |token|] == ' ')
  }

  lemma BearerShapedGivesToken(header: string, token: string)
    requires BearerShaped(header, token)
    ensures BearerToken(header) == Some(token)
  {
    var n := |Scheme| + 1;
    var b := header[n..];
    assert header == Scheme + [' '] + b;
    SplitAtFirst(Scheme, ' ', b);
    if |b| == |token| {
      assert b == token;
      SplitNoSeparator(token, ' ');
    } else {
      var rest := b[|token| + 1..];
      assert b == token + [' '] + rest;
      SplitAtFirst(token, ' ', rest);
    }
  }

  lemma TokenComesFromBearerShape(header: string, token: string)
    requires BearerToken(header) == Some(token)
    ensures BearerShaped(header, token)
  {
    var parts := Split(header, ' ');
    JoinSplit(header, ' ');
    var tail := Join(parts[1..], ' ');
    assert header == Scheme + " " + tail;
    if |parts| == 2 {
      assert tail == token;
    } else {
      assert tail == token + [' '] + Join(parts[2..], ' ');
    }
  }

  /** A token is extracted exactly from a header of the shape above. */
  lemma BearerTokenIff(header: string, token: string)
    ensures BearerToken(header) == Some(token) <==> BearerShaped(header, token)
  {
    if BearerShaped(header, token) { BearerShapedGivesToken(header, token); }
    if BearerToken(header) == Some(token) { TokenComesFromBearerShape(header, token); }
  }

  /** Two spaces after the scheme leave an empty second piece: refused. */
  lemma DoubleSpaceRefused(token: string)
    ensures BearerToken("Bearer  " + token).None?
  {
    var rest := " " + token;
    assert "Bearer  " + token == Scheme + [' '] + rest;
    SplitAtFirst(Scheme, ' ', rest);
    assert rest == [] + [' '] + token;
    SplitAtFirst([], ' ', token);
  }

  /** The decision of the middleware. */
  function Authenticate(header: Option<string>, verify: Verifier): (r: AuthResult)
    ensures r == Missing <==> header.None? || header.value == ""
    ensures r == BadFormat <==> header.Some? && header.value != "" && BearerToken(header.value).None?
    ensures r == Unauthorized <==>
              header.Some? && header.value != "" && BearerToken(header.value).Some?
              && verify(BearerToken(header.value).value).None?
    ensures r.Authorized? <==>
              header.Some? && BearerToken(header.value).Some?
              && verify(BearerToken(header.value).value).Some?
    ensures r.Authorized? ==> r.userId == verify(BearerToken(header.value).value).value.userId
  {
    if header.None? || header.value == "" then Missing
    else match BearerToken(header.value)
      case None => BadFormat
      case Some(token) =>
        match verify(token)
        case None => Unauthorized
        case Some(claims) => Authorized(claims.userId)
  }

  /** The 401 reply for each refusal. */
  function Rejection(r: AuthResult): (reply: Reply)
    requires !r.Authorized?
    ensures reply.status == 401
    ensures r == Missing ==> reply.body == Error("Missing Authorization header")
    ensures r == BadFormat ==> reply.body == Error("Invalid Authorization format")
    ensures r == Unauthorized ==> reply.body == Error("Unauthorized")
  {
    match r
    case Missing => Reply(401, Error("Missing Authorization header"))
    case BadFormat => Reply(401, Error("Invalid Authorization format"))
    case Unauthorized => Reply(401, Error("Unauthorized"))
  }

  /** The three refusals are told apart by their messages. */
  lemma RejectionsDistinct()
    ensures Rejection(Missing) != Rejection(BadFormat)
    ensures Rejection(Missing) != Rejection(Unauthorized)
    ensures Rejection(BadFormat) != Rejection(Unauthorized)
  {
  }

  /** One request passing through the middleware. */
  class Exchange {
    const authorization: Option<string>
    var auth: Option<AuthInfo>
    var response: Option<Reply>
    var nextCalls: nat

    constructor (authorization: Option<string>)
      ensures this.authorization == authorization
      ensures auth.None? && response.None? && nextCalls == 0
    {
      this.authorization := authorization;
      auth := None;
      response := None;
      nextCalls := 0;
    }

    /** The middleware itself. */
    method Guard(verify: Verifier)
      modifies this
      ensures match Authenticate(authorization, verify)
        case Authorized(userId) =>
          auth == Some(AuthInfo(userId)) && nextCalls == old(nextCalls) + 1 && response == old(response)
        case refused =>
          auth == old(auth) && nextCalls == old(nextCalls) && response == Some(Rejection(refused))
    {
      var header := authorization;
      if header.None? || header.value == "" {
        response := Some(Reply(401, Error("Missing Authorization header")));
        return;
      }
      var parts := Split(header.value, ' ');
      if parts[0] != Scheme || |parts| < 2 || parts[1] == "" {
        response := Some(Reply(401, Error("Invalid Authorization format")));
        return;
      }
      var decoded := verify(parts[1]);
      if decoded.None? {
        response := Some(Reply(401, Error("Unauthorized")));
        return;
      }
      auth := Some(AuthInfo(decoded.value.userId));
      nextCalls := nextCalls + 1;
    }
  }
}
