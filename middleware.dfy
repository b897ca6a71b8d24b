/**
 * `AuthMiddleware` of src/middleware.ts.  The decision it takes is the pure
 * function `Gate`; the method `AuthMiddleware` carries it out on a request
 * and a response object, attaching the claims and calling `next`, or sending
 * exactly one reply.  `jwt.verify` is a parameter: a function from the token
 * to what the library returns or throws.
 */
module Middleware {
  import opened Wrappers
  import opened JsString
  import opened Schema
  import opened Http

  /** The claims a token carries, `{ userId, username }`. */
  datatype Claims = Claims(userId: ObjectId, username: string)

  /** The classes `instanceof` may find on a thrown error's prototype chain. */
  datatype ErrorClass =
    | JsonWebTokenErrorClass
    | TokenExpiredErrorClass
    | NotBeforeErrorClass
    | ErrorBaseClass
    | OtherClass(name: string)

  /** A thrown error, seen through its prototype chain. */
  datatype VerifyError = VerifyError(prototypeChain: seq<ErrorClass>)

  /** `error instanceof cls`. */
  predicate InstanceOf(e: VerifyError, cls: ErrorClass)
  {
    cls in e.prototypeChain
  }

  /** What `jwt.verify(token, JWT_SECRET)` does: return the decoded claims or throw. */
  datatype VerifyOutcome = Decoded(claims: Claims) | Thrown(error: VerifyError)

  /** The errors the jsonwebtoken library throws, and its class hierarchy. */
  datatype LibraryErrorKind = MalformedOrBadSignature | Expired | NotYetValid

  /**
   * Library assumption: in jsonwebtoken, `TokenExpiredError` and
   * `NotBeforeError` both extend `JsonWebTokenError`, which extends `Error`.
   */
  function LibraryError(kind: LibraryErrorKind): VerifyError
  {
    match kind
    case MalformedOrBadSignature => VerifyError([JsonWebTokenErrorClass, ErrorBaseClass])
    case Expired => VerifyError([TokenExpiredErrorClass, JsonWebTokenErrorClass, ErrorBaseClass])
    case NotYetValid => VerifyError([NotBeforeErrorClass, JsonWebTokenErrorClass, ErrorBaseClass])
  }

  /** The gate's verdict: hand the claims on to `next`, or answer at once. */
  datatype Decision = Proceed(claims: Claims) | Reject(reply: Reply)

  const BearerPrefix := "Bearer "
  const NoTokenReply := Reply(401, Message("No token provided"))
  const NeedLoginReply := Reply(401, Message("Need to login first"))
  const InvalidTokenReply := Reply(401, Message("Invalid token"))
  const ExpiredTokenReply := Reply(401, Message("Token expired"))

  /**
   * `authHeader.split(" ")[1]`: `None` stands for `undefined` when there is
   * no second piece, which happens exactly when the header holds no space.
   */
  function BearerToken(header: string): (token: Option<string>)
    ensures token.Some? <==> ' ' in header
    ensures token.Some? ==> ' ' !in token.value
  {
    var parts := Split(header, ' ');
    CountPositiveIff(header, ' ');
    if |parts| > 1 then Some(parts[1]) else None
  }

  /**
   * The catch block: the first `instanceof` test that holds picks the reply.
   * An error of either jsonwebtoken class is a 401, anything else the generic 500.
   */
  function ErrorReply(e: VerifyError): (reply: Reply)
    ensures reply.status == 401 <==> InstanceOf(e, JsonWebTokenErrorClass) || InstanceOf(e, TokenExpiredErrorClass)
    ensures reply.status != 401 ==> reply == InternalError
  {
    if InstanceOf(e, JsonWebTokenErrorClass) then InvalidTokenReply
    else if InstanceOf(e, TokenExpiredErrorClass) then ExpiredTokenReply
    else InternalError
  }

  /**
   * The decision `AuthMiddleware` takes for an `Authorization` header
   * (`None`: absent).  A request only goes on with claims that `verify`
   * decoded from a non-empty token behind the `Bearer ` prefix; every
   * rejection is a 401 or the generic 500.
   */
  function Gate(header: Option<string>, verify: string -> VerifyOutcome): (d: Decision)
    ensures d.Proceed? ==>
      header.Some? && StartsWith(header.value, BearerPrefix) &&
      BearerToken(header.value).Some? && BearerToken(header.value).value != [] &&
      verify(BearerToken(header.value).value) == Decoded(d.claims)
    ensures d.Reject? ==> d.reply.status == 401 || d.reply == InternalError
  {
    if header.None? || !StartsWith(header.value, BearerPrefix) then Reject(NoTokenReply)
    else
      var token := BearerToken(header.value);
      if token.None? || token.value == [] then Reject(NeedLoginReply)
      else
        match verify(token.value)
        case Decoded(claims) => Proceed(claims)
        case Thrown(e) => Reject(ErrorReply(e))
  }

  // ---------------------------------------------------------------------------
  // The header

  /** "No token provided" is the answer exactly when the header is absent or lacks the case-sensitive `Bearer ` prefix. */
  lemma {:induction false} NoTokenIff(header: Option<string>, verify: string -> VerifyOutcome)
    ensures Gate(header, verify) == Reject(NoTokenReply) <==>
      header.None? || !StartsWith(header.value, BearerPrefix)
  {
  }

  /** After the prefix, the token runs up to the next space (or the end): the first piece of the rest. */
  lemma {:induction false} TokenAfterScheme(t: string)
    ensures BearerToken(BearerPrefix + t) == Some(Split(t, ' ')[0])
  {
    assert BearerPrefix + t == "Bearer" + [' '] + t;
    SplitAtFirst("Bearer", ' ', t);
  }

  /** Whatever follows a second space is ignored: `Bearer abc def` presents the token `abc`. */
  lemma {:induction false} ExtraSegmentsIgnored(a: string, b: string)
    requires ' ' !in a
    ensures BearerToken(BearerPrefix + a + " " + b) == Some(a)
  {
    assert BearerPrefix + a + " " + b == BearerPrefix + (a + [' '] + b);
    TokenAfterScheme(a + [' '] + b);
    SplitAtFirst(a, ' ', b);
  }

  /** "Need to login first" is the answer exactly when nothing but the end or a space follows `Bearer ` (`Bearer `, `Bearer  abc`). */
  lemma {:induction false} NeedLoginIff(t: string, verify: string -> VerifyOutcome)
    ensures Gate(Some(BearerPrefix + t), verify) == Reject(NeedLoginReply) <==> t == [] || t[0] == ' '
  {
    TokenAfterScheme(t);
    SplitFirstPiece(t, ' ');
    var p := Split(t, ' ')[0];
    assert StartsWith(BearerPrefix + t, BearerPrefix) by {
      assert (BearerPrefix + t)[..|BearerPrefix|] == BearerPrefix;
    }
    if p != [] {
      assert t[0] == p[0];
    }
  }

  /** A well-formed header hands the whole word after `Bearer ` to verify and follows its outcome. */
  lemma {:induction false} WordIsVerified(t: string, verify: string -> VerifyOutcome)
    requires t != [] && ' ' !in t
    ensures Gate(Some(BearerPrefix + t), verify) ==
      match verify(t)
      case Decoded(claims) => Proceed(claims)
      case Thrown(e) => Reject(ErrorReply(e))
  {
    TokenAfterScheme(t);
    SplitWithoutSeparator(t, ' ');
    assert (BearerPrefix + t)[..|BearerPrefix|] == BearerPrefix;
  }

  /** The gate lets a request through exactly when the token verified, and then with the decoded claims. */
  lemma {:induction false} ProceedIff(header: Option<string>, verify: string -> VerifyOutcome, claims: Claims)
    ensures Gate(header, verify) == Proceed(claims) <==>
      header.Some? && StartsWith(header.value, BearerPrefix) &&
      BearerToken(header.value).Some? && BearerToken(header.value).value != [] &&
      verify(BearerToken(header.value).value) == Decoded(claims)
  {
  }

  // ---------------------------------------------------------------------------
  // The errors

  /** First match: an invalid-token error wins over an expired one; anything else is a 500. */
  lemma {:induction false} ErrorReplyFirstMatch(e: VerifyError)
    ensures ErrorReply(e) == InvalidTokenReply <==> InstanceOf(e, JsonWebTokenErrorClass)
    ensures ErrorReply(e) == ExpiredTokenReply <==>
      !InstanceOf(e, JsonWebTokenErrorClass) && InstanceOf(e, TokenExpiredErrorClass)
    ensures ErrorReply(e) == InternalError <==>
      !InstanceOf(e, JsonWebTokenErrorClass) && !InstanceOf(e, TokenExpiredErrorClass)
    ensures ErrorReply(e).status == 401 || ErrorReply(e).status == 500
  {
  }

  /**
   * Under jsonwebtoken's class hierarchy every error it throws, an expired
   * token's included, is answered "Invalid token": the "Token expired" reply
   * is only sent for an error outside that hierarchy.
   */
  lemma {:induction false} LibraryErrorsReportedInvalid(kind: LibraryErrorKind, e: VerifyError)
    ensures ErrorReply(LibraryError(kind)) == InvalidTokenReply
    ensures ErrorReply(e) == ExpiredTokenReply ==> e != LibraryError(kind)
  {
    assert InstanceOf(LibraryError(kind), JsonWebTokenErrorClass);
  }

  // ---------------------------------------------------------------------------
  // The middleware on express objects

  /** The parts of an express request the middleware reads and writes. */
  class Request {
    const authorization: Option<string>
    var userId: Option<ObjectId>
    var username: Option<string>

    constructor (authorization: Option<string>)
      ensures this.authorization == authorization && userId.None? && username.None?
    {
      this.authorization := authorization;
      userId, username := None, None;
    }
  }

  /** An express response: the replies sent on it so far. */
  class Response {
    var sent: seq<Reply>

    constructor ()
      ensures sent == []
    {
      sent := [];
    }

    /** `res.status(reply.status).json(reply.body)`. */
    method Send(reply: Reply)
      modifies this
      ensures sent == old(sent) + [reply]
    {
      sent := sent + [reply];
    }
  }

  /**
   * `AuthMiddleware(req, res, next)`; `nextCalls` is how many times `next()`
   * was called.  Each request either goes on to `next` once with the claims
   * attached and nothing sent, or gets exactly one reply and no `next`.
   */
  method AuthMiddleware(req: Request, res: Response, verify: string -> VerifyOutcome) returns (nextCalls: nat)
    modifies req, res
    ensures (nextCalls == 1 && res.sent == old(res.sent)) ||
            (nextCalls == 0 && |res.sent| == |old(res.sent)| + 1)
    ensures match Gate(req.authorization, verify)
      case Proceed(claims) =>
        nextCalls == 1 && res.sent == old(res.sent) &&
        req.userId == Some(claims.userId) && req.username == Some(claims.username)
      case Reject(reply) =>
        nextCalls == 0 && res.sent == old(res.sent) + [reply] &&
        req.userId == old(req.userId) && req.username == old(req.username)
  {
    nextCalls := 0;
    var authHeader := req.authorization;
    if authHeader.None? || !StartsWith(authHeader.value, BearerPrefix) {
      res.Send(NoTokenReply);
      return;
    }
    var token := BearerToken(authHeader.value);
    if token.None? || token.value == "" {
      res.Send(NeedLoginReply);
      return;
    }
    match verify(token.value)
    case Decoded(decoded) =>
      req.userId := Some(decoded.userId);
      req.username := Some(decoded.username);
      nextCalls := 1;
    case Thrown(error) =>
      if InstanceOf(error, JsonWebTokenErrorClass) {
        res.Send(InvalidTokenReply);
        return;
      }
      if InstanceOf(error, TokenExpiredErrorClass) {
        res.Send(ExpiredTokenReply);
        return;
      }
      res.Send(InternalError);
  }
}
