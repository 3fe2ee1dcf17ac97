/** Token helpers (backend/src/utils/jwt.js). The jsonwebtoken library is
    not modelled: signing and verifying are parameters, with the secret,
    the expiry and the HS256 algorithm inside them. */
module Jwt {
  import opened Js

  /** The claims actually signed: the user id and nothing else. */
  datatype Claims = Claims(userId: int)

  /** The payload handed to `signToken`; claims other than `userId` are
      whatever the caller put there. */
  datatype TokenRequest = TokenRequest(userId: Option<int>, otherClaims: map<string, string>)

  /** The decoded payload `jwt.verify` returns; its `userId` is whatever
      the token carried. */
  datatype Decoded = Decoded(userId: Option<int>)

  /** What `jwt.verify` does: return the payload or throw an error whose
      `name` is given. */
  datatype VerifyOutcome = Verified(decoded: Decoded) | Raised(errorName: string)

  const MissingUserId := PlainError("JWT requires userId")

  /** `signToken`: refuses a falsy `userId` (absent or 0), and otherwise signs
      a payload holding only that `userId`. */
  function SignToken(payload: TokenRequest, sign: Claims -> string): (r: Result<string>)
    ensures r.Ok? <==> TruthyInt(payload.userId)
    ensures r.Ok? ==> r.value == sign(Claims(payload.userId.value))
    ensures r.Err? ==> r.error == MissingUserId
  {
    if !TruthyInt(payload.userId) then Err(MissingUserId)
    else Ok(sign(Claims(payload.userId.value)))
  }

  /** Whatever else the payload carries never reaches the token. */
  lemma SignIgnoresOtherClaims(u: Option<int>, a: map<string, string>, b: map<string, string>,
                               sign: Claims -> string)
    ensures SignToken(TokenRequest(u, a), sign) == SignToken(TokenRequest(u, b), sign)
  {
  }

  /** The error code for the name of a jsonwebtoken error. */
  function CodeFor(errorName: string): (code: string)
    ensures code == "TOKEN_EXPIRED" <==> errorName == "TokenExpiredError"
    ensures code == "INVALID_TOKEN" <==> errorName == "JsonWebTokenError"
    ensures code == "AUTH_FAILED" <==> errorName != "TokenExpiredError" && errorName != "JsonWebTokenError"
  {
    if errorName == "TokenExpiredError" then "TOKEN_EXPIRED"
    else if errorName == "JsonWebTokenError" then "INVALID_TOKEN"
    else "AUTH_FAILED"
  }

  /** `verifyToken`: the decoded payload, or a 401 whose code names the kind
      of failure; the thrown object has no message. */
  function VerifyToken(token: string, verify: string -> VerifyOutcome): (r: Result<Decoded>)
    ensures r.Ok? <==> verify(token).Verified?
    ensures r.Ok? ==> r.value == verify(token).decoded
    ensures r.Err? ==> r.error == Thrown(Some(401), Some(CodeFor(verify(token).errorName)), None)
  {
    match verify(token)
    case Verified(d) => Ok(d)
    case Raised(name) => Err(Thrown(Some(401), Some(CodeFor(name)), None))
  }

  /** `getUserIdFromToken`: the `userId` of the decoded payload; an error
      from verifyToken propagates unchanged. */
  function GetUserIdFromToken(token: string, verify: string -> VerifyOutcome): (r: Result<Option<int>>)
    ensures r.Ok? <==> VerifyToken(token, verify).Ok?
    ensures r.Ok? ==> r.value == VerifyToken(token, verify).value.userId
    ensures r.Err? ==> r.error == VerifyToken(token, verify).error
  {
    match VerifyToken(token, verify)
    case Ok(d) => Ok(d.userId)
    case Err(e) => Err(e)
  }

  /** A token signed for a user reads back as that user's id, provided the
      library verifies what it signed. */
  lemma SignThenRead(u: int, rest: map<string, string>, sign: Claims -> string,
                     verify: string -> VerifyOutcome)
    requires u != 0
    requires verify(sign(Claims(u))) == Verified(Decoded(Some(u)))
    ensures SignToken(TokenRequest(Some(u), rest), sign).Ok?
    ensures GetUserIdFromToken(SignToken(TokenRequest(Some(u), rest), sign).value, verify) == Ok(Some(u))
  {
  }
}
