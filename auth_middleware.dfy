/** The authentication middleware (backend/src/middlewares/auth.middleware.js):
    reads the Authorization header, verifies the bearer token and sets
    `req.user` before handing over to `next`. */
module AuthMiddleware {
  import opened Js
  import opened Strings
  import opened Jwt

  const BearerPrefix := "Bearer "
  const NoToken := Fail(401, "NO_TOKEN", "Authentication required")

  /** `req.user` as the middleware sets it. */
  datatype RequestUser = RequestUser(id: Option<int>)

  /** The request object as far as the middleware touches it. */
  class Request {
    const authorization: Option<string>
    var user: Option<RequestUser>

    constructor (authorization: Option<string>)
      ensures this.authorization == authorization && user.None?
    {
      this.authorization := authorization;
      user := None;
    }
  }

  /** The token of the header: `undefined` when the header is missing or
      does not start with "Bearer ", otherwise `header.split(" ")[1]`, which
      is the text after "Bearer " up to the next space. */
  function BearerToken(header: Option<string>): (r: Option<string>)
    ensures r.Some? <==> header.Some? && BearerPrefix <= header.value
    ensures r.Some? ==> r.value == TakeUntil(header.value[|BearerPrefix|..], ' ')
  {
    if !TruthyString(header) || !(BearerPrefix <= header.value) then None
    else
      var h := header.value;
      var rest := h[|BearerPrefix|..];
      assert h == "Bearer" + [' '] + rest;
      SplitAfterWord("Bearer", ' ', rest);
      SplitFirst(rest, ' ');
      Some(Split(h, ' ')[1])
  }

  /** What the middleware decides: either the request goes on as `user`,
      or `next` receives an error. */
  datatype Decision = Proceed(user: RequestUser) | Reject(error: Thrown)

  /** A missing or non-bearer header is NO_TOKEN; a token verifyToken
      refuses is rejected with verifyToken's own error; otherwise the request
      proceeds as the decoded `userId`. */
  function Decide(header: Option<string>, verify: string -> VerifyOutcome): (d: Decision)
    ensures BearerToken(header).None? ==> d == Reject(NoToken)
    ensures BearerToken(header).Some? ==>
      var v := VerifyToken(BearerToken(header).value, verify);
      d == (if v.Ok? then Proceed(RequestUser(v.value.userId)) else Reject(v.error))
  {
    match BearerToken(header)
    case None => Reject(NoToken)
    case Some(token) =>
      match VerifyToken(token, verify)
      case Ok(decoded) => Proceed(RequestUser(decoded.userId))
      case Err(e) => Reject(e)
  }

  /** A request proceeds only with a bearer header whose token verifies,
      and then as the user id the token carries. */
  lemma ProceedsOnlyWithValidToken(header: Option<string>, verify: string -> VerifyOutcome)
    ensures Decide(header, verify).Proceed? <==>
      header.Some? && BearerPrefix <= header.value
      && verify(TakeUntil(header.value[|BearerPrefix|..], ' ')).Verified?
  {
  }

  /** Every rejection is a 401: NO_TOKEN from the middleware itself, or one
      of the codes verifyToken throws. */
  lemma RejectionsAre401(header: Option<string>, verify: string -> VerifyOutcome)
    ensures Decide(header, verify).Reject? ==> Decide(header, verify).error.status == Some(401)
  {
  }

  /** The middleware: sets `req.user` and calls `next()` on success; calls
      `next(err)` and leaves `req.user` alone otherwise. The result is the
      argument `next` receives (None for a call without one). */
  method Authenticate(req: Request, verify: string -> VerifyOutcome) returns (nextArg: Option<Thrown>)
    modifies req
    ensures Decide(req.authorization, verify).Proceed? ==>
      nextArg.None? && req.user == Some(Decide(req.authorization, verify).user)
    ensures Decide(req.authorization, verify).Reject? ==>
      nextArg == Some(Decide(req.authorization, verify).error) && req.user == old(req.user)
  {
    var header := req.authorization;
    var token := BearerToken(header);
    if token.None? {
      nextArg := Some(NoToken);
      return;
    }
    var decoded := VerifyToken(token.value, verify);
    if decoded.Err? {
      nextArg := Some(decoded.error);
      return;
    }
    req.user := Some(RequestUser(decoded.value.userId));
    nextArg := None;
  }
}
