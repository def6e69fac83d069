/** `authenticate` (src/middlewares/Authenticate.middleware.ts): parses a
    Bearer header, verifies the access token and either records the user on
    the request and passes on, or answers. */
module Authenticate {
  import opened Types
  import opened Http
  import opened Text

  const NoToken := ErrorReply(UNAUTHORIZED, "AuthenticationError", "Access denied, no token provided!")
  const AccessTokenExpired :=
    ErrorReply(UNAUTHORIZED, "AuthenticationError", "Access token expired, request a new one with refresh token!")
  const AccessTokenInvalid := ErrorReply(UNAUTHORIZED, "AuthenticationError", "Access token invalid!")

  /** What the middleware does: call `next` with the user set, or answer. */
  datatype Outcome = Next(userId: UserId) | Respond(reply: Reply)

  /** The token of a Bearer header: `header.split(" ")[1]`. */
  function BearerToken(header: string): (t: Token)
    requires StartsWith(header, "Bearer ")
    ensures t == UntilSpace(header[7..])
  {
    assert header[..7] == "Bearer ";
    UntilSpacePrefix(header);
    SecondField(header)
  }

  lemma UntilSpacePrefix(header: string)
    requires StartsWith(header, "Bearer ")
    ensures UntilSpace(header) == "Bearer"
  {
    assert header[..7] == "Bearer ";
    assert header[0] == 'B' && header[1] == 'e' && header[2] == 'a' && header[3] == 'r';
    assert header[4] == 'e' && header[5] == 'r' && header[6] == ' ';
    assert header[1..][1..][1..][1..][1..][1..][0] == ' ';
  }

  function Decide(header: Option<string>, verify: Token -> Verdict): (o: Outcome)
    ensures (header.None? || !StartsWith(header.value, "Bearer ")) ==> o == Respond(NoToken)
    ensures header.Some? && StartsWith(header.value, "Bearer ") ==>
              var v := verify(UntilSpace(header.value[7..]));
              && (v.Valid? ==> o == Next(v.userId))
              && (v.Expired? ==> o == Respond(AccessTokenExpired))
              && (v.Malformed? ==> o == Respond(AccessTokenInvalid))
              && (v.Other? ==> o == Respond(ServerErrorReply("Internal server error!", v.err)))
  {
    if header.None? || !StartsWith(header.value, "Bearer ") then Respond(NoToken)
    else
      var v := verify(BearerToken(header.value));
      if v.Valid? then Next(v.userId)
      else if IsTokenExpiredError(v) then Respond(AccessTokenExpired)
      else if IsJsonWebTokenError(v) then Respond(AccessTokenInvalid)
      else Respond(ServerErrorReply("Internal server error!", v.err))
  }

  /** Every refusal is a 401 except an unrecognised verification error,
      and only a valid token lets the request through. */
  lemma RefusalsAre401(header: Option<string>, verify: Token -> Verdict)
    ensures Decide(header, verify).Next? <==>
              header.Some? && StartsWith(header.value, "Bearer ") && verify(UntilSpace(header.value[7..])).Valid?
    ensures Decide(header, verify).Respond? ==>
              (Decide(header, verify).reply.status == UNAUTHORIZED <==>
                 !(header.Some? && StartsWith(header.value, "Bearer ") && verify(UntilSpace(header.value[7..])).Other?))
  {
  }

  /** The header's first word must be exactly "Bearer": a header holding
      only the token is refused before anything is verified. */
  lemma BareTokenRefused(token: string, verify: Token -> Verdict)
    requires |token| > 0 && token[0] != 'B'
    ensures Decide(Some(token), verify) == Respond(NoToken)
  {
  }

  /** The middleware on a request: `req.userId` is set and `next` called
      exactly when the decision passes; otherwise the reply is written and
      the request is left as it was. */
  method Run(req: Request, res: Response, header: Option<string>, verify: Token -> Verdict)
    returns (next: bool)
    modifies req, res
    ensures next <==> Decide(header, verify).Next?
    ensures next ==> req.userId == Some(Decide(header, verify).userId) && res.reply == old(res.reply)
    ensures !next ==> req.userId == old(req.userId) && res.reply == Some(Decide(header, verify).reply)
    ensures req.banner == old(req.banner) && res.cookie == old(res.cookie)
  {
    match Decide(header, verify)
    case Next(id) =>
      req.userId := Some(id);
      next := true;
    case Respond(r) =>
      res.Send(r);
      next := false;
  }
}
