/** `AuthController` (src/controllers/auth.controller.ts): the HTTP face of
    the authentication service. Each handler calls the service, sets or
    clears the refresh-token cookie, and writes one reply. */
module AuthController {
  import opened Types
  import opened Http
  import opened SessionStore
  import opened UserTable
  import AuthService
  import ErrorMapping

  /** `AuthController.handleError`: the shared handler's chain without its
      CastError test. */
  function HandleError(err: Failure, nodeEnv: string): (r: Reply)
    ensures ErrorMapping.IsAuthError(err) ==> r == ErrorReply(err.statusCode, err.code, err.message)
    ensures !ErrorMapping.IsAuthError(err) && ErrorMapping.IsValidationError(err) ==>
              r == Reply(BAD_REQUEST, ErrorBody("ValidationError", "Invalid input data", Some(err)))
    ensures ErrorMapping.IsDuplicateKey(err) ==> r == ErrorReply(CONFLICT, "ConflictError", "User already exists")
    ensures !ErrorMapping.IsAuthError(err) && !ErrorMapping.IsValidationError(err) && !ErrorMapping.IsDuplicateKey(err) ==>
              r == ErrorMapping.UnexpectedErrorReply(err, nodeEnv)
  {
    if ErrorMapping.IsAuthError(err) then ErrorReply(err.statusCode, err.code, err.message)
    else if ErrorMapping.IsValidationError(err) then
      Reply(BAD_REQUEST, ErrorBody("ValidationError", "Invalid input data", Some(err)))
    else if ErrorMapping.IsDuplicateKey(err) then ErrorReply(CONFLICT, "ConflictError", "User already exists")
    else ErrorMapping.UnexpectedErrorReply(err, nodeEnv)
  }

  /** The two handlers answer alike except for a cast error, which this one
      treats as unexpected (500) and the shared one as a bad id (400). */
  lemma AgreesWithSharedHandlerExceptCastError(err: Failure, nodeEnv: string)
    ensures HandleError(err, nodeEnv) == ErrorMapping.HandleError(err, nodeEnv) <==>
              !(!ErrorMapping.IsAuthError(err) && ErrorMapping.IsCastError(err))
  {
    if !ErrorMapping.IsAuthError(err) && ErrorMapping.IsCastError(err) {
      assert HandleError(err, nodeEnv).status == INTERNAL_SERVER_ERROR;
    }
  }

  /** The refresh handler clears the cookie for an `AuthError` whose code is
      "AuthenticationError". */
  predicate ClearsCookieOn(err: Failure) {
    err.AppError? && err.cls == AuthErrorClass && err.code == "AuthenticationError"
  }

  /** Every failure of a refresh clears the cookie and is answered 401,
      except an unrecognised verification error, which is passed through as
      thrown. */
  lemma RefreshFailuresClearCookie(records: seq<Session>, t: Token, verify: Token -> Verdict,
                                   signAccess: UserId -> Token, nodeEnv: string)
    ensures var s := AuthService.RefreshStep(records, t, verify, signAccess);
            s.result.Err? ==>
              if t != "" && Stored(records, t) && verify(t).Other? then s.result.error == verify(t).err
              else ClearsCookieOn(s.result.error) && HandleError(s.result.error, nodeEnv).status == UNAUTHORIZED
  {
  }

  method Login(users: Users, tokens: TokenStore, res: Response, data: AuthService.LoginData, nodeEnv: string,
               signAccess: UserId -> Token, signRefresh: UserId -> Token)
    modifies tokens, res
    ensures var s := AuthService.LoginStep(users.rows, old(tokens.records), data.email, signAccess, signRefresh);
            && tokens.records == s.records
            && (s.result.Ok? ==>
                  res.cookie == SetTo(s.result.value.refreshToken, RefreshCookieOptions(nodeEnv))
                  && res.reply == Some(Reply(OK, AuthBody(s.result.value.authResponse))))
            && (s.result.Err? ==>
                  res.cookie == old(res.cookie) && res.reply == Some(HandleError(s.result.error, nodeEnv)))
  {
    var r := AuthService.Login(users, tokens, data, signAccess, signRefresh);
    match r
    case Ok(issued) =>
      res.SetRefreshCookie(issued.refreshToken, nodeEnv);
      res.Send(Reply(OK, AuthBody(issued.authResponse)));
    case Err(e) =>
      res.Send(HandleError(e, nodeEnv));
  }

  method Register(users: Users, tokens: TokenStore, res: Response, data: AuthService.RegisterData,
                  whitelist: seq<string>, suffix: string, newId: UserId, nodeEnv: string,
                  signAccess: UserId -> Token, signRefresh: UserId -> Token)
    modifies users, tokens, res
    ensures var s := AuthService.RegisterStep(old(users.rows), old(tokens.records), data, whitelist, suffix, newId,
                                              signAccess, signRefresh);
            && users.rows == s.users && tokens.records == s.records
            && (s.result.Ok? ==>
                  res.cookie == SetTo(s.result.value.refreshToken, RefreshCookieOptions(nodeEnv))
                  && res.reply == Some(Reply(OK, AuthBody(s.result.value.authResponse))))
            && (s.result.Err? ==>
                  res.cookie == old(res.cookie) && res.reply == Some(HandleError(s.result.error, nodeEnv)))
  {
    var r := AuthService.Register(users, tokens, data, whitelist, suffix, newId, signAccess, signRefresh);
    match r
    case Ok(issued) =>
      res.SetRefreshCookie(issued.refreshToken, nodeEnv);
      res.Send(Reply(OK, AuthBody(issued.authResponse)));
    case Err(e) =>
      res.Send(HandleError(e, nodeEnv));
  }

  /** The service's logout never throws, so the cookie is always cleared and
      the answer is always 204. */
  method Logout(tokens: TokenStore, res: Response, t: Token, nodeEnv: string)
    modifies tokens, res
    ensures tokens.records == AuthService.LogoutStep(old(tokens.records), t)
    ensures res.cookie == Cleared(RefreshCookieOptions(nodeEnv))
    ensures res.reply == Some(Reply(NO_CONTENT, NoBody))
  {
    AuthService.Logout(tokens, t);
    res.ClearRefreshCookie(nodeEnv);
    res.Send(Reply(NO_CONTENT, NoBody));
  }

  method Refresh(tokens: TokenStore, res: Response, t: Token, nodeEnv: string,
                 verify: Token -> Verdict, signAccess: UserId -> Token)
    modifies tokens, res
    ensures var s := AuthService.RefreshStep(old(tokens.records), t, verify, signAccess);
            && tokens.records == s.records
            && (s.result.Ok? ==>
                  res.cookie == old(res.cookie) && res.reply == Some(Reply(OK, AccessTokenBody(s.result.value))))
            && (s.result.Err? ==>
                  res.reply == Some(HandleError(s.result.error, nodeEnv))
                  && res.cookie == if ClearsCookieOn(s.result.error) then Cleared(RefreshCookieOptions(nodeEnv))
                                   else old(res.cookie))
  {
    var r := AuthService.Refresh(tokens, t, verify, signAccess);
    match r
    case Ok(accessToken) =>
      res.Send(Reply(OK, AccessTokenBody(accessToken)));
    case Err(e) =>
      if ClearsCookieOn(e) {
        res.ClearRefreshCookie(nodeEnv);
      }
      res.Send(HandleError(e, nodeEnv));
  }
}
