/** The older authentication handlers, src/controllers/auth/Register.controller.ts
    and src/controllers/auth/Login.controller.ts: they do the service's work
    inline and write their own replies, 201 on success and a 500 that
    carries the thrown value on any exception. */
module LegacyAuth {
  import opened Types
  import opened Http
  import opened SessionStore
  import opened UserTable
  import AuthService
  import AuthController

  const RegisterServerMessage := "Internal server error!"

  /** The reply of the older register for each outcome of the registration:
      the gate answers 403 itself, before anything is created; every
      exception inside its `try`, a duplicate email included, becomes 500. */
  function RegisterReply(r: Result<AuthService.Issued>): (reply: Reply)
    ensures r.Ok? ==> reply == Reply(CREATED, AuthBody(r.value.authResponse))
    ensures r == Err(AuthService.AdminRegistrationRefused) ==>
              reply == ErrorReply(FORBIDDEN, "AuthorizationError", "You cannot register as an admin!")
    ensures r.Err? && r.error != AuthService.AdminRegistrationRefused ==>
              reply == ServerErrorReply(RegisterServerMessage, r.error)
  {
    match r
    case Ok(issued) => Reply(CREATED, AuthBody(issued.authResponse))
    case Err(e) =>
      if e == AuthService.AdminRegistrationRefused then
        ErrorReply(FORBIDDEN, "AuthorizationError", "You cannot register as an admin!")
      else ServerErrorReply(RegisterServerMessage, e)
  }

  /** A duplicate email: the current controller answers 409, the older one 500. */
  lemma DuplicateEmailReplies(users: seq<User>, records: seq<Session>, data: AuthService.RegisterData,
                              whitelist: seq<string>, suffix: string, newId: UserId,
                              signAccess: UserId -> Token, signRefresh: UserId -> Token, nodeEnv: string)
    requires !AuthService.AdminRefused(data, whitelist) && EmailTaken(users, data.email)
    ensures var s := AuthService.RegisterStep(users, records, data, whitelist, suffix, newId, signAccess, signRefresh);
            && s.users == users && s.records == records
            && RegisterReply(s.result).status == INTERNAL_SERVER_ERROR
            && AuthController.HandleError(s.result.error, nodeEnv) ==
                 ErrorReply(CONFLICT, "ConflictError", "User already exists")
  {
  }

  /** `register` of Register.controller.ts. */
  method Register(users: Users, tokens: TokenStore, res: Response, data: AuthService.RegisterData,
                  whitelist: seq<string>, suffix: string, newId: UserId, nodeEnv: string,
                  signAccess: UserId -> Token, signRefresh: UserId -> Token)
    modifies users, tokens, res
    ensures var s := AuthService.RegisterStep(old(users.rows), old(tokens.records), data, whitelist, suffix, newId,
                                              signAccess, signRefresh);
            && users.rows == s.users && tokens.records == s.records
            && res.reply == Some(RegisterReply(s.result))
            && res.cookie == if s.result.Ok? then SetTo(s.result.value.refreshToken, RefreshCookieOptions(nodeEnv))
                             else old(res.cookie)
  {
    if data.role == Some(Admin) && data.email !in whitelist {
      res.Send(ErrorReply(FORBIDDEN, "AuthorizationError", "You cannot register as an admin!"));
      return;
    }
    var u := AuthService.NewUser(data, suffix, newId);
    var err := users.Create(u);
    if err.Some? {
      res.Send(ServerErrorReply(RegisterServerMessage, err.value));
      return;
    }
    var accessToken := signAccess(newId);
    var refreshToken := signRefresh(newId);
    tokens.Create(refreshToken, newId);
    res.SetRefreshCookie(refreshToken, nodeEnv);
    res.Send(Reply(CREATED, AuthBody(AuthResponse(AuthService.PublicView(u), accessToken))));
  }

  /** The reply of the older login: 404 with its own message for an unknown
      email, 201 with the public view otherwise. */
  function LoginReply(r: Result<AuthService.Issued>): (reply: Reply)
    ensures r.Ok? ==> reply == Reply(CREATED, AuthBody(r.value.authResponse))
    ensures r.Err? ==> reply == ErrorReply(NOT_FOUND, "NotFound", "User not found")
  {
    match r
    case Ok(issued) => Reply(CREATED, AuthBody(issued.authResponse))
    case Err(_) => ErrorReply(NOT_FOUND, "NotFound", "User not found")
  }

  /** `login` of Login.controller.ts. `fault` is the exception, if any, the
      user lookup throws; it is answered 500 and nothing is stored. */
  method Login(users: Users, tokens: TokenStore, res: Response, data: AuthService.LoginData,
               fault: Option<Failure>, nodeEnv: string,
               signAccess: UserId -> Token, signRefresh: UserId -> Token)
    modifies tokens, res
    ensures fault.Some? ==>
              tokens.records == old(tokens.records) && res.cookie == old(res.cookie)
              && res.reply == Some(ServerErrorReply(RegisterServerMessage, fault.value))
    ensures fault.None? ==>
              var s := AuthService.LoginStep(users.rows, old(tokens.records), data.email, signAccess, signRefresh);
              && tokens.records == s.records
              && res.reply == Some(LoginReply(s.result))
              && res.cookie == if s.result.Ok? then SetTo(s.result.value.refreshToken, RefreshCookieOptions(nodeEnv))
                               else old(res.cookie)
  {
    if fault.Some? {
      res.Send(ServerErrorReply(RegisterServerMessage, fault.value));
      return;
    }
    var found := FindByEmail(users.rows, data.email);
    if found.None? {
      res.Send(ErrorReply(NOT_FOUND, "NotFound", "User not found"));
      return;
    }
    var u := found.value;
    var accessToken := signAccess(u.id);
    var refreshToken := signRefresh(u.id);
    tokens.Create(refreshToken, u.id);
    res.SetRefreshCookie(refreshToken, nodeEnv);
    res.Send(Reply(CREATED, AuthBody(AuthResponse(AuthService.PublicView(u), accessToken))));
  }
}
