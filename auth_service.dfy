/** The authentication service (src/services/auth.service.ts): a state
    machine over the Token collection, with the User collection read by
    login and written by register.

    Each operation is given twice: a step function on the collections' values,
    which states what the operation does and which the lemmas below relate
    across calls, and a method that performs it on the stores and is proved
    to agree with its step function.

    Signing is a function parameter per call (`signAccess`, `signRefresh`):
    the clock and the secret are inside it, so two calls may sign
    differently. Verification is a function parameter `verify` from a token
    to a `Verdict`. */
module AuthService {
  import opened Types
  import opened SessionStore
  import opened UserTable
  import Generate

  datatype LoginData = LoginData(email: string, password: string)

  /** `TUserRegisterData`; the role is optional. */
  datatype RegisterData = RegisterData(email: string, password: string, role: Option<Role>)

  /** What login and register hand back: the JSON body and, separately, the
      refresh token for the cookie. */
  datatype Issued = Issued(authResponse: AuthResponse, refreshToken: Token)

  const UserNotFound := AppError(AuthErrorClass, "User not found!", NOT_FOUND, "NotFound")

  const AdminRegistrationRefused :=
    AppError(AuthErrorClass, "You cannot register as an admin!", FORBIDDEN, "AuthorizationError")

  const RefreshTokenRequired :=
    AppError(AuthErrorClass, "Refresh token is required!", UNAUTHORIZED, "AuthenticationError")

  const InvalidRefreshToken :=
    AppError(AuthErrorClass, "Invalid refresh token!", UNAUTHORIZED, "AuthenticationError")

  const RefreshTokenExpired :=
    AppError(AuthErrorClass, "Refresh token expired, please login again", UNAUTHORIZED, "AuthenticationError")

  /** The part of a user the service returns: never the password. */
  function PublicView(u: User): AuthUser {
    AuthUser(u.username, u.email, u.role)
  }

  /** The admin gate: an admin role for an email outside the whitelist. */
  predicate AdminRefused(data: RegisterData, whitelist: seq<string>) {
    data.role == Some(Admin) && data.email !in whitelist
  }

  /** The user `User.create` is given; an absent role takes the schema's
      default, "user". */
  function NewUser(data: RegisterData, suffix: string, newId: UserId): (u: User)
    ensures u.id == newId && u.email == data.email && u.password == data.password
    ensures u.username == Generate.GenerateUsername(suffix)
    ensures u.role == Admin <==> data.role == Some(Admin)
  {
    User.User(newId, Generate.GenerateUsername(suffix), data.email, data.password,
               data.role.GetOr(Role.User), None, None, None)
  }

  // ---------------------------------------------------------------------------
  // Step functions

  /** The result of a login or refresh and the Token collection after it. */
  datatype Step<+T> = Step(result: Result<T>, records: seq<Session>)

  /** The result of a register and both collections after it. */
  datatype Registered = Registered(result: Result<Issued>, users: seq<User>, records: seq<Session>)

  function LoginStep(users: seq<User>, records: seq<Session>, email: string,
                     signAccess: UserId -> Token, signRefresh: UserId -> Token): (s: Step<Issued>)
    ensures (forall u :: u in users ==> u.email != email) <==> s.result.Err?
    ensures s.result.Err? ==> s.result.error == UserNotFound && s.records == records
    ensures s.result.Ok? ==>
              FindByEmail(users, email).Some?
              && var u := FindByEmail(users, email).value;
                 s.result.value == Issued(AuthResponse(PublicView(u), signAccess(u.id)), signRefresh(u.id))
                 && s.records == records + [Session(signRefresh(u.id), u.id)]
  {
    match FindByEmail(users, email)
    case None => Step(Err(UserNotFound), records)
    case Some(u) =>
      Step(Ok(Issued(AuthResponse(PublicView(u), signAccess(u.id)), signRefresh(u.id))),
           records + [Session(signRefresh(u.id), u.id)])
  }

  function RegisterStep(users: seq<User>, records: seq<Session>, data: RegisterData, whitelist: seq<string>,
                        suffix: string, newId: UserId,
                        signAccess: UserId -> Token, signRefresh: UserId -> Token): (s: Registered)
    ensures AdminRefused(data, whitelist) ==> s == Registered(Err(AdminRegistrationRefused), users, records)
    ensures !AdminRefused(data, whitelist) && EmailTaken(users, data.email) ==>
              s == Registered(Err(DuplicateKey), users, records)
    ensures s.result.Ok? <==> !AdminRefused(data, whitelist) && !EmailTaken(users, data.email)
    ensures s.result.Ok? ==>
              var u := NewUser(data, suffix, newId);
              && s.users == users + [u]
              && s.records == records + [Session(s.result.value.refreshToken, newId)]
              && s.result.value.refreshToken == signRefresh(newId)
              && s.result.value.authResponse == AuthResponse(PublicView(u), signAccess(newId))
  {
    if AdminRefused(data, whitelist) then Registered(Err(AdminRegistrationRefused), users, records)
    else if FindByEmail(users, data.email).Some? then Registered(Err(DuplicateKey), users, records)
    else
      var u := NewUser(data, suffix, newId);
      Registered(Ok(Issued(AuthResponse(PublicView(u), signAccess(newId)), signRefresh(newId))),
                 users + [u], records + [Session(signRefresh(newId), newId)])
  }

  /** Logout never fails; an empty token changes nothing, any other removes
      the first record holding it, if there is one. */
  function LogoutStep(records: seq<Session>, t: Token): (r: seq<Session>)
    ensures t == "" ==> r == records
    ensures |r| == if t != "" && Stored(records, t) then |records| - 1 else |records|
    ensures forall s :: s in r ==> s in records
  {
    if t == "" then records
    else
      RemoveFirstLength(records, t);
      RemoveFirstSubset(records, t);
      RemoveFirst(records, t)
  }

  /** The store is consulted before the token is verified, and only an
      expired token changes the store. */
  function RefreshStep(records: seq<Session>, t: Token, verify: Token -> Verdict,
                       signAccess: UserId -> Token): (s: Step<Token>)
    ensures t == "" ==> s == Step(Err(RefreshTokenRequired), records)
    ensures t != "" && !Stored(records, t) ==> s == Step(Err(InvalidRefreshToken), records)
    ensures t != "" && Stored(records, t) ==>
              && (verify(t).Valid? ==> s == Step(Ok(signAccess(verify(t).userId)), records))
              && (verify(t).Expired? ==> s == Step(Err(RefreshTokenExpired), RemoveFirst(records, t)))
              && (verify(t).Malformed? ==> s == Step(Err(InvalidRefreshToken), records))
              && (verify(t).Other? ==> s == Step(Err(verify(t).err), records))
    ensures s.records != records ==> verify(t) == Expired
  {
    if t == "" then Step(Err(RefreshTokenRequired), records)
    else if !Stored(records, t) then Step(Err(InvalidRefreshToken), records)
    else
      var v := verify(t);
      if v.Valid? then Step(Ok(signAccess(v.userId)), records)
      else if IsTokenExpiredError(v) then Step(Err(RefreshTokenExpired), RemoveFirst(records, t))
      else if IsJsonWebTokenError(v) then Step(Err(InvalidRefreshToken), records)
      else Step(Err(v.err), records)
  }

  // ---------------------------------------------------------------------------
  // Properties of the state machine

  /** Logout takes away one record holding the token, if any held it, and
      leaves the count of every other token value unchanged. */
  lemma LogoutRevokesOne(records: seq<Session>, t: Token, u: Token)
    requires t != ""
    ensures Count(LogoutStep(records, t), u) ==
              if u == t && Count(records, t) > 0 then Count(records, t) - 1 else Count(records, u)
  {
    CountRemoveFirst(records, t, t);
    CountRemoveFirst(records, t, u);
  }

  /** While a token value is stored at most once, a second logout with it
      changes nothing, and no record holding it is left. */
  lemma LogoutIdempotent(records: seq<Session>, t: Token)
    requires Count(records, t) <= 1
    ensures LogoutStep(LogoutStep(records, t), t) == LogoutStep(records, t)
    ensures !Stored(LogoutStep(records, t), t) || t == ""
  {
    if t != "" {
      var once := LogoutStep(records, t);
      LogoutRevokesOne(records, t, t);
      StoredIffCount(once, t);
      RemoveFirstUnstored(once, t);
    }
  }

  /** Revocation: after a logout that removed the last copy of a token,
      refreshing with it fails with the same answer as a token never issued. */
  lemma RefreshAfterLogoutFails(records: seq<Session>, t: Token, verify: Token -> Verdict,
                                signAccess: UserId -> Token)
    requires t != "" && Count(records, t) <= 1
    ensures RefreshStep(LogoutStep(records, t), t, verify, signAccess) ==
              Step(Err(InvalidRefreshToken), LogoutStep(records, t))
  {
    LogoutIdempotent(records, t);
  }

  /** Expiry: a stored token that has expired is removed by the refresh that
      finds it so, and a second refresh with it fails as not stored. */
  lemma ExpiredRefreshCleansUp(records: seq<Session>, t: Token, verify: Token -> Verdict,
                               signAccess: UserId -> Token)
    requires t != "" && Count(records, t) == 1 && verify(t) == Expired
    ensures RefreshStep(records, t, verify, signAccess).result == Err(RefreshTokenExpired)
    ensures var after := RefreshStep(records, t, verify, signAccess).records;
            RefreshStep(after, t, verify, signAccess) == Step(Err(InvalidRefreshToken), after)
  {
    StoredIffCount(records, t);
    CountRemoveFirst(records, t, t);
    StoredIffCount(RemoveFirst(records, t), t);
  }

  /** No rotation: a successful refresh keeps the store, so the same refresh
      token succeeds again, for the same user. */
  lemma RefreshReusable(records: seq<Session>, t: Token, verify: Token -> Verdict,
                        signAccess: UserId -> Token, signAccessLater: UserId -> Token)
    requires RefreshStep(records, t, verify, signAccess).result.Ok?
    ensures var after := RefreshStep(records, t, verify, signAccess).records;
            after == records
            && RefreshStep(after, t, verify, signAccessLater).result == Ok(signAccessLater(verify(t).userId))
  {
  }

  /** A login appends exactly one record and keeps every earlier one, for
      this user and for any other, so sessions accumulate. */
  lemma LoginKeepsSessions(users: seq<User>, records: seq<Session>, email: string,
                           signAccess: UserId -> Token, signRefresh: UserId -> Token, u: Token)
    requires LoginStep(users, records, email, signAccess, signRefresh).result.Ok?
    ensures var s := LoginStep(users, records, email, signAccess, signRefresh);
            Count(s.records, u) == Count(records, u) + (if u == s.result.value.refreshToken then 1 else 0)
  {
    var s := LoginStep(users, records, email, signAccess, signRefresh);
    CountAppend(records, Session(s.result.value.refreshToken, s.records[|records|].userId), u);
  }

  /** The lifecycle of one account: register, log in again, refresh with the
      first refresh token, log out with it, refresh with it once more.
      The hypotheses are what the signer provides: the first refresh token is
      new to the store, verifies to its user, and differs from the second. */
  lemma SessionLifecycle(users: seq<User>, records: seq<Session>, data: RegisterData, whitelist: seq<string>,
                         suffix: string, newId: UserId,
                         signAccess1: UserId -> Token, signRefresh1: UserId -> Token,
                         signAccess2: UserId -> Token, signRefresh2: UserId -> Token,
                         signAccess3: UserId -> Token, verify: Token -> Verdict)
    requires data.role == Some(Role.User) && !EmailTaken(users, data.email)
    requires signRefresh1(newId) != "" && !Stored(records, signRefresh1(newId))
    requires verify(signRefresh1(newId)) == Valid(newId)
    requires signRefresh2(newId) != signRefresh1(newId)
    ensures var reg := RegisterStep(users, records, data, whitelist, suffix, newId, signAccess1, signRefresh1);
            var t := signRefresh1(newId);
            var login := LoginStep(reg.users, reg.records, data.email, signAccess2, signRefresh2);
            var refresh := RefreshStep(login.records, t, verify, signAccess3);
            var logout := LogoutStep(refresh.records, t);
            && reg.result.Ok? && reg.result.value.refreshToken == t
            && login.result.Ok? && login.result.value.refreshToken == signRefresh2(newId)
            && login.records == records + [Session(t, newId), Session(signRefresh2(newId), newId)]
            && refresh == Step(Ok(signAccess3(newId)), login.records)
            && RefreshStep(logout, t, verify, signAccess3) == Step(Err(InvalidRefreshToken), logout)
  {
    var reg := RegisterStep(users, records, data, whitelist, suffix, newId, signAccess1, signRefresh1);
    var t := signRefresh1(newId);
    var u := NewUser(data, suffix, newId);
    FindByEmailAppend(users, u);
    var login := LoginStep(reg.users, reg.records, data.email, signAccess2, signRefresh2);
    assert login.records == records + [Session(t, newId), Session(signRefresh2(newId), newId)];
    StoredIffCount(records, t);
    CountAppend(records, Session(t, newId), t);
    CountAppend(reg.records, Session(signRefresh2(newId), newId), t);
    StoredIffCount(login.records, t);
    RefreshAfterLogoutFails(login.records, t, verify, signAccess3);
  }

  // ---------------------------------------------------------------------------
  // The service on the stores

  method Login(users: Users, tokens: TokenStore, data: LoginData,
               signAccess: UserId -> Token, signRefresh: UserId -> Token) returns (r: Result<Issued>)
    modifies tokens
    ensures var s := LoginStep(users.rows, old(tokens.records), data.email, signAccess, signRefresh);
            r == s.result && tokens.records == s.records
  {
    var found := FindByEmail(users.rows, data.email);
    if found.None? {
      return Err(UserNotFound);
    }
    var u := found.value;
    var accessToken := signAccess(u.id);
    var refreshToken := signRefresh(u.id);
    tokens.Create(refreshToken, u.id);
    r := Ok(Issued(AuthResponse(PublicView(u), accessToken), refreshToken));
  }

  method Register(users: Users, tokens: TokenStore, data: RegisterData, whitelist: seq<string>,
                  suffix: string, newId: UserId,
                  signAccess: UserId -> Token, signRefresh: UserId -> Token) returns (r: Result<Issued>)
    modifies users, tokens
    ensures var s := RegisterStep(old(users.rows), old(tokens.records), data, whitelist, suffix, newId,
                                  signAccess, signRefresh);
            r == s.result && users.rows == s.users && tokens.records == s.records
  {
    if data.role == Some(Admin) && data.email !in whitelist {
      return Err(AdminRegistrationRefused);
    }
    var u := NewUser(data, suffix, newId);
    var err := users.Create(u);
    if err.Some? {
      return Err(err.value);
    }
    var accessToken := signAccess(newId);
    var refreshToken := signRefresh(newId);
    tokens.Create(refreshToken, newId);
    r := Ok(Issued(AuthResponse(PublicView(u), accessToken), refreshToken));
  }

  method Logout(tokens: TokenStore, t: Token)
    modifies tokens
    ensures tokens.records == LogoutStep(old(tokens.records), t)
  {
    if t != "" {
      tokens.DeleteOne(t);
    }
  }

  method Refresh(tokens: TokenStore, t: Token, verify: Token -> Verdict,
                 signAccess: UserId -> Token) returns (r: Result<Token>)
    modifies tokens
    ensures var s := RefreshStep(old(tokens.records), t, verify, signAccess);
            r == s.result && tokens.records == s.records
  {
    if t == "" {
      return Err(RefreshTokenRequired);
    }
    var exists_ := tokens.Exists(t);
    if !exists_ {
      return Err(InvalidRefreshToken);
    }
    var v := verify(t);
    if v.Valid? {
      return Ok(signAccess(v.userId));
    }
    if IsTokenExpiredError(v) {
      tokens.DeleteOne(t);
      return Err(RefreshTokenExpired);
    }
    if IsJsonWebTokenError(v) {
      return Err(InvalidRefreshToken);
    }
    r := Err(v.err);
  }
}
