/** The express-validator rule sets of src/validators/auth.validator.ts.
    `isEmail`, `isJWT` and bcrypt's comparison are function parameters. */
module AuthValidator {
  import opened Types
  import opened Text
  import UserTable
  import opened Validation

  const MAX_EMAIL_LENGTH := 50
  const MIN_PASSWORD_LENGTH := 8

  const InvalidCredentials := "User email or password is invalid"

  /** The shared start of the email chain: trimmed, then required, at most
      50 long (the message says "less than"; 50 is accepted) and an email. */
  function EmailFormatErrors(email: string, isEmail: string -> bool): seq<FieldError> {
    Check(email != "", "email", "Email is required")
    + Check(LengthCount(email) <= MAX_EMAIL_LENGTH, "email", "Email must be less than 50 characters")
    + Check(isEmail(email), "email", "Invalid email address")
  }

  function PasswordLengthErrors(password: string): seq<FieldError> {
    Check(password != "", "password", "Password is required")
    + Check(LengthCount(password) >= MIN_PASSWORD_LENGTH, "password", "Password must be at least 8 characters long")
  }

  predicate WellFormedEmail(email: string, isEmail: string -> bool) {
    email != "" && LengthCount(email) <= MAX_EMAIL_LENGTH && isEmail(email)
  }

  predicate WellFormedPassword(password: string) {
    password != "" && LengthCount(password) >= MIN_PASSWORD_LENGTH
  }

  /** What `validateRegister` accepts. */
  predicate RegisterAccepted(users: seq<User>, email: string, password: string, role: Option<string>,
                             isEmail: string -> bool) {
    var e := Trim(email);
    && WellFormedEmail(e, isEmail)
    && !UserTable.EmailTaken(users, e)
    && WellFormedPassword(password)
    && (role.None? || role.value == "admin" || role.value == "user")
  }

  /** `validateRegister`. */
  function RegisterErrors(users: seq<User>, email: string, password: string, role: Option<string>,
                          isEmail: string -> bool): (errs: seq<FieldError>)
    ensures errs == [] <==> RegisterAccepted(users, email, password, role, isEmail)
    ensures UserTable.EmailTaken(users, Trim(email)) ==> FieldError("email", InvalidCredentials) in errs
  {
    var e := Trim(email);
    var roleErrors := if role.None? then [] else
      Check(role.value == "admin" || role.value == "user", "role", "Role must be either admin or user");
    var r := EmailFormatErrors(e, isEmail)
      + Check(!UserTable.EmailTaken(users, e), "email", InvalidCredentials)
      + PasswordLengthErrors(password)
      + roleErrors;
    assert UserTable.EmailTaken(users, e) ==> r[|EmailFormatErrors(e, isEmail)|] == FieldError("email", InvalidCredentials);
    r
  }

  /** What the password check of `validateLogin` accepts: a user with the
      (trimmed) email exists and the password matches their hash. */
  predicate PasswordMatches(users: seq<User>, email: string, password: string,
                            compare: (string, string) -> bool) {
    match UserTable.FindByEmail(users, email)
    case None => false
    case Some(u) => compare(password, u.password)
  }

  /** `validateLogin`. The password chain reads the email the email chain
      has already trimmed. */
  function LoginErrors(users: seq<User>, email: string, password: string,
                       isEmail: string -> bool, compare: (string, string) -> bool): (errs: seq<FieldError>)
    ensures errs == [] <==>
              WellFormedEmail(Trim(email), isEmail) && WellFormedPassword(password)
              && PasswordMatches(users, Trim(email), password, compare)
  {
    var e := Trim(email);
    EmailFormatErrors(e, isEmail)
    + Check(UserTable.FindByEmail(users, e).Some?, "email", InvalidCredentials)
    + PasswordLengthErrors(password)
    + Check(PasswordMatches(users, e, password, compare), "password", InvalidCredentials)
  }

  /** An unknown email and a wrong password both carry the one message, but
      not on the same fields: the reply for an unknown email also flags the
      email, so it tells the two apart. */
  lemma LoginFailuresShareMessage(users: seq<User>, email: string, password: string,
                                  isEmail: string -> bool, compare: (string, string) -> bool)
    requires WellFormedEmail(Trim(email), isEmail) && WellFormedPassword(password)
    ensures UserTable.FindByEmail(users, Trim(email)).None? ==>
              Mapped(LoginErrors(users, email, password, isEmail, compare)) ==
                map["email" := InvalidCredentials, "password" := InvalidCredentials]
    ensures UserTable.FindByEmail(users, Trim(email)).Some? && !PasswordMatches(users, Trim(email), password, compare) ==>
              Mapped(LoginErrors(users, email, password, isEmail, compare)) == map["password" := InvalidCredentials]
  {
    var e := Trim(email);
    assert EmailFormatErrors(e, isEmail) == [];
    assert PasswordLengthErrors(password) == [];
    var errs := LoginErrors(users, email, password, isEmail, compare);
    if UserTable.FindByEmail(users, e).None? {
      assert errs == [FieldError("email", InvalidCredentials), FieldError("password", InvalidCredentials)];
    } else if !PasswordMatches(users, e, password, compare) {
      assert errs == [FieldError("password", InvalidCredentials)];
    }
  }

  /** `validateRefreshToken`: the cookie must be present, non-empty and JWT-shaped. */
  function RefreshTokenErrors(cookie: Option<string>, isJWT: string -> bool): (errs: seq<FieldError>)
    ensures errs == [] <==> cookie.Some? && cookie.value != "" && isJWT(cookie.value)
    ensures cookie.None? || cookie.value == "" ==>
              FieldError("refreshToken", "Refresh token required") in errs
  {
    var t := cookie.GetOr("");
    Check(t != "", "refreshToken", "Refresh token required")
    + Check(isJWT(t), "refreshToken", "Invalid refresh token")
  }
}
