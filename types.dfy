/** Entities, error values and replies shared by every part of the blog API model.

    The Mongo collections (User, Blog, Token) become sequences of records kept
    in insertion order; an ObjectId becomes an opaque type with equality. */
module Types {

  datatype Option<+T> = None | Some(value: T) {
    function GetOr(default: T): T {
      match this
      case Some(v) => v
      case None => default
    }
  }

  /** What a service call either returns or throws. */
  datatype Result<+T> = Ok(value: T) | Err(error: Failure)

  type UserId(==, 0, !new)
  type BlogId(==, 0, !new)

  /** A signed JWT, as the string the client carries. */
  type Token = string

  /** `TAuthRole`: "admin" | "user". */
  datatype Role = Admin | User

  function RoleName(r: Role): (s: string)
    ensures s == "admin" || s == "user"
    ensures s == "admin" <==> r == Admin
  {
    match r
    case Admin => "admin"
    case User => "user"
  }

  /** `TBlogStatus`: "draft" | "published". */
  datatype BlogStatus = Draft | Published

  datatype Banner = Banner(publicId: string, url: string, width: int, height: int)

  datatype Blog = Blog(
    id: BlogId,
    title: string,
    slug: string,
    content: string,
    banner: Banner,
    author: UserId,
    viewsCount: nat,
    likesCount: nat,
    commentsCount: nat,
    status: BlogStatus)

  datatype SocialLinks = SocialLinks(
    website: Option<string>,
    facebook: Option<string>,
    instagram: Option<string>,
    linkedin: Option<string>,
    x: Option<string>,
    youtube: Option<string>)

  const NoLinks := SocialLinks(None, None, None, None, None, None)

  datatype User = User(
    id: UserId,
    username: string,
    email: string,
    password: string,
    role: Role,
    firstName: Option<string>,
    lastName: Option<string>,
    socialLinks: Option<SocialLinks>)

  /** One document of the Token collection: a stored refresh token and its owner. */
  datatype Session = Session(token: Token, userId: UserId)

  /** JavaScript truthiness of an optional string field: present and non-empty. */
  predicate Truthy(s: Option<string>) {
    s.Some? && s.value != ""
  }

  /** `value || DEFAULT` for an optional number: an absent value or zero
      falls back to the default. */
  function ResolveOr(v: Option<int>, default: int): int {
    if v.None? || v.value == 0 then default else v.value
  }

  // ---------------------------------------------------------------------------
  // Thrown values

  /** The three application error classes (`AuthError`, `BlogError`, `UserError`). */
  datatype ErrorClass = AuthErrorClass | BlogErrorClass | UserErrorClass

  /** A thrown value, as far as the error handlers can tell them apart:
      an application error; any other object with a `name` (and possibly a
      numeric `code`, as Mongo errors have); or a value with no name. */
  datatype Failure =
    | AppError(cls: ErrorClass, message: string, statusCode: int, code: string)
    | NamedError(name: string, mongoCode: Option<int>)
    | Unnamed

  /** The `name` property an error handler reads off a thrown value. */
  function ErrorName(f: Failure): (n: Option<string>)
    ensures f.NamedError? ==> n == Some(f.name)
    ensures f.Unnamed? <==> n.None?
  {
    match f
    case AppError(cls, _, _, _) =>
      Some(match cls
           case AuthErrorClass => "AuthError"
           case BlogErrorClass => "BlogError"
           case UserErrorClass => "UserError")
    case NamedError(name, _) => Some(name)
    case Unnamed => None
  }

  /** MongoDB's duplicate-key error, raised by a unique index. */
  const DuplicateKey := NamedError("MongoServerError", Some(11000))

  // ---------------------------------------------------------------------------
  // Outcome of verifying a JWT

  /** What `jsonwebtoken.verify` does with a token: return its payload's
      `userId`, or throw a `TokenExpiredError`, another `JsonWebTokenError`
      (bad signature, malformed, not-before), or some other error. */
  datatype Verdict = Valid(userId: UserId) | Expired | Malformed | Other(err: Failure)

  /** `err instanceof TokenExpiredError`. */
  predicate IsTokenExpiredError(v: Verdict) {
    v.Expired?
  }

  /** `err instanceof JsonWebTokenError`: `TokenExpiredError` is a subclass of
      `JsonWebTokenError`, so an expired token passes this test too. */
  predicate IsJsonWebTokenError(v: Verdict) {
    v.Expired? || v.Malformed?
  }

  // ---------------------------------------------------------------------------
  // HTTP replies

  const OK := 200
  const CREATED := 201
  const NO_CONTENT := 204
  const BAD_REQUEST := 400
  const UNAUTHORIZED := 401
  const FORBIDDEN := 403
  const NOT_FOUND := 404
  const CONFLICT := 409
  const PAYLOAD_TOO_LARGE := 413
  const INTERNAL_SERVER_ERROR := 500

  /** The public part of a user returned by login and register. */
  datatype AuthUser = AuthUser(username: string, email: string, role: Role)

  datatype AuthResponse = AuthResponse(user: AuthUser, accessToken: Token)

  datatype BlogList = BlogList(limit: int, offset: int, total: nat, blogs: seq<Blog>)

  datatype UserList = UserList(limit: int, offset: int, total: nat, users: seq<User>)

  datatype Payload =
    | NoBody
    | ErrorBody(code: string, message: string, detail: Option<Failure>)
    | AuthBody(auth: AuthResponse)
    | AccessTokenBody(accessToken: Token)
    | BlogBody(blog: Blog)
    | BlogListBody(list: BlogList)

  datatype Reply = Reply(status: int, payload: Payload)

  function ErrorReply(status: int, code: string, message: string): Reply {
    Reply(status, ErrorBody(code, message, None))
  }

  /** The catch-all 500 reply the older handlers write: it carries the thrown value. */
  function ServerErrorReply(message: string, err: Failure): (r: Reply)
    ensures r.status == INTERNAL_SERVER_ERROR
    ensures r.payload.ErrorBody? && r.payload.code == "ServerError" && r.payload.detail == Some(err)
  {
    Reply(INTERNAL_SERVER_ERROR, ErrorBody("ServerError", message, Some(err)))
  }
}
