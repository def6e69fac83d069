/** The parts of an Express request and response that the handlers change:
    the reply written, the refresh-token cookie, `req.userId` and
    `req.body.banner`. */
module Http {
  import opened Types

  /** The attributes the handlers give the refresh-token cookie. */
  datatype CookieOptions = CookieOptions(httpOnly: bool, secure: bool, sameSiteStrict: bool)

  /** What a handler did to the `refreshToken` cookie. */
  datatype CookieOp = Untouched | SetTo(value: Token, options: CookieOptions) | Cleared(options: CookieOptions)

  /** Options passed to `res.cookie` / `res.clearCookie` for the refresh token. */
  function RefreshCookieOptions(nodeEnv: string): (o: CookieOptions)
    ensures o.httpOnly && o.sameSiteStrict
    ensures o.secure <==> nodeEnv == "production"
  {
    CookieOptions(true, nodeEnv == "production", true)
  }

  class Response {
    var reply: Option<Reply>
    var cookie: CookieOp

    constructor ()
      ensures reply == None && cookie == Untouched
    {
      reply := None;
      cookie := Untouched;
    }

    /** `res.status(..).json(..)` / `res.sendStatus(..)`. */
    method Send(r: Reply)
      modifies this
      ensures reply == Some(r) && cookie == old(cookie)
    {
      reply := Some(r);
    }

    /** `setRefreshTokenCookie`: `res.cookie("refreshToken", value, ...)`. */
    method SetRefreshCookie(value: Token, nodeEnv: string)
      modifies this
      ensures cookie == SetTo(value, RefreshCookieOptions(nodeEnv)) && reply == old(reply)
    {
      cookie := SetTo(value, RefreshCookieOptions(nodeEnv));
    }

    /** `clearRefreshTokenCookie`: `res.clearCookie("refreshToken", ...)`. */
    method ClearRefreshCookie(nodeEnv: string)
      modifies this
      ensures cookie == Cleared(RefreshCookieOptions(nodeEnv)) && reply == old(reply)
    {
      cookie := Cleared(RefreshCookieOptions(nodeEnv));
    }
  }

  class Request {
    /** `req.userId`, set by the authentication middleware. */
    var userId: Option<UserId>
    /** `req.body.banner`, set by the banner upload middleware. */
    var banner: Option<Banner>

    constructor (userId: Option<UserId>, banner: Option<Banner>)
      ensures this.userId == userId && this.banner == banner
    {
      this.userId := userId;
      this.banner := banner;
    }
  }
}
