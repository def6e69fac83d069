/** The older blog handlers (src/controllers/blog.controller.ts): the same
    six operations as the service, writing their replies themselves. Limit
    and offset are parsed from the query string with `parseInt`. Differences
    from the service: the banner is destroyed on every permitted delete, even
    without a public id, and every exception is answered 500 with the thrown
    value in the body. */
module BlogController {
  import opened Types
  import opened Http
  import opened Text
  import BlogTable
  import BlogService

  const ServerMessage := "Internal server error"

  /** The reply for a refusal of the access check: the same code and message
      the service's errors carry. */
  function RefusalReply(e: Failure): (r: Reply)
    requires e == BlogService.BlogNotFound || e == BlogService.BlogForbidden
    ensures e == BlogService.BlogNotFound ==> r == ErrorReply(NOT_FOUND, "NotFound", "Blog not found")
    ensures e == BlogService.BlogForbidden ==>
              r == ErrorReply(FORBIDDEN, "AuthorizationError", "Access denied, insufficient permissions")
  {
    ErrorReply(e.statusCode, e.code, e.message)
  }

  /** `parseInt(query)`, before the `|| DEFAULT` fallback; a missing value
      parses to NaN. */
  function ParsedQuery(q: Option<string>): Option<int> {
    match q
    case None => None
    case Some(s) => ParseInt(s)
  }

  /** What the route's validators let through for `limit`: absent, or an
      integer string in 1..50. */
  predicate ValidLimit(q: Option<string>) {
    q.Some? ==> IsIntString(q.value) && 1 <= IntStringValue(q.value) <= 50
  }

  /** What the validators let through for `offset`: absent, or a non-negative integer string. */
  predicate ValidOffset(q: Option<string>) {
    q.Some? ==> IsIntString(q.value) && IntStringValue(q.value) >= 0
  }

  /** A validated query parameter as the number it denotes. */
  function QueryValue(q: Option<string>): Option<int>
    requires q.Some? ==> IsIntString(q.value)
  {
    if q.None? then None else Some(IntStringValue(q.value))
  }

  /** On validated input, a given limit is its integer value and a given
      offset is its value unless that is 0, which falls back to the default. */
  lemma ResolvedQueries(limit: Option<string>, offset: Option<string>, defaults: BlogService.Defaults)
    requires ValidLimit(limit) && ValidOffset(offset)
    ensures ParsedQuery(limit).None? || ParsedQuery(limit).value >= 0
    ensures ParsedQuery(offset).None? || ParsedQuery(offset).value >= 0
    ensures limit.Some? ==> ResolveOr(ParsedQuery(limit), defaults.limit) == IntStringValue(limit.value)
    ensures limit.None? ==> ResolveOr(ParsedQuery(limit), defaults.limit) == defaults.limit
    ensures ResolveOr(ParsedQuery(offset), defaults.offset) ==
              if offset.None? || IntStringValue(offset.value) == 0 then defaults.offset else IntStringValue(offset.value)
  {
    if limit.Some? {
      ParseIntOfIntString(limit.value);
    }
    if offset.Some? {
      ParseIntOfIntString(offset.value);
    }
  }

  lemma ParsedIsValue(q: Option<string>)
    requires q.Some? ==> IsIntString(q.value)
    ensures ParsedQuery(q) == QueryValue(q)
  {
    if q.Some? {
      ParseIntOfIntString(q.value);
    }
  }

  /** `getAllBlogs`: 200 with the page the service computes for the
      validated numbers. */
  function GetAllBlogs(users: seq<User>, rows: seq<Blog>, caller: UserId,
                       limit: Option<string>, offset: Option<string>, defaults: BlogService.Defaults): (r: Reply)
    requires BlogService.ValidDefaults(defaults) && ValidLimit(limit) && ValidOffset(offset)
    ensures r.status == OK && r.payload.BlogListBody?
    ensures forall b :: b in r.payload.list.blogs ==>
              b in rows && (BlogService.RestrictedReader(users, caller) ==> b.status == Published)
    ensures r.payload.list.limit == if limit.None? then defaults.limit else IntStringValue(limit.value)
    ensures r.payload.list.offset ==
              if offset.None? || IntStringValue(offset.value) == 0 then defaults.offset else IntStringValue(offset.value)
    ensures r.payload.list == BlogService.GetAllBlogs(users, rows, caller, QueryValue(limit), QueryValue(offset), defaults)
  {
    ResolvedQueries(limit, offset, defaults);
    ParsedIsValue(limit);
    ParsedIsValue(offset);
    Reply(OK, BlogListBody(BlogService.GetAllBlogs(users, rows, caller, ParsedQuery(limit), ParsedQuery(offset), defaults)))
  }

  /** `getBlogsByUser`: 200 with the target's page, as the service computes it. */
  function GetBlogsByUser(users: seq<User>, rows: seq<Blog>, caller: UserId, target: UserId,
                          limit: Option<string>, offset: Option<string>, defaults: BlogService.Defaults): (r: Reply)
    requires BlogService.ValidDefaults(defaults) && ValidLimit(limit) && ValidOffset(offset)
    ensures r.status == OK && r.payload.BlogListBody?
    ensures forall b :: b in r.payload.list.blogs ==>
              b in rows && b.author == target && (BlogService.RestrictedReader(users, caller) ==> b.status == Published)
    ensures r.payload.list.limit == if limit.None? then defaults.limit else IntStringValue(limit.value)
    ensures r.payload.list.offset ==
              if offset.None? || IntStringValue(offset.value) == 0 then defaults.offset else IntStringValue(offset.value)
    ensures r.payload.list ==
              BlogService.GetBlogsByUser(users, rows, caller, target, QueryValue(limit), QueryValue(offset), defaults)
  {
    ResolvedQueries(limit, offset, defaults);
    ParsedIsValue(limit);
    ParsedIsValue(offset);
    Reply(OK, BlogListBody(BlogService.GetBlogsByUser(users, rows, caller, target, ParsedQuery(limit), ParsedQuery(offset), defaults)))
  }

  /** `getBlogBySlug`: 404, then 403 for a plain user reading a draft, else 200. */
  function GetBlogBySlug(users: seq<User>, rows: seq<Blog>, caller: UserId, slug: string): (r: Reply)
    ensures BlogTable.FindBySlug(rows, slug).None? ==> r == ErrorReply(NOT_FOUND, "NotFound", "Blog not found")
    ensures BlogTable.FindBySlug(rows, slug).Some? ==>
              var b := BlogTable.FindBySlug(rows, slug).value;
              if BlogService.RestrictedReader(users, caller) && b.status == Draft then
                r == ErrorReply(FORBIDDEN, "AuthorizationError", "Access denied, insufficient permissions")
              else r == Reply(OK, BlogBody(b))
  {
    match BlogService.GetBlogBySlug(users, rows, caller, slug)
    case Ok(b) => Reply(OK, BlogBody(b))
    case Err(e) => RefusalReply(e)
  }

  /** `createBlog`: 201 with the new blog, authored by the caller. */
  method CreateBlog(blogs: BlogTable.Blogs, res: Response, caller: UserId, data: BlogService.BlogData,
                    sanitize: string -> string, newId: BlogId, slug: string)
    modifies blogs, res
    ensures var b := BlogService.NewBlog(caller, data, sanitize, newId, slug);
            blogs.rows == old(blogs.rows) + [b] && res.reply == Some(Reply(CREATED, BlogBody(b)))
    ensures res.cookie == old(res.cookie)
  {
    var b := BlogService.CreateBlog(blogs, caller, data, sanitize, newId, slug);
    res.Send(Reply(CREATED, BlogBody(b)));
  }

  /** `deleteBlog`: the access check, then the banner destroy whatever its
      public id, then the removal and 204. A failed destroy is answered 500
      and the blog stays. */
  method DeleteBlog(users: seq<User>, blogs: BlogTable.Blogs, res: Response, caller: UserId, blogId: BlogId,
                    destroyFault: Option<Failure>) returns (destroyed: Option<string>)
    modifies blogs, res
    ensures var a := BlogService.Access(users, old(blogs.rows), caller, blogId);
            && (a.Err? ==> destroyed.None? && blogs.rows == old(blogs.rows) && res.reply == Some(RefusalReply(a.error)))
            && (a.Ok? ==> destroyed == Some(a.value.banner.publicId))
            && (a.Ok? && destroyFault.Some? ==>
                  blogs.rows == old(blogs.rows) && res.reply == Some(ServerErrorReply(ServerMessage, destroyFault.value)))
            && (a.Ok? && destroyFault.None? ==>
                  blogs.rows == BlogTable.RemoveById(old(blogs.rows), blogId) && res.reply == Some(Reply(NO_CONTENT, NoBody)))
    ensures res.cookie == old(res.cookie)
  {
    var a := BlogService.Access(users, blogs.rows, caller, blogId);
    if a.Err? {
      res.Send(RefusalReply(a.error));
      return None;
    }
    destroyed := Some(a.value.banner.publicId);
    if destroyFault.Some? {
      res.Send(ServerErrorReply(ServerMessage, destroyFault.value));
      return;
    }
    blogs.DeleteOne(blogId);
    res.Send(Reply(NO_CONTENT, NoBody));
  }

  /** `updateBlog`: the access check, then the truthy fields, then 200 with the saved blog. */
  method UpdateBlog(users: seq<User>, blogs: BlogTable.Blogs, res: Response, caller: UserId, blogId: BlogId,
                    patch: BlogService.BlogPatch, sanitize: string -> string)
    modifies blogs, res
    ensures var a := BlogService.Access(users, old(blogs.rows), caller, blogId);
            && (a.Err? ==> blogs.rows == old(blogs.rows) && res.reply == Some(RefusalReply(a.error)))
            && (a.Ok? ==>
                  var b := BlogService.ApplyPatch(a.value, patch, sanitize);
                  blogs.rows == BlogTable.ReplaceById(old(blogs.rows), b) && res.reply == Some(Reply(OK, BlogBody(b))))
    ensures res.cookie == old(res.cookie)
  {
    var r := BlogService.UpdateBlog(users, blogs, caller, blogId, patch, sanitize);
    match r
    case Ok(b) => res.Send(Reply(OK, BlogBody(b)));
    case Err(e) => res.Send(RefusalReply(e));
  }
}
