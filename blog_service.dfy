/** The blog service (src/services/blog.service.ts): access rules over the
    Blog collection, with the caller's role read from the User collection.

    Reads are functions of the two tables. Create, delete and update are
    methods on the Blog collection; the access decision they share is a
    function. DOMPurify's `sanitize` is a function parameter, and the
    Cloudinary `destroy` call is reported as the public id it was asked to
    destroy, with its failure, if any, as a parameter. */
module BlogService {
  import opened Types
  import opened Seqs
  import UserTable
  import BlogTable

  const BlogNotFound := AppError(BlogErrorClass, "Blog not found", NOT_FOUND, "NotFound")
  const BlogForbidden :=
    AppError(BlogErrorClass, "Access denied, insufficient permissions", FORBIDDEN, "AuthorizationError")

  /** `user?.role === "user"`: only a caller present with the plain role is
      restricted; an admin or a caller missing from the table is not. */
  predicate RestrictedReader(users: seq<User>, caller: UserId) {
    UserTable.RoleOf(users, caller) == Some(Role.User)
  }

  /** `user?.role === "admin"`. */
  predicate IsAdmin(users: seq<User>, caller: UserId) {
    UserTable.RoleOf(users, caller) == Some(Admin)
  }

  /** The status filter of the list queries. */
  function VisibleTo(restricted: bool): Blog -> bool {
    (b: Blog) => !restricted || b.status == Published
  }

  /** `DEFAULT_RES_LIMIT` and `DEFAULT_RES_OFFSET`, whose values are not part of this model. */
  datatype Defaults = Defaults(limit: int, offset: int)

  predicate ValidDefaults(d: Defaults) {
    d.limit >= 1 && d.offset >= 0
  }

  /** `blogs` is what `sort({createdAt: -1}).skip(offset).limit(limit)`
      leaves of `matching`: newest first, `offset` skipped, at most `limit`. */
  predicate NewestFirstWindow(blogs: seq<Blog>, matching: seq<Blog>, limit: int, offset: int) {
    && offset >= 0
    && |blogs| == (if offset >= |matching| then 0
                   else if |matching| - offset < limit then |matching| - offset else limit)
    && forall i :: 0 <= i < |blogs| ==> blogs[i] == matching[|matching| - 1 - (offset + i)]
  }

  /** `find(query).sort({createdAt: -1}).skip(offset).limit(limit)` with
      `countDocuments(query)`, `matching` being the documents the query
      selects in creation order. */
  function Page(matching: seq<Blog>, limit: int, offset: int): (r: BlogList)
    requires limit >= 1 && offset >= 0
    ensures r.limit == limit && r.offset == offset && r.total == |matching|
    ensures |r.blogs| == if offset >= |matching| then 0
                         else if |matching| - offset < limit then |matching| - offset else limit
    ensures forall i :: 0 <= i < |r.blogs| ==> r.blogs[i] == matching[|matching| - 1 - (offset + i)]
    ensures forall b :: b in r.blogs ==> b in matching
    ensures NewestFirstWindow(r.blogs, matching, limit, offset)
  {
    BlogList(limit, offset, |matching|, Window(Reverse(matching), offset, limit))
  }

  /** Two consecutive pages of one size are the page of twice that size:
      paging neither skips nor repeats a blog. */
  lemma PagesAreContiguous(matching: seq<Blog>, limit: int, offset: int)
    requires limit >= 1 && offset >= 0
    requires offset + limit <= |matching|
    ensures Page(matching, limit, offset).blogs + Page(matching, limit, offset + limit).blogs ==
              Page(matching, 2 * limit, offset).blogs
  {
    var a := Page(matching, limit, offset).blogs;
    var b := Page(matching, limit, offset + limit).blogs;
    var c := Page(matching, 2 * limit, offset).blogs;
    assert |a + b| == |c|;
    forall i | 0 <= i < |c| ensures (a + b)[i] == c[i] {
      if i >= |a| {
        assert (a + b)[i] == b[i - limit];
      }
    }
  }

  /** `getAllBlogs`. */
  function GetAllBlogs(users: seq<User>, rows: seq<Blog>, caller: UserId,
                       limit: Option<int>, offset: Option<int>, defaults: Defaults): (r: BlogList)
    requires ValidDefaults(defaults)
    requires limit.None? || limit.value >= 0
    requires offset.None? || offset.value >= 0
    ensures r.limit == (if limit.None? || limit.value == 0 then defaults.limit else limit.value)
    ensures r.offset == (if offset.None? || offset.value == 0 then defaults.offset else offset.value)
    ensures forall b :: b in r.blogs ==> b in rows && (RestrictedReader(users, caller) ==> b.status == Published)
    ensures r.total == |Filter(rows, VisibleTo(RestrictedReader(users, caller)))|
    ensures NewestFirstWindow(r.blogs, Filter(rows, VisibleTo(RestrictedReader(users, caller))), r.limit, r.offset)
    ensures !RestrictedReader(users, caller) ==>
              r.total == |rows| && NewestFirstWindow(r.blogs, rows, r.limit, r.offset)
  {
    var restricted := RestrictedReader(users, caller);
    var matching := Filter(rows, VisibleTo(restricted));
    assert !restricted ==> matching == rows by {
      if !restricted {
        assert forall b :: b in rows ==> VisibleTo(restricted)(b);
      }
    }
    var l, o := ResolveOr(limit, defaults.limit), ResolveOr(offset, defaults.offset);
    var page := Page(matching, l, o);
    assert page.offset == o && page.limit == l;
    page
  }

  /** Every published blog is counted for every reader; a plain user sees
      no more than an admin. */
  lemma RestrictionOnlyHides(users: seq<User>, rows: seq<Blog>, caller: UserId, other: UserId,
                             limit: Option<int>, offset: Option<int>, defaults: Defaults)
    requires ValidDefaults(defaults)
    requires limit.None? || limit.value >= 0
    requires offset.None? || offset.value >= 0
    requires RestrictedReader(users, caller) && IsAdmin(users, other)
    ensures GetAllBlogs(users, rows, caller, limit, offset, defaults).total <=
              GetAllBlogs(users, rows, other, limit, offset, defaults).total
  {
  }

  /** The query `{author: target, ...query}` of `getBlogsByUser`. */
  function AuthoredVisible(target: UserId, restricted: bool): Blog -> bool {
    (b: Blog) => b.author == target && (!restricted || b.status == Published)
  }

  /** `getBlogsByUser`: the target's blogs, with the same status filter. */
  function GetBlogsByUser(users: seq<User>, rows: seq<Blog>, caller: UserId, target: UserId,
                          limit: Option<int>, offset: Option<int>, defaults: Defaults): (r: BlogList)
    requires ValidDefaults(defaults)
    requires limit.None? || limit.value >= 0
    requires offset.None? || offset.value >= 0
    ensures r.limit == (if limit.None? || limit.value == 0 then defaults.limit else limit.value)
    ensures r.offset == (if offset.None? || offset.value == 0 then defaults.offset else offset.value)
    ensures forall b :: b in r.blogs ==>
              b in rows && b.author == target && (RestrictedReader(users, caller) ==> b.status == Published)
    ensures r.total == |Filter(rows, AuthoredVisible(target, RestrictedReader(users, caller)))|
    ensures NewestFirstWindow(r.blogs, Filter(rows, AuthoredVisible(target, RestrictedReader(users, caller))),
                              r.limit, r.offset)
  {
    var matching := Filter(rows, AuthoredVisible(target, RestrictedReader(users, caller)));
    var l, o := ResolveOr(limit, defaults.limit), ResolveOr(offset, defaults.offset);
    Page(matching, l, o)
  }

  /** `getBlogBySlug`: the not-found test comes first; a plain user may not
      read a draft, anyone else may. */
  function GetBlogBySlug(users: seq<User>, rows: seq<Blog>, caller: UserId, slug: string): (r: Result<Blog>)
    ensures BlogTable.FindBySlug(rows, slug).None? ==> r == Err(BlogNotFound)
    ensures BlogTable.FindBySlug(rows, slug).Some? ==>
              var b := BlogTable.FindBySlug(rows, slug).value;
              if RestrictedReader(users, caller) && b.status == Draft then r == Err(BlogForbidden)
              else r == Ok(b)
    ensures r.Ok? ==> r.value.slug == slug && r.value in rows
  {
    match BlogTable.FindBySlug(rows, slug)
    case None => Err(BlogNotFound)
    case Some(b) =>
      if RestrictedReader(users, caller) && b.status == Draft then Err(BlogForbidden) else Ok(b)
  }

  // ---------------------------------------------------------------------------
  // Changing blogs

  /** The negation of the refusal test `blog.author !== userId && user?.role !== "admin"`. */
  predicate MayModify(users: seq<User>, b: Blog, caller: UserId) {
    b.author == caller || IsAdmin(users, caller)
  }

  /** The check delete and update share: the blog must exist, then the
      caller must be its author or an admin. */
  function Access(users: seq<User>, rows: seq<Blog>, caller: UserId, blogId: BlogId): (r: Result<Blog>)
    ensures BlogTable.FindById(rows, blogId).None? ==> r == Err(BlogNotFound)
    ensures r == Err(BlogForbidden) ==> BlogTable.FindById(rows, blogId).Some?
    ensures r.Ok? <==> BlogTable.FindById(rows, blogId).Some?
                       && MayModify(users, BlogTable.FindById(rows, blogId).value, caller)
    ensures r.Ok? ==> r.value == BlogTable.FindById(rows, blogId).value
    ensures r.Err? ==> r.error == BlogNotFound || r.error == BlogForbidden
  {
    match BlogTable.FindById(rows, blogId)
    case None => Err(BlogNotFound)
    case Some(b) => if MayModify(users, b, caller) then Ok(b) else Err(BlogForbidden)
  }

  /** `Partial<TBlogData>`: the fields of an update, each optional. */
  datatype BlogPatch = BlogPatch(title: Option<string>, content: Option<string>,
                                 banner: Option<Banner>, status: Option<BlogStatus>)

  /** The assignments of `updateBlog`: a field is overwritten only by a
      truthy value (a non-empty string, a present banner or status); the
      content is sanitised first. */
  function ApplyPatch(b: Blog, p: BlogPatch, sanitize: string -> string): (r: Blog)
    ensures r.title == if Truthy(p.title) then p.title.value else b.title
    ensures r.content == if Truthy(p.content) then sanitize(p.content.value) else b.content
    ensures r.banner == p.banner.GetOr(b.banner)
    ensures r.status == p.status.GetOr(b.status)
    ensures r.id == b.id && r.slug == b.slug && r.author == b.author
    ensures r.viewsCount == b.viewsCount && r.likesCount == b.likesCount && r.commentsCount == b.commentsCount
  {
    var b1 := if Truthy(p.title) then b.(title := p.title.value) else b;
    var b2 := if Truthy(p.content) then b1.(content := sanitize(p.content.value)) else b1;
    var b3 := if p.banner.Some? then b2.(banner := p.banner.value) else b2;
    if p.status.Some? then b3.(status := p.status.value) else b3
  }

  /** An update with nothing truthy in it changes nothing; applying the same
      update twice is applying it once when sanitising is idempotent. */
  lemma ApplyPatchLaws(b: Blog, p: BlogPatch, sanitize: string -> string)
    ensures !Truthy(p.title) && !Truthy(p.content) && p.banner.None? && p.status.None? ==>
              ApplyPatch(b, p, sanitize) == b
    ensures (Truthy(p.content) ==> sanitize(sanitize(p.content.value)) == sanitize(p.content.value)) ==>
              ApplyPatch(ApplyPatch(b, p, sanitize), p, sanitize) == ApplyPatch(b, p, sanitize)
  {
  }

  /** `TBlogData` as `createBlog` receives it; an absent status takes the
      schema's default, draft. */
  datatype BlogData = BlogData(title: string, content: string, banner: Banner, status: Option<BlogStatus>)

  /** The document `Blog.create` stores. Its id and slug come from the
      database and the Blog schema. */
  function NewBlog(caller: UserId, data: BlogData, sanitize: string -> string, newId: BlogId, slug: string): (b: Blog)
    ensures b.author == caller && b.id == newId
    ensures b.content == sanitize(data.content) && b.title == data.title && b.banner == data.banner
    ensures b.status == Published <==> data.status == Some(Published)
    ensures b.viewsCount == 0 && b.likesCount == 0 && b.commentsCount == 0
  {
    Blog(newId, data.title, slug, sanitize(data.content), data.banner, caller, 0, 0, 0, data.status.GetOr(Draft))
  }

  /** `createBlog`: the caller becomes the author. */
  method CreateBlog(blogs: BlogTable.Blogs, caller: UserId, data: BlogData, sanitize: string -> string,
                    newId: BlogId, slug: string) returns (b: Blog)
    modifies blogs
    ensures b == NewBlog(caller, data, sanitize, newId, slug)
    ensures blogs.rows == old(blogs.rows) + [b]
  {
    b := NewBlog(caller, data, sanitize, newId, slug);
    blogs.Create(b);
  }

  /** `deleteBlog`. `destroyFault` is the failure of the banner destroy, if
      it fails; the blog then stays. */
  method DeleteBlog(users: seq<User>, blogs: BlogTable.Blogs, caller: UserId, blogId: BlogId,
                    destroyFault: Option<Failure>) returns (err: Option<Failure>, destroyed: Option<string>)
    modifies blogs
    ensures var a := Access(users, old(blogs.rows), caller, blogId);
            && (a.Err? ==> err == Some(a.error) && destroyed.None? && blogs.rows == old(blogs.rows))
            && (a.Ok? ==> destroyed == if a.value.banner.publicId != "" then Some(a.value.banner.publicId) else None)
            && (a.Ok? && (destroyed.None? || destroyFault.None?) ==>
                  err.None? && blogs.rows == BlogTable.RemoveById(old(blogs.rows), blogId))
            && (a.Ok? && destroyed.Some? && destroyFault.Some? ==> err == destroyFault && blogs.rows == old(blogs.rows))
  {
    var a := Access(users, blogs.rows, caller, blogId);
    if a.Err? {
      return Some(a.error), None;
    }
    destroyed := None;
    if a.value.banner.publicId != "" {
      destroyed := Some(a.value.banner.publicId);
      if destroyFault.Some? {
        return destroyFault, destroyed;
      }
    }
    blogs.DeleteOne(blogId);
    err := None;
  }

  /** `updateBlog`. */
  method UpdateBlog(users: seq<User>, blogs: BlogTable.Blogs, caller: UserId, blogId: BlogId,
                    patch: BlogPatch, sanitize: string -> string) returns (r: Result<Blog>)
    modifies blogs
    ensures var a := Access(users, old(blogs.rows), caller, blogId);
            && (a.Err? ==> r == Err(a.error) && blogs.rows == old(blogs.rows))
            && (a.Ok? ==> r == Ok(ApplyPatch(a.value, patch, sanitize))
                          && blogs.rows == BlogTable.ReplaceById(old(blogs.rows), r.value))
  {
    var a := Access(users, blogs.rows, caller, blogId);
    if a.Err? {
      return Err(a.error);
    }
    var updated := ApplyPatch(a.value, patch, sanitize);
    blogs.Save(updated);
    r := Ok(updated);
  }

  /** A permitted delete removes that blog alone: every other blog stays. */
  lemma DeleteTouchesOnlyTarget(users: seq<User>, rows: seq<Blog>, caller: UserId, blogId: BlogId, other: Blog)
    requires Access(users, rows, caller, blogId).Ok?
    requires other in rows && other.id != blogId
    ensures other in BlogTable.RemoveById(rows, blogId)
    ensures Access(users, rows, caller, blogId).value !in BlogTable.RemoveById(rows, blogId)
  {
  }
}
