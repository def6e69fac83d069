/** The user service (src/services/user.service.ts): lookups, the profile
    update, account deletion with its cascade to the user's blogs, and the
    user list. The Cloudinary `delete_resources` call is reported as the
    public ids it was given, with its failure, if any, as a parameter. */
module UserService {
  import opened Types
  import opened Seqs
  import UserTable
  import BlogTable

  const UserNotFound := AppError(UserErrorClass, "User not found", NOT_FOUND, "NotFound")
  const CleanupFailed := AppError(UserErrorClass, "Failed to cleanup user data", INTERNAL_SERVER_ERROR, "CleanupError")

  /** `getCurrentUser` and `getUser`: the same lookup. */
  function GetUser(users: seq<User>, id: UserId): (r: Result<User>)
    ensures r.Err? <==> (forall u :: u in users ==> u.id != id)
    ensures r.Err? ==> r.error == UserNotFound
    ensures r.Ok? ==> r.value in users && r.value.id == id
  {
    match UserTable.FindById(users, id)
    case None => Err(UserNotFound)
    case Some(u) => Ok(u)
  }

  /** `IUpdateUserData`: every field optional, the names as the client sends them. */
  datatype UserPatch = UserPatch(
    username: Option<string>, email: Option<string>, password: Option<string>,
    first_name: Option<string>, last_name: Option<string>,
    website: Option<string>, facebook: Option<string>, instagram: Option<string>,
    linkedin: Option<string>, x: Option<string>, youtube: Option<string>)

  /** A truthy new value replaces the old one; anything else keeps it. */
  function Overwrite(current: Option<string>, given: Option<string>): (r: Option<string>)
    ensures Truthy(given) ==> r == given
    ensures !Truthy(given) ==> r == current
  {
    if Truthy(given) then given else current
  }

  /** The assignments of `updateCurrentUser`. `first_name` and `last_name`
      land in `firstName` and `lastName`; missing social links become `{}`
      before the link fields are assigned. */
  function ApplyUserPatch(u: User, p: UserPatch): (r: User)
    ensures r.id == u.id && r.role == u.role
    ensures r.username == if Truthy(p.username) then p.username.value else u.username
    ensures r.email == if Truthy(p.email) then p.email.value else u.email
    ensures r.password == if Truthy(p.password) then p.password.value else u.password
    ensures r.firstName == if Truthy(p.first_name) then p.first_name else u.firstName
    ensures r.lastName == if Truthy(p.last_name) then p.last_name else u.lastName
    ensures r.socialLinks.Some?
    ensures var before := u.socialLinks.GetOr(NoLinks);
            var after := r.socialLinks.value;
            && after.website == (if Truthy(p.website) then p.website else before.website)
            && after.facebook == (if Truthy(p.facebook) then p.facebook else before.facebook)
            && after.instagram == (if Truthy(p.instagram) then p.instagram else before.instagram)
            && after.linkedin == (if Truthy(p.linkedin) then p.linkedin else before.linkedin)
            && after.x == (if Truthy(p.x) then p.x else before.x)
            && after.youtube == (if Truthy(p.youtube) then p.youtube else before.youtube)
  {
    var links := u.socialLinks.GetOr(NoLinks);
    var links' := SocialLinks(
      Overwrite(links.website, p.website), Overwrite(links.facebook, p.facebook),
      Overwrite(links.instagram, p.instagram), Overwrite(links.linkedin, p.linkedin),
      Overwrite(links.x, p.x), Overwrite(links.youtube, p.youtube));
    u.(username := Overwrite(Some(u.username), p.username).value,
       email := Overwrite(Some(u.email), p.email).value,
       password := Overwrite(Some(u.password), p.password).value,
       firstName := Overwrite(u.firstName, p.first_name),
       lastName := Overwrite(u.lastName, p.last_name),
       socialLinks := Some(links'))
  }

  const EmptyPatch := UserPatch(None, None, None, None, None, None, None, None, None, None, None)

  /** An update with nothing in it only gives a user without social links
      the empty `{}`; applying an update twice is applying it once. */
  lemma UserPatchLaws(u: User, p: UserPatch)
    ensures ApplyUserPatch(u, EmptyPatch) == u.(socialLinks := Some(u.socialLinks.GetOr(NoLinks)))
    ensures ApplyUserPatch(ApplyUserPatch(u, p), p) == ApplyUserPatch(u, p)
  {
  }

  /** `updateCurrentUser`: not found, or the assignments saved; the save is
      refused when another user already has the new email. */
  method UpdateCurrentUser(users: UserTable.Users, id: UserId, patch: UserPatch) returns (r: Result<User>)
    modifies users
    ensures UserTable.FindById(old(users.rows), id).None? ==> r == Err(UserNotFound) && users.rows == old(users.rows)
    ensures UserTable.FindById(old(users.rows), id).Some? ==>
              var u := ApplyUserPatch(UserTable.FindById(old(users.rows), id).value, patch);
              if exists v :: v in old(users.rows) && v.email == u.email && v.id != id then
                r == Err(DuplicateKey) && users.rows == old(users.rows)
              else
                r == Ok(u) && users.rows == UserTable.ReplaceById(old(users.rows), u)
  {
    var found := UserTable.FindById(users.rows, id);
    if found.None? {
      return Err(UserNotFound);
    }
    var u := ApplyUserPatch(found.value, patch);
    var err := users.Save(u);
    if err.Some? {
      return Err(err.value);
    }
    r := Ok(u);
  }

  // ---------------------------------------------------------------------------
  // Deletion

  /** `blogs.map(({banner}) => banner.publicId).filter(Boolean)` for the
      blogs the user authored: exactly their non-empty banner ids. */
  function BannerIds(rows: seq<Blog>, author: UserId): (r: seq<string>)
    ensures forall p :: p in r <==> p != "" && exists b :: b in rows && b.author == author && b.banner.publicId == p
  {
    if rows == [] then []
    else
      var rest := BannerIds(rows[1..], author);
      assert forall b :: b in rows <==> b == rows[0] || b in rows[1..];
      if rows[0].author == author && rows[0].banner.publicId != "" then [rows[0].banner.publicId] + rest
      else rest
  }

  /** `deleteCurrentUser` and `deleteUser`: the user must exist; then
      `cleanupUserData` deletes the banners of their blogs, their blogs and
      the user. A failing banner delete aborts the cleanup before anything is
      removed and is reported as `CleanupError`. The Token collection is not
      touched: the user's refresh tokens stay stored. */
  method DeleteUser(users: UserTable.Users, blogs: BlogTable.Blogs, id: UserId, deleteFault: Option<Failure>)
    returns (err: Option<Failure>, purged: seq<string>)
    modifies users, blogs
    ensures UserTable.FindById(old(users.rows), id).None? ==>
              err == Some(UserNotFound) && purged == [] && users.rows == old(users.rows) && blogs.rows == old(blogs.rows)
    ensures UserTable.FindById(old(users.rows), id).Some? ==>
              purged == BannerIds(old(blogs.rows), id)
              && if purged != [] && deleteFault.Some? then
                   err == Some(CleanupFailed) && users.rows == old(users.rows) && blogs.rows == old(blogs.rows)
                 else
                   err.None? && blogs.rows == BlogTable.RemoveByAuthor(old(blogs.rows), id)
                   && users.rows == UserTable.RemoveById(old(users.rows), id)
  {
    if UserTable.FindById(users.rows, id).None? {
      return Some(UserNotFound), [];
    }
    purged := BannerIds(blogs.rows, id);
    if purged != [] && deleteFault.Some? {
      return Some(CleanupFailed), purged;
    }
    blogs.DeleteMany(id);
    users.DeleteOne(id);
    err := None;
  }

  /** The cascade of a deletion reaches the user's own blogs and no one
      else's, and leaves no blog by the user behind. */
  lemma CascadeOnlyOwnBlogs(rows: seq<Blog>, id: UserId, b: Blog)
    requires b in rows
    ensures b in BlogTable.RemoveByAuthor(rows, id) <==> b.author != id
  {
  }

  /** `getAllUsers`: a page of the collection in its natural order. The
      limit comes from an unvalidated `parseInt`, so it may be negative;
      Mongo reads a negative limit `-n` as "one batch of at most `n`" and the
      reply still reports the negative value. */
  function GetAllUsers(users: seq<User>, limit: Option<int>, offset: Option<int>, defaultLimit: int,
                       defaultOffset: int): (r: UserList)
    requires defaultLimit >= 1 && defaultOffset >= 0
    requires offset.None? || offset.value >= 0
    ensures r.limit == (if limit.None? || limit.value == 0 then defaultLimit else limit.value)
    ensures r.offset == (if offset.None? || offset.value == 0 then defaultOffset else offset.value)
    ensures r.total == |users|
    ensures var n := if r.limit < 0 then -r.limit else r.limit;
            |r.users| == if r.offset >= |users| then 0
                         else if |users| - r.offset < n then |users| - r.offset else n
    ensures forall i :: 0 <= i < |r.users| ==> r.offset + i < |users| && r.users[i] == users[r.offset + i]
  {
    var l := ResolveOr(limit, defaultLimit);
    var o := ResolveOr(offset, defaultOffset);
    UserList(l, o, |users|, Window(users, o, if l < 0 then -l else l))
  }
}
