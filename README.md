# Blog-Api: a Dafny model of its sessions, gates, access rules and validators

This project models the decision logic of an Express/Mongoose blog API:

- The refresh-token session store and the authentication flows built on it: register, login, logout and refresh. It covers the service, the class-based controller and the two older handlers.
- The request gates:
  - Bearer authentication;
  - role authorization, which re-reads the role on every request;
  - the banner-upload pre-checks.
- The blog and user services over in-memory tables:
  - not-found before permission;
  - restricted readers see only published blogs;
  - pagination with falsy-value defaults;
  - truthy-only partial updates;
  - the deletion cascade to the user's blogs.
- The older blog controller.
- The error-to-response classifiers.
- Username and slug generation.
- The express-validator rule sets.

**How the model is built.**

- Collections are sequences in insertion order:
  - the User, Blog and Token tables are classes with these fields (`UserTable.Users`, `BlogTable.Blogs`, `SessionStore.TokenStore`);
  - "first match" is Mongo's `findOne`/`deleteOne`;
  - the Token table may hold the same token twice, since nothing makes it unique.
- Each state-changing service operation is a method proved equal to a pure step function (`AuthService.LoginStep`, `RegisterStep`, `LogoutStep`, `RefreshStep`). The lemmas about the flows are stated over these functions.
- A handler's effect on the HTTP response is a `Http.Response` object: the reply it sends and what it does to the refresh-token cookie.
- Parameters replace whatever the code gets from outside:
  - JWT verification: a function from a token to `Valid(userId) | Expired | Malformed | Other(err)`;
  - token signing, the random suffix of usernames and slugs, and new document ids;
  - DOMPurify's `sanitize`;
  - e-mail, JWT and ObjectId format checks, and bcrypt comparison;
  - Cloudinary's upload result and its `destroy`/`delete_resources` faults;
  - `NODE_ENV` and the admin whitelist;
  - the configuration constants `DEFAULT_RES_LIMIT`, `DEFAULT_RES_OFFSET` and `MAX_FILE_SIZE`.

**Four behaviours of the code a reader might not expect; the model follows the code:**

- Deleting an account leaves its refresh tokens stored.
- A refresh does not rotate the refresh token, so the same token stays usable.
- The older handlers put the thrown value in every 500 body, whatever the environment.
- The shared `handleError` answers user and blog errors with 500 (see `ErrorMapping.OtherAppErrorsAnsweredAs500`).

## Model

| member | source | states |
|---|---|---|
| SessionStore.TokenStore.Create | src/services/auth.service.ts:49 | `Token.create` appends exactly one `{token, userId}` record |
| SessionStore.TokenStore.Exists | src/services/auth.service.ts:157 | `Token.exists` is true iff some record holds the token |
| SessionStore.TokenStore.DeleteOne | src/services/auth.service.ts:135 | `Token.deleteOne` removes the first record with the token, or nothing |
| SessionStore.FirstIndex | src/services/auth.service.ts:135 | the position of the first record holding the token |
| SessionStore.RemoveFirstStored | src/services/auth.service.ts:135 | `deleteOne` on a stored token drops its first record and keeps the rest, in order |
| SessionStore.RemoveFirstUnstored | src/services/auth.service.ts:135 | `deleteOne` on a token that is not stored changes nothing |
| SessionStore.StoredIffCount | src/services/auth.service.ts:157 | a token is stored iff it occurs at least once |
| SessionStore.CountRemoveFirst | src/services/auth.service.ts:135 | deleteOne lowers that token's count by one, if it was stored, and leaves every other count unchanged |
| SessionStore.RemoveFirstSubset | src/services/auth.service.ts:135 | deleteOne only removes records |
| SessionStore.RemoveFirstLength | src/services/auth.service.ts:135 | deleteOne shrinks the store by one exactly when the token is stored |
| SessionStore.CountAppend | src/services/auth.service.ts:49 | an appended record adds one to its own token's count and to no other |
| SessionStore.CountConcat | src/services/auth.service.ts:49 | counts add up over concatenated stores |
| UserTable.FindByEmail | src/services/auth.service.ts:33 | `User.findOne({email})` returns the first user with the email, or none when no user has it |
| UserTable.FindByEmailAppend | src/services/auth.service.ts:94 | after a user with a new email is appended, looking the email up finds that user |
| UserTable.FindById | src/services/user.service.ts:19 | `findById` returns the first user with the id, or none when no user has it |
| UserTable.RoleOf | src/middlewares/authorize.ts:12 | the role lookup is the found user's role |
| UserTable.ReplaceById | src/services/user.service.ts:77 | `save` puts the new document in its id's place, and only there |
| UserTable.FindByIdReplace | src/services/user.service.ts:77 | after a save, the id finds the saved version |
| UserTable.FindByIdReplaceOther | src/services/user.service.ts:77 | a save leaves the lookup of every other id unchanged |
| UserTable.RemoveById | src/services/user.service.ts:181 | `deleteOne({_id})` leaves the table filtered to the users with another id: every other user stays, in order, and none with that id is left |
| UserTable.Users.Create | src/services/auth.service.ts:94-99 | `User.create` appends the user, or fails with the duplicate-key error and changes nothing when the email is taken |
| UserTable.Users.Save | src/services/user.service.ts:77 | `save` writes the document back, or fails with duplicate key when another user has the email |
| UserTable.Users.DeleteOne | src/services/user.service.ts:181 | removes the user with that id |
| BlogTable.FindById | src/services/blog.service.ts:49-52 | `Blog.findById` returns the first blog with the id, or none when no blog has it |
| BlogTable.FindBySlug | src/services/blog.service.ts:177-181 | `Blog.findOne({slug})` returns the first blog with the slug, or none when no blog has it |
| BlogTable.ReplaceById | src/services/blog.service.ts:125 | saving a blog replaces its row only |
| BlogTable.FindByIdReplace | src/services/blog.service.ts:125 | after a save, the blog's id finds the saved version |
| BlogTable.FindByIdReplaceOther | src/services/blog.service.ts:125 | a save leaves the lookup of every other blog id unchanged |
| BlogTable.RemoveById | src/services/blog.service.ts:82 | `deleteOne({_id})` leaves the table filtered to the blogs with another id: the others stay, in order |
| BlogTable.RemoveByAuthor | src/services/user.service.ts:175 | `deleteMany({author})` leaves the table filtered to the blogs by other authors, in order |
| BlogTable.Blogs.Create | src/services/blog.service.ts:32-38 | appends the new blog |
| BlogTable.Blogs.Save | src/services/blog.service.ts:125 | replaces the blog's row |
| BlogTable.Blogs.DeleteOne | src/services/blog.service.ts:82 | removes the blog |
| BlogTable.Blogs.DeleteMany | src/services/user.service.ts:175 | removes every blog by the author |
| AuthService.NewUser | src/services/auth.service.ts:93-99 | the created user has the new id, the given email and password, a `user-` username, and the admin role only if it was asked for |
| AuthService.LoginStep | src/services/auth.service.ts:31-68 | an unknown email fails with 404 NotFound and leaves the store unchanged. Otherwise, for the first user with that email, exactly one record `{refreshToken, user id}` is appended, and the response carries only username, email and role |
| AuthService.RegisterStep | src/services/auth.service.ts:77-127 | a non-whitelisted admin gets 403 with the user and token tables unchanged (the gate comes first). A taken email fails with the duplicate-key error and creates nothing. Otherwise there is one new user and one new record holding the returned refresh token |
| AuthService.LogoutStep | src/services/auth.service.ts:130-144 | an empty token changes nothing. Otherwise at most one record is removed, and one exactly when the token is stored. Logout never fails |
| AuthService.RefreshStep | src/services/auth.service.ts:146-196 | an empty token gives 401 "required" and an unstored one 401 "invalid", both before any verification. Expired deletes the record and gives 401; Malformed gives 401 and keeps it; any other error is passed on. Valid returns only an access token for the payload's user. Only Expired changes the store |
| AuthService.LogoutRevokesOne | src/services/auth.service.ts:134-135 | logout lowers that token's count by exactly one when it is stored, and leaves every other token's count unchanged |
| AuthService.LogoutIdempotent | src/services/auth.service.ts:130-144 | with at most one copy stored, a second logout is a no-op and the token is gone |
| AuthService.RefreshAfterLogoutFails | src/services/auth.service.ts:157-165 | with at most one stored copy of the token, after logout the same refresh token is refused with 401 "Invalid refresh token!" and nothing changes |
| AuthService.ExpiredRefreshCleansUp | src/services/auth.service.ts:176-183 | with a single stored copy, an expired token fails with 401 "expired" and is refused as invalid afterwards, since it is no longer stored |
| AuthService.RefreshReusable | src/services/auth.service.ts:167-174 | a successful refresh leaves the store as it was, so the token stays usable |
| AuthService.LoginKeepsSessions | src/services/auth.service.ts:46-49 | a login keeps every existing record (several per user allowed) and adds its own |
| AuthService.SessionLifecycle | src/services/auth.service.ts:71-196 | register, log in again, refresh with the first refresh token, log out with it, refresh with it again. Both sign-ins succeed and the store gains exactly their two records. The refresh succeeds and changes nothing, and after the logout the same token is refused with 401 "Invalid refresh token!" |
| AuthService.Login | src/services/auth.service.ts:25-69 | the method leaves the store and returns the result that LoginStep specifies |
| AuthService.Register | src/services/auth.service.ts:71-128 | the method leaves the tables and returns the result that RegisterStep specifies |
| AuthService.Logout | src/services/auth.service.ts:130-144 | the method leaves the store that LogoutStep specifies |
| AuthService.Refresh | src/services/auth.service.ts:146-196 | the method leaves the store and returns the result that RefreshStep specifies |
| AuthController.HandleError | src/controllers/auth.controller.ts:89-127 | an AuthError gets its own status and code. A ValidationError gets 400 with the error attached, and a duplicate key 409 ConflictError. Anything else gets 500 ServerError, with detail only in development. There is no CastError branch |
| AuthController.AgreesWithSharedHandlerExceptCastError | src/controllers/auth.controller.ts:89-127 | the controller's handler and the shared one agree exactly on the errors that are not CastErrors |
| AuthController.RefreshFailuresClearCookie | src/controllers/auth.controller.ts:64-69 | every refresh failure clears the cookie and is answered 401, except a passed-on verification error |
| AuthController.Login | src/controllers/auth.controller.ts:13-26 | on success, the cookie is set to the service's refresh token with the cookie options, and the reply is 200 with the auth response. On failure, the reply is the handled error and the cookie is unchanged |
| AuthController.Register | src/controllers/auth.controller.ts:28-41 | as for login, over RegisterStep |
| AuthController.Logout | src/controllers/auth.controller.ts:43-55 | the store is as LogoutStep says, the cookie is cleared and the reply is 204 |
| AuthController.Refresh | src/controllers/auth.controller.ts:57-70 | success answers 200 with the access token and leaves the cookie alone. A failure clears the cookie iff the error is an AuthError coded AuthenticationError |
| Http.RefreshCookieOptions | src/controllers/auth.controller.ts:72-87 | the refresh cookie is httpOnly and sameSite strict, and secure iff `NODE_ENV` is "production" |
| Http.Response.Send | src/controllers/auth.controller.ts:22 | sending records the reply and leaves the cookie alone |
| Http.Response.SetRefreshCookie | src/controllers/auth.controller.ts:72-79 | sets the cookie and leaves the reply alone |
| Http.Response.ClearRefreshCookie | src/controllers/auth.controller.ts:81-87 | clears the cookie and leaves the reply alone |
| LegacyAuth.RegisterReply | src/controllers/auth/Register.controller.ts:13-71 | 201 with the public view on success, 403 from the gate, and 500 carrying the thrown value for anything else |
| LegacyAuth.DuplicateEmailReplies | src/controllers/auth/Register.controller.ts:63-70 | a duplicate email creates nothing; the older handler answers it 500 where the current controller answers 409 |
| LegacyAuth.Register | src/controllers/auth/Register.controller.ts:10-72 | the tables are as RegisterStep says. The cookie holds the new refresh token only on success, and the reply is RegisterReply |
| LegacyAuth.LoginReply | src/controllers/auth/Login.controller.ts:19-49 | 201 with username, email and role on success (never the password); 404 "User not found" otherwise |
| LegacyAuth.Login | src/controllers/auth/Login.controller.ts:10-61 | a lookup exception gives 500 and nothing stored. Otherwise the store follows LoginStep, the cookie is set only on success and the reply is LoginReply |
| ErrorMapping.HandleError | src/utils/index.ts:7-54 | checks its branches in order: an auth error keeps its own status and code; ValidationError → 400; CastError → 400 InvalidId; duplicate key → 409 ConflictError; anything else → 500 |
| ErrorMapping.UnexpectedErrorReply | src/utils/index.ts:47-51 | 500 ServerError carrying the error iff `NODE_ENV` is "development" |
| ErrorMapping.DetailOnlyInDevelopment | src/utils/index.ts:47-51 | outside development no 500 reply carries the error |
| ErrorMapping.NonAppErrorStatuses | src/utils/error.ts:16-51 | an error that is not an application error is answered 400, 409 or 500 only |
| ErrorMapping.OtherAppErrorsAnsweredAs500 | src/utils/error.ts:8-14 | user and blog errors, which are not auth errors, are answered 500, whatever their own status |
| Generate.GenerateUsername | src/utils/index.ts:56-63 | "user-" followed by the suffix; URL-safe when the suffix is base 36 |
| Generate.SlugBase | src/utils/index.ts:66-71 | the title part as written: no whitespace, no doubled hyphen, no upper case |
| Generate.GenerateSlug | src/utils/index.ts:65-77 | a base with those properties, then "-", then the suffix |
| Generate.SlugBaseKeepsAlnum | src/utils/index.ts:66-71 | the title part holds exactly the letters and digits of the lower-cased title, in order |
| Generate.GenerateSlugKeepsAlnum | src/utils/index.ts:65-77 | the letters and digits of a slug are those of the lower-cased title followed by those of the suffix |
| Generate.SlugOfWords | src/utils/index.ts:66-71 | a title of lower-case words separated by single spaces becomes the words joined by "-", with either first regex |
| Generate.GenerateSlugOfWords | src/utils/index.ts:65-77 | the slug of such a title is the words joined by "-", a "-" and the suffix, as written and as intended |
| Generate.HyphenateWords | src/utils/index.ts:70 | words separated by single spaces come out of the whitespace replace joined by hyphens |
| Generate.CollapseJoinedWords | src/utils/index.ts:71 | words joined by single hyphens come out of the hyphen replace unchanged |
| Generate.WordsTitleUnchanged | src/utils/index.ts:67-69 | lower-casing, trimming and either first regex leave such a title as it is |
| Generate.SlugAsWrittenKeepsPunctuation | src/utils/index.ts:69 | "A&B" gives "a&b-x": punctuation survives, so the slug is not URL-safe |
| Generate.SlugBaseIntended | src/utils/index.ts:66-71 | with the class `[^a-z0-9\s-]`, the title part is URL-safe and has no doubled hyphen |
| Generate.GenerateSlugIntended | src/utils/index.ts:65-77 | the intended slug is a safe base, then "-", then the suffix |
| Generate.SlugBaseIntendedKeepsAlnum | src/utils/index.ts:66-71 | with the intended class, too, the title part holds exactly the letters and digits of the lower-cased title, in order |
| Generate.IntendedSlugIsSafe | src/utils/index.ts:65-77 | every intended slug with a base-36 suffix is lower-case letters, digits and hyphens only |
| Text.ToLower | src/utils/index.ts:67 | each character is lower-cased in place: the length is kept and no upper-case letter is left |
| Text.Trim | src/utils/index.ts:68 | the result is the input with a whitespace-only prefix and a whitespace-only suffix cut off, and has no whitespace at either end |
| Text.TrimUnpadded | src/utils/index.ts:68 | a string that neither starts nor ends with whitespace is its own trim |
| Text.TrimKeepsAlnum | src/utils/index.ts:68 | trimming removes no letter or digit |
| Text.ToLowerNoUpper | src/utils/index.ts:67 | lower-casing a string without upper-case letters changes nothing |
| Text.SpacesToHyphen | src/utils/index.ts:70 | no whitespace is left, and only hyphens are added |
| Text.SpacesToHyphenNoSpace | src/utils/index.ts:70 | without whitespace the replace changes nothing |
| Text.SpacesToHyphenRun | src/utils/index.ts:70 | before the first whitespace run everything is kept, the whole run becomes one hyphen, and the replace goes on after it |
| Text.SpacesToHyphenKeepsAlnum | src/utils/index.ts:70 | the letters and digits are kept, in order |
| Text.CollapseHyphens | src/utils/index.ts:71 | no `--` is left, no character is added, and a leading hyphen stays only if the input had one |
| Text.CollapseHyphensNoDouble | src/utils/index.ts:71 | without a `--` the replace changes nothing |
| Text.CollapseHyphensRun | src/utils/index.ts:71 | before the first hyphen run everything is kept, the whole run becomes one hyphen, and the replace goes on after it |
| Text.CollapseHyphensKeepsAlnum | src/utils/index.ts:71 | the letters and digits are kept, in order |
| Text.StripAsWritten | src/utils/index.ts:69 | the first replace as written adds no character |
| Text.StripAsWrittenNoMatch | src/utils/index.ts:69 | where nothing matches `[^a-z0-9]\s-` the replace returns its input |
| Text.StripAsWrittenFirstMatch | src/utils/index.ts:69 | the leftmost match is removed, everything before it stays, and the replace goes on after it |
| Text.StripAsWrittenKeepsAlnum | src/utils/index.ts:69 | the letters and digits are kept, in order |
| Text.StripIntended | src/utils/index.ts:69 | a character is in the result exactly when it is in the input and is a lower-case letter, digit, whitespace or hyphen |
| Text.StripIntendedIsFilter | src/utils/index.ts:69 | the intended replace is the in-order filter of lower-case letters, digits, whitespace and hyphens |
| Text.StripIntendedKeepsAlnum | src/utils/index.ts:69 | the letters and digits are kept, in order |
| Text.AlnumIsFilter | src/utils/index.ts:66-71 | the letters and digits of a string are its in-order filter by `[a-z0-9]` |
| Text.UntilSpace | src/middlewares/Authenticate.middleware.ts:21 | the prefix up to the first space, or the whole string without one |
| Text.SecondField | src/middlewares/Authenticate.middleware.ts:21 | `split(" ")[1]`: what follows the first space, up to the next space |
| Text.ParseIntOfIntString | src/controllers/blog.controller.ts:172-173 | `parseInt` reads a string that `isInt` accepted as the number it denotes |
| Text.ReplaceFirst | src/middlewares/uploadBlogBanner.ts:38 | a string `replace` removes the first occurrence only, or returns the input unchanged |
| Authenticate.BearerToken | src/middlewares/Authenticate.middleware.ts:21 | the token is the text after "Bearer " up to the next space |
| Authenticate.Decide | src/middlewares/Authenticate.middleware.ts:10-54 | a missing or non-Bearer header gives 401 "no token provided". Valid → next with that user; Expired → 401 "expired" (checked first); Malformed → 401 "invalid"; any other verify error → 500 |
| Authenticate.RefusalsAre401 | src/middlewares/Authenticate.middleware.ts:13-52 | next iff a Bearer header carries a valid token. Every refusal is 401 except a foreign verify error |
| Authenticate.BareTokenRefused | src/middlewares/Authenticate.middleware.ts:13-19 | a header holding only the token is refused before anything is verified |
| Authenticate.Run | src/middlewares/Authenticate.middleware.ts:10-54 | on a pass, `req.userId` is set and response untouched. Otherwise only the reply is written |
| Authorize.LookupRole | src/middlewares/authorize.ts:9-12 | the role comes from the user table at the time of the call, never from the token; an unset id finds nobody |
| Authorize.Decide | src/middlewares/authorize.ts:14-39 | pass iff the user is found with an allowed role. Missing → 404 "User not found!", role not allowed → 403, lookup exception → 500; src/middlewares/Authorize.middleware.ts:15-40 is a second copy making the same decision |
| Authorize.PassIffCurrentRoleAllowed | src/middlewares/authorize.ts:12-30 | a request passes iff its user exists now with an allowed role |
| Authorize.DeletedUserNotFound | src/middlewares/Authorize.middleware.ts:15-21 | a removed user is answered 404 whatever roles are allowed |
| Authorize.DowngradeTakesEffect | src/middlewares/authorize.ts:12-28 | after an admin is saved back as a plain user, the next admin-only request is refused 403 |
| Seqs.Filter | src/services/blog.service.ts:140-147 | the query keeps exactly the matching rows, never more rows than the table, and all of them when every row matches |
| Seqs.FilterMultiset | src/services/blog.service.ts:140-147 | each matching row is kept as often as it occurs, and no other row at all |
| Seqs.FilterConcat | src/services/blog.service.ts:140-147 | the matches of two tables in a row are the matches of the first followed by those of the second: the query keeps table order |
| Seqs.FilterFilter | src/services/blog.service.ts:229-230 | combining two query conditions is filtering by one, then the other |
| Seqs.Reverse | src/services/blog.service.ts:152 | `sort({createdAt: -1})` over insertion order is the reversed table |
| Seqs.Window | src/services/blog.service.ts:150-151 | `skip(offset).limit(limit)`: at most `limit` rows, those starting at `offset` |
| BlogService.Page | src/services/blog.service.ts:146-169 | newest first, the window at `offset` of at most `limit` matching blogs. `total` counts every match |
| BlogService.PagesAreContiguous | src/services/blog.service.ts:150-152 | two consecutive pages are one page of twice the size |
| BlogService.GetAllBlogs | src/services/blog.service.ts:131-170 | falsy limit and offset fall back to the defaults, which are the values returned. A reader with role "user" sees only published blogs, and any other caller sees every blog. `total` is the number of visible blogs, and the page is exactly the visible blogs newest first, from `offset` on, at most `limit` of them |
| BlogService.RestrictionOnlyHides | src/services/blog.service.ts:142-146 | a restricted reader's total never exceeds an admin's |
| BlogService.GetBlogsByUser | src/services/blog.service.ts:209-254 | `total` is exactly the number of the target author's blogs the caller may see, under the same status filter and defaults, and the page is those blogs newest first from `offset`, at most `limit` of them |
| BlogService.GetBlogBySlug | src/services/blog.service.ts:172-207 | a missing slug gives 404. A "user" reading a draft gets 403; admins can read drafts |
| BlogService.Access | src/services/blog.service.ts:54-73 | not found comes first, then author-or-admin. A missing blog never gives 403 |
| BlogService.ApplyPatch | src/services/blog.service.ts:117-123 | title and content (sanitized) are overwritten only when truthy, banner and status when given. Every other field keeps its value |
| BlogService.ApplyPatchLaws | src/services/blog.service.ts:117-123 | an empty patch changes nothing; with an idempotent sanitizer, applying a patch twice is applying it once |
| BlogService.NewBlog | src/services/blog.service.ts:28-38 | the new blog is authored by the caller and has its content sanitized. Its status is published only when asked for, and its counters start at 0 |
| BlogService.CreateBlog | src/services/blog.service.ts:24-42 | appends exactly NewBlog |
| BlogService.DeleteBlog | src/services/blog.service.ts:44-84 | a refusal changes nothing. A permitted delete destroys the banner only when its public id is non-empty, then removes exactly that blog. A failed destroy keeps it |
| BlogService.UpdateBlog | src/services/blog.service.ts:86-129 | a refusal changes nothing; otherwise the blog's row becomes ApplyPatch of it |
| BlogService.DeleteTouchesOnlyTarget | src/services/blog.service.ts:75-82 | a permitted delete removes the target and keeps every other blog |
| BlogController.RefusalReply | src/controllers/blog.controller.ts:65-83 | 404 "Blog not found" or 403 with the service's message |
| BlogController.ResolvedQueries | src/controllers/blog.controller.ts:172-173 | on validated input, `parseInt(q) \|\| default` is the value given, or the default when it is absent or 0 |
| BlogController.ParsedIsValue | src/controllers/blog.controller.ts:172-173 | on a query `isInt` accepted, the parsed value is the integer it denotes, and an absent query stays absent |
| BlogController.GetAllBlogs | src/controllers/blog.controller.ts:166-207 | 200 with the service page for the parsed queries: the limit given or the default, the offset given or the default when it is absent or 0. A "user" sees only published blogs |
| BlogController.GetBlogsByUser | src/controllers/blog.controller.ts:259-304 | 200 with the service page of the target's blogs for the parsed queries, with the same limit and offset defaults |
| BlogController.GetBlogBySlug | src/controllers/blog.controller.ts:209-257 | 404; then 403 for a "user" reading a draft; else 200 |
| BlogController.CreateBlog | src/controllers/blog.controller.ts:17-49 | appends the caller's sanitized blog and answers 201 |
| BlogController.DeleteBlog | src/controllers/blog.controller.ts:51-105 | 404 before 403. A permitted delete destroys the banner whatever its id, removes the blog and answers 204. A failed destroy is answered 500 with the error, and the blog stays |
| BlogController.UpdateBlog | src/controllers/blog.controller.ts:107-164 | 404 before 403; otherwise the truthy fields are saved and the reply is 200 |
| UserService.GetUser | src/services/user.service.ts:18-110 | getCurrentUser and getUser (the same lookup) fail with NotFound exactly when no user has the id; otherwise they return that user |
| UserService.ApplyUserPatch | src/services/user.service.ts:61-75 | each truthy field is copied, `first_name` to `firstName` and `last_name` to `lastName`, and falsy ones keep the old value. Missing social links become `{}`, then only the truthy link fields are set. Id and role never change |
| UserService.UserPatchLaws | src/services/user.service.ts:61-75 | an empty update only adds `{}` social links; an update applied twice is applied once |
| UserService.UpdateCurrentUser | src/services/user.service.ts:33-81 | a missing user gives NotFound. Otherwise the patched user is saved in its place, unless another user already has the new email |
| UserService.BannerIds | src/services/user.service.ts:159-166 | exactly the non-empty banner public ids of the user's blogs |
| UserService.DeleteUser | src/services/user.service.ts:83-191 | deleteCurrentUser and deleteUser: a missing user gives NotFound and nothing is deleted. Otherwise cleanupUserData deletes the banners, every blog by the user, then the user; a failing banner delete gives 500 CleanupError before anything is removed. Tokens are untouched |
| UserService.CascadeOnlyOwnBlogs | src/services/user.service.ts:175 | a blog survives the cascade iff it is by someone else |
| UserService.GetAllUsers | src/services/user.service.ts:126-155 | falsy limit and offset fall back to the defaults, which are the values returned, a negative limit included. `total` counts all users, the page is the window of the table at `offset`, and it holds exactly `min(|limit|, total - offset)` users, or none past the end |
| Validation.LengthCount | src/validators/auth.validator.ts:14 | `isLength`'s count is at most the number of code points, and exactly that when no variation selector occurs |
| Validation.Check | src/validators/auth.validator.ts:12-13 | a validator records its message iff it fails |
| Validation.Mapped | src/middlewares/validationError.ts:11 | `errors.mapped()` has one key per field that has an error |
| Validation.MappedKeepsFirst | src/middlewares/validationError.ts:11 | each field's entry is the message of its first error |
| AuthValidator.RegisterErrors | src/validators/auth.validator.ts:9-37 | no errors iff the trimmed email is non-empty, at most 50 long and an email not already registered, the password is at least 8 long, and any role given is "admin" or "user". A taken email is flagged on the email field |
| AuthValidator.LoginErrors | src/validators/auth.validator.ts:39-77 | no errors iff the trimmed email is well formed, the password is long enough, and a user with that email exists whose hash matches the password |
| AuthValidator.LoginFailuresShareMessage | src/validators/auth.validator.ts:48-76 | an unknown email flags both email and password; a wrong password flags only the password; both with "User email or password is invalid" |
| AuthValidator.RefreshTokenErrors | src/validators/auth.validator.ts:79-85 | no errors iff the cookie is present, non-empty and JWT-shaped; a missing one is "Refresh token required" |
| BlogValidator.CreateErrors | src/validators/blog.validator.ts:3-15 | no errors iff the trimmed title is non-empty and at most 180 long, the trimmed content is non-empty, and any status is draft or published |
| BlogValidator.ListErrors | src/validators/blog.validator.ts:18-25 | no errors iff limit is absent or an integer in 1..50 and offset is absent or a non-negative integer. These are exactly the controller's preconditions |
| BlogValidator.GetAllErrors | src/validators/blog.validator.ts:17-26 | the list rules |
| BlogValidator.ByUserErrors | src/validators/blog.validator.ts:28-38 | the user id must be an ObjectId (its error comes first), plus the list rules |
| BlogValidator.UpdateErrors | src/validators/blog.validator.ts:40-50 | every field is optional; a title is only length-checked and not trimmed; content has no rule |
| BlogValidator.BlogIdErrors | src/validators/blog.validator.ts:52-54 | the one error "Invalid blog ID" iff the id is not an ObjectId |
| BlogValidator.SlugErrors | src/validators/blog.validator.ts:56-58 | the one error "Slug is required" iff the slug is empty |
| BlogValidator.BlankTitleOnlyOnUpdate | src/validators/blog.validator.ts:4-44 | an empty title passes the update rules but not the create rules |
| UploadBanner.OverwriteTarget | src/middlewares/uploadBlogBanner.ts:33-39 | the public id to overwrite is the blog's own with the first "blog-api/" removed, or none without a blog |
| UploadBanner.FolderPrefixStripped | src/middlewares/uploadBlogBanner.ts:38 | an id in the folder loses exactly the folder prefix |
| UploadBanner.UploadErrorReply | src/middlewares/uploadBlogBanner.ts:69-73 | a rejected upload is answered with Cloudinary's status and message. The code is "ValidationError" below 500 and the error's name otherwise |
| UploadBanner.Decide | src/middlewares/uploadBlogBanner.ts:9-78 | an update without a file passes untouched and a create without one gets 400. A file over the limit gets 413 (the limit itself is accepted). A missing upload result gets 500; success passes with the new banner |
| UploadBanner.UploadOnlyForAcceptedFiles | src/middlewares/uploadBlogBanner.ts:11-30 | a request passes without a new banner iff it is an update without a file. A passing file is within the limit and uploaded |
| UploadBanner.Run | src/middlewares/uploadBlogBanner.ts:10-77 | on next, `req.body.banner` is set to the new banner, or left alone, and nothing is written. Otherwise only the reply is written |

## Left out

- JWT internals: signing, secrets and expiry times. Verification and signing are parameters, and an expired or malformed token is a verdict.
- Mongo itself. Left out:
  - query projections (`select`, `lean`) and `populate`;
  - schema validation other than the unique email;
  - `createdAt` timestamps, so newest-first is the reverse of insertion order;
  - the `countDocuments`/`find` race.
- Other database exceptions. Each operation covers only the faults passed to it as parameters; the rest would be answered 500 by the catch-alls.
- Cloudinary, DOMPurify, bcrypt and the format checks `isEmail`, `isJWT` and `isMongoId` are parameters; their internals are not part of this model.
- Logging (winston) and concurrency: every request runs to completion before the next.
- Cookie `maxAge`: only httpOnly, secure and sameSite are modelled.
- Password hashing on save: `password` is the stored value.
- ObjectId comparison. `blog.author !== userId` compares by value here, not by object reference.
- `toLowerCase` covers ASCII letters only.
- The role validator's "Role must be a string": `role` is always a string or absent, so non-string JSON roles are not modelled.
- The validationError middleware itself (a 400 with `errors.mapped()`) is not part of this model beyond `Validation.Mapped`.
- Ids and slugs. Models/blog.model and models/user.model are not part of this model: new ids and the slug a blog gets are parameters. Slug regeneration on a title update is not modelled.
- Schema defaults are assumed: `role` defaults to user and a blog's `status` to draft.
- `IAuthError`. types/auth.types is not part of this model; `IAuthError` is taken to be the `AuthError` class.
- Multer: the uploaded file is reduced to its size. An exception thrown before the upload, such as `findById` on a malformed id, reaches the catch without an `http_code` and is not modelled.
- Negative `limit` and `offset` on the blog lists: they are excluded by requires, since the blog routes' validators reject them.
- UserService.GetAllUsers: requires a non-negative offset. The user list route passes `parseInt` of the query without a validator, so a negative offset reaches `skip`, where the database rejects it and the error handler answers 500; that path is not modelled. A negative limit is modelled as a page of at most `|limit|` users; the database's cap on the size of that single batch is not modelled.
- Unique ids: `UserTable.Users.Create` and `BlogTable.Blogs.Create` accept any id, and the model does not enforce that ids are unique. The database assigns a fresh id to every new document; the remove and replace functions are correct under that assumption, which the callers' id parameters are taken to meet.
- Rate limiting, routing, the server and configuration loading are left out: they carry no decision logic.
- Authorize.Authorize: it has no contract of its own; it is the composition of `LookupRole` and `Decide`, whose contracts it inherits.

## Findings

| source | as written | input that shows it | evidently intended | confidence | as-written member | corrected member |
|---|---|---|---|---|---|---|
| src/utils/index.ts:69 | `/[^a-z0-9]\s-/g` removes only a non-alphanumeric character followed by a whitespace and a hyphen | title "A&B" gives slug "a&b-" plus the suffix, keeping "&" | the class `/[^a-z0-9\s-]/g`, dropping every character other than letters, digits, whitespace and hyphens | high (not executed) | Generate.SlugAsWrittenKeepsPunctuation | Generate.IntendedSlugIsSafe |
