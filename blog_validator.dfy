/** The express-validator rule sets of src/validators/blog.validator.ts.
    `isMongoId` is a function parameter. */
module BlogValidator {
  import opened Types
  import opened Text
  import opened Validation
  import BlogController

  const MAX_TITLE_LENGTH := 180
  const MAX_LIMIT := 50

  const StatusMessage := "Status must be one of the value, draft or published"
  const TitleLengthMessage := "Title must be less than 180 characters"

  predicate IsStatusName(s: string) { s == "draft" || s == "published" }

  /** `status`: optional, else one of the two status names. */
  function StatusErrors(status: Option<string>): seq<FieldError> {
    if status.None? then [] else Check(IsStatusName(status.value), "status", StatusMessage)
  }

  /** `validateCreateBlog`: title and content are trimmed and required; the
      trimmed title counts at most 180 (the bound itself is accepted). */
  function CreateErrors(title: string, content: string, status: Option<string>): (errs: seq<FieldError>)
    ensures errs == [] <==>
              Trim(title) != "" && LengthCount(Trim(title)) <= MAX_TITLE_LENGTH && Trim(content) != ""
              && (status.None? || IsStatusName(status.value))
    ensures Trim(title) == "" ==> FieldError("title", "Title is required") in errs
    ensures Trim(content) == "" ==> FieldError("content", "Content is required") in errs
  {
    var t := Trim(title);
    var r := Check(t != "", "title", "Title is required")
      + Check(LengthCount(t) <= MAX_TITLE_LENGTH, "title", TitleLengthMessage)
      + Check(Trim(content) != "", "content", "Content is required")
      + StatusErrors(status);
    assert Trim(content) == "" ==>
             r[|Check(t != "", "title", "Title is required") + Check(LengthCount(t) <= MAX_TITLE_LENGTH, "title", TitleLengthMessage)|]
             == FieldError("content", "Content is required");
    r
  }

  /** `isInt({min, max})` on a query value. */
  predicate IntInRange(s: string, lo: int, hi: Option<int>) {
    IsIntString(s) && lo <= IntStringValue(s) && (hi.None? || IntStringValue(s) <= hi.value)
  }

  /** The `limit` and `offset` rules shared by both list endpoints. */
  function ListErrors(limit: Option<string>, offset: Option<string>): (errs: seq<FieldError>)
    ensures errs == [] <==> BlogController.ValidLimit(limit) && BlogController.ValidOffset(offset)
  {
    (if limit.None? then [] else Check(IntInRange(limit.value, 1, Some(MAX_LIMIT)), "limit", "Limit must be between 1 to 50"))
    + (if offset.None? then [] else Check(IntInRange(offset.value, 0, None), "offset", "Offset must be a positive integer"))
  }

  /** `validateGetAllBlogs`. */
  function GetAllErrors(limit: Option<string>, offset: Option<string>): (errs: seq<FieldError>)
    ensures errs == [] <==> BlogController.ValidLimit(limit) && BlogController.ValidOffset(offset)
  {
    ListErrors(limit, offset)
  }

  /** `validateGetBlogsByUser`: the user id, then the list rules. */
  function ByUserErrors(userId: string, limit: Option<string>, offset: Option<string>,
                        isMongoId: string -> bool): (errs: seq<FieldError>)
    ensures errs == [] <==> isMongoId(userId) && BlogController.ValidLimit(limit) && BlogController.ValidOffset(offset)
    ensures !isMongoId(userId) ==> errs[0] == FieldError("userId", "Invalid user ID")
  {
    Check(isMongoId(userId), "userId", "Invalid user ID") + ListErrors(limit, offset)
  }

  /** `validateUpdateBlog`: every field optional; the title is not trimmed
      here and only its length is checked; `content` has no rule. */
  function UpdateErrors(title: Option<string>, status: Option<string>): (errs: seq<FieldError>)
    ensures errs == [] <==>
              (title.None? || LengthCount(title.value) <= MAX_TITLE_LENGTH) && (status.None? || IsStatusName(status.value))
    ensures title == Some("") ==> errs == StatusErrors(status)
  {
    (if title.None? then [] else Check(LengthCount(title.value) <= MAX_TITLE_LENGTH, "title", TitleLengthMessage))
    + StatusErrors(status)
  }

  /** `validateBlogId`. */
  function BlogIdErrors(blogId: string, isMongoId: string -> bool): (errs: seq<FieldError>)
    ensures errs == [] <==> isMongoId(blogId)
    ensures errs != [] ==> errs == [FieldError("blogId", "Invalid blog ID")]
  {
    Check(isMongoId(blogId), "blogId", "Invalid blog ID")
  }

  /** `validateBlogSlug`: the slug is not trimmed, so a blank one passes. */
  function SlugErrors(slug: string): (errs: seq<FieldError>)
    ensures errs == [] <==> slug != ""
    ensures errs != [] ==> errs == [FieldError("slug", "Slug is required")]
  {
    Check(slug != "", "slug", "Slug is required")
  }

  /** A blank title passes the update rules but not the create rules; the
      service's truthiness test then keeps the old title. */
  lemma BlankTitleOnlyOnUpdate(content: string)
    requires Trim(content) != ""
    ensures UpdateErrors(Some(""), None) == []
    ensures FieldError("title", "Title is required") in CreateErrors("", content, None)
  {
  }
}
