/** `uploadBlogBanner(method)` (src/middlewares/uploadBlogBanner.ts): the
    checks on the uploaded file, the public id an update overwrites, and the
    reply chosen for each upload outcome. Multer's parsed file is reduced to
    its size; the Cloudinary upload is a function parameter from the public
    id it is given to its outcome. */
module UploadBanner {
  import opened Types
  import opened Http
  import opened Text
  import BlogTable

  /** The Cloudinary folder prefix stripped before an overwrite. */
  const Folder := "blog-api/"

  datatype UploadMethod = Post | Put

  datatype UploadedFile = UploadedFile(size: int)

  /** The fields of Cloudinary's upload response the middleware reads. */
  datatype CloudinaryData = CloudinaryData(public_id: string, secure_url: string, width: int, height: int)

  /** What `uploadToCloudinary` produces: a (possibly missing) response, or
      the error it rejects with. */
  datatype UploadOutcome =
    | Uploaded(data: Option<CloudinaryData>)
    | UploadFailed(http_code: int, name: string, message: string)

  const BannerRequired := ErrorReply(BAD_REQUEST, "ValidationError", "Blog banner is required")
  const FileTooLarge := ErrorReply(PAYLOAD_TOO_LARGE, "ValidationError", "File size must be less than 2MB")
  const UploadFailedReply := ErrorReply(INTERNAL_SERVER_ERROR, "ServerError", "Internal server error")

  /** Call `next`, having set `req.body.banner` when `banner` is given; or answer. */
  datatype Gate = Proceed(banner: Option<Banner>) | Respond(reply: Reply)

  /** `blog?.banner.publicId.replace("blog-api/", "")`: the public id the
      upload overwrites, absent when there is no such blog (a create has no
      `blogId`). */
  function OverwriteTarget(rows: seq<Blog>, blogId: Option<BlogId>): (r: Option<string>)
    ensures blogId.None? ==> r.None?
    ensures blogId.Some? ==>
              var found := BlogTable.FindById(rows, blogId.value);
              && (found.None? ==> r.None?)
              && (found.Some? ==> r == Some(ReplaceFirst(found.value.banner.publicId, Folder)))
  {
    if blogId.None? then None
    else
      match BlogTable.FindById(rows, blogId.value)
      case None => None
      case Some(b) => Some(ReplaceFirst(b.banner.publicId, Folder))
  }

  /** A public id in the folder loses exactly the folder prefix. */
  lemma FolderPrefixStripped(rest: string)
    ensures ReplaceFirst(Folder + rest, Folder) == rest
  {
    var s := Folder + rest;
    assert s[0..|Folder|] == Folder;
    assert OccursAt(s, Folder, 0);
    assert s[|Folder|..] == rest;
  }

  /** The reply for a rejected upload: Cloudinary's status and message; the
      code is "ValidationError" below 500 and the error's name otherwise. */
  function UploadErrorReply(http_code: int, name: string, message: string): (r: Reply)
    ensures r.status == http_code
    ensures r.payload == ErrorBody(if http_code < 500 then "ValidationError" else name, message, None)
  {
    ErrorReply(http_code, if http_code < 500 then "ValidationError" else name, message)
  }

  /** The middleware's decision. */
  function Decide(verb: UploadMethod, file: Option<UploadedFile>, maxFileSize: int,
                  rows: seq<Blog>, blogId: Option<BlogId>,
                  upload: Option<string> -> UploadOutcome): (g: Gate)
    ensures verb == Put && file.None? ==> g == Proceed(None)
    ensures verb == Post && file.None? ==> g == Respond(BannerRequired)
    ensures file.Some? && file.value.size > maxFileSize ==> g == Respond(FileTooLarge)
    ensures file.Some? && file.value.size <= maxFileSize ==>
              var u := upload(OverwriteTarget(rows, blogId));
              && (u.Uploaded? && u.data.None? ==> g == Respond(UploadFailedReply))
              && (u.Uploaded? && u.data.Some? ==>
                    var d := u.data.value;
                    g == Proceed(Some(Banner(d.public_id, d.secure_url, d.width, d.height))))
              && (u.UploadFailed? ==> g == Respond(UploadErrorReply(u.http_code, u.name, u.message)))
  {
    if verb == Put && file.None? then Proceed(None)
    else if file.None? then Respond(BannerRequired)
    else if file.value.size > maxFileSize then Respond(FileTooLarge)
    else
      match upload(OverwriteTarget(rows, blogId))
      case Uploaded(None) => Respond(UploadFailedReply)
      case Uploaded(Some(d)) => Proceed(Some(Banner(d.public_id, d.secure_url, d.width, d.height)))
      case UploadFailed(c, n, m) => Respond(UploadErrorReply(c, n, m))
  }

  /** Nothing is uploaded unless a file within the size limit came with the
      request, and a request passes without a new banner only when it is an
      update without a file. */
  lemma UploadOnlyForAcceptedFiles(verb: UploadMethod, file: Option<UploadedFile>, maxFileSize: int,
                                   rows: seq<Blog>, blogId: Option<BlogId>,
                                   upload: Option<string> -> UploadOutcome)
    ensures Decide(verb, file, maxFileSize, rows, blogId, upload) == Proceed(None) <==> verb == Put && file.None?
    ensures Decide(verb, file, maxFileSize, rows, blogId, upload).Proceed? && file.Some? ==>
              file.value.size <= maxFileSize
              && upload(OverwriteTarget(rows, blogId)).Uploaded?
              && upload(OverwriteTarget(rows, blogId)).data.Some?
  {
  }

  /** The middleware on a request: on `next` the banner, if any, is stored in
      `req.body.banner` and nothing is written; otherwise only the reply is. */
  method Run(req: Request, res: Response, verb: UploadMethod, file: Option<UploadedFile>, maxFileSize: int,
             rows: seq<Blog>, blogId: Option<BlogId>, upload: Option<string> -> UploadOutcome)
    returns (next: bool)
    modifies req, res
    ensures var g := Decide(verb, file, maxFileSize, rows, blogId, upload);
            && (next <==> g.Proceed?)
            && (next ==> res.reply == old(res.reply)
                         && req.banner == if g.banner.Some? then g.banner else old(req.banner))
            && (!next ==> res.reply == Some(g.reply) && req.banner == old(req.banner))
    ensures req.userId == old(req.userId) && res.cookie == old(res.cookie)
  {
    match Decide(verb, file, maxFileSize, rows, blogId, upload)
    case Proceed(b) =>
      if b.Some? {
        req.banner := b;
      }
      next := true;
    case Respond(r) =>
      res.Send(r);
      next := false;
  }
}
