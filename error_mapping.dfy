/** `handleError` of src/utils/index.ts (src/utils/error.ts holds the same
    code): the one reply written for a thrown value, chosen by an ordered
    chain of tests. */
module ErrorMapping {
  import opened Types

  /** `err instanceof IAuthError`. The class is imported from the auth types,
      whose only error class is `AuthError`; the model takes the test to hold
      for exactly the auth error class. */
  predicate IsAuthError(err: Failure) {
    err.AppError? && err.cls == AuthErrorClass
  }

  predicate IsValidationError(err: Failure) {
    ErrorName(err) == Some("ValidationError")
  }

  predicate IsCastError(err: Failure) {
    ErrorName(err) == Some("CastError")
  }

  /** `err.name === "MongoServerError" && err.code === 11000`. */
  predicate IsDuplicateKey(err: Failure) {
    err.NamedError? && err.name == "MongoServerError" && err.mongoCode == Some(11000)
  }

  /** The reply for a thrown value none of the named tests recognise. */
  function UnexpectedErrorReply(err: Failure, nodeEnv: string): (r: Reply)
    ensures r.status == INTERNAL_SERVER_ERROR && r.payload.ErrorBody? && r.payload.code == "ServerError"
    ensures r.payload.detail.Some? <==> nodeEnv == "development"
    ensures r.payload.detail.Some? ==> r.payload.detail.value == err
  {
    Reply(INTERNAL_SERVER_ERROR,
          ErrorBody("ServerError", "Internal server error", if nodeEnv == "development" then Some(err) else None))
  }

  function HandleError(err: Failure, nodeEnv: string): (r: Reply)
    ensures IsAuthError(err) ==> r == ErrorReply(err.statusCode, err.code, err.message)
    ensures !IsAuthError(err) && IsValidationError(err) ==>
              r == Reply(BAD_REQUEST, ErrorBody("ValidationError", "Invalid input data", Some(err)))
    ensures !IsAuthError(err) && IsCastError(err) ==> r == ErrorReply(BAD_REQUEST, "InvalidId", "Invalid ID format")
    ensures IsDuplicateKey(err) ==> r == ErrorReply(CONFLICT, "ConflictError", "User already exists")
    ensures !IsAuthError(err) && !IsValidationError(err) && !IsCastError(err) && !IsDuplicateKey(err) ==>
              r == UnexpectedErrorReply(err, nodeEnv)
    ensures r.payload.ErrorBody?
  {
    if IsAuthError(err) then ErrorReply(err.statusCode, err.code, err.message)
    else if IsValidationError(err) then Reply(BAD_REQUEST, ErrorBody("ValidationError", "Invalid input data", Some(err)))
    else if IsCastError(err) then ErrorReply(BAD_REQUEST, "InvalidId", "Invalid ID format")
    else if IsDuplicateKey(err) then ErrorReply(CONFLICT, "ConflictError", "User already exists")
    else UnexpectedErrorReply(err, nodeEnv)
  }

  /** Outside development the reply carries the thrown value only for a
      validation error: an unexpected error's detail stays hidden. */
  lemma DetailOnlyInDevelopment(err: Failure, nodeEnv: string)
    requires nodeEnv != "development"
    ensures HandleError(err, nodeEnv).payload.detail.Some? ==> !IsAuthError(err) && IsValidationError(err)
  {
  }

  /** A thrown value that is not an application error gets one of four
      statuses, and 400 exactly for validation and cast errors. */
  lemma NonAppErrorStatuses(err: Failure, nodeEnv: string)
    requires !err.AppError?
    ensures HandleError(err, nodeEnv).status in {BAD_REQUEST, CONFLICT, INTERNAL_SERVER_ERROR}
    ensures HandleError(err, nodeEnv).status == BAD_REQUEST <==> IsValidationError(err) || IsCastError(err)
    ensures HandleError(err, nodeEnv).status == CONFLICT <==> IsDuplicateKey(err)
  {
  }

  /** A `UserError` or `BlogError` is not an instance of the auth error class,
      and its name is neither of the recognised ones, so it is answered as an
      unexpected error whatever status it carries: a `UserError` "NotFound"
      becomes a 500. */
  lemma OtherAppErrorsAnsweredAs500(err: Failure, nodeEnv: string)
    requires err.AppError? && err.cls != AuthErrorClass
    ensures HandleError(err, nodeEnv) == UnexpectedErrorReply(err, nodeEnv)
  {
  }
}
