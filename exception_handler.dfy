/** `UserExceptionHandler`: the advice that turns every exception escaping a
    controller into an error response. Spring picks, for each exception, the
    handler declared for its closest superclass; `Handle` makes that choice
    explicit over the exception kinds of `Failures`. Logging is left out. */
module ExceptionHandling {
  import opened Failures
  import opened Http
  import opened Clock
  import opened ErrorResponses

  const DatabaseErrorMessage: string := "A server error occurred. Please try again later."
  const InternalErrorMessage: string := "Internal server error"

  /** `buildResponse`: the status of the response and of its body are the same. */
  function BuildResponse(message: string, status: HttpStatus, now: Timestamp): (r: ResponseEntity<UserErrorResponse>)
    ensures r.status == status && r.body.status == status
    ensures r.body.message == message && r.body.timestamp == now
  {
    ResponseEntity(NewUserErrorResponse(message, status, now), status)
  }

  /** The domain exceptions a client caused, answered with 400. */
  predicate IsRejection(e: Exception) {
    e.UserNotCreated? || e.UserNotUpdated? || e.UserNotDeleted?
  }

  function Handle(e: Exception, now: Timestamp): (r: ResponseEntity<UserErrorResponse>)
    ensures r.status == r.body.status && r.body.timestamp == now
    ensures r.status == NOT_FOUND <==> e.UserNotFound?
    ensures r.status == BAD_REQUEST <==> IsRejection(e)
    ensures r.status == INTERNAL_SERVER_ERROR <==> !e.UserNotFound? && !IsRejection(e)
    ensures r.status != INTERNAL_SERVER_ERROR ==> r.body.message == e.message
    ensures r.status == INTERNAL_SERVER_ERROR && e.IsDataAccess() ==> r.body.message == DatabaseErrorMessage
    ensures r.status == INTERNAL_SERVER_ERROR && !e.IsDataAccess() ==> r.body.message == InternalErrorMessage
  {
    match e
    case UserNotFound(m) => BuildResponse(m, NOT_FOUND, now)
    case UserNotCreated(m) => BuildResponse(m, BAD_REQUEST, now)
    case UserNotUpdated(m) => BuildResponse(m, BAD_REQUEST, now)
    case UserNotDeleted(m) => BuildResponse(m, BAD_REQUEST, now)
    case DataIntegrityViolation(_) => BuildResponse(DatabaseErrorMessage, INTERNAL_SERVER_ERROR, now)
    case DataAccessFailure(_) => BuildResponse(DatabaseErrorMessage, INTERNAL_SERVER_ERROR, now)
    case ConstraintViolation(_) => BuildResponse(InternalErrorMessage, INTERNAL_SERVER_ERROR, now)
    case Unexpected(_) => BuildResponse(InternalErrorMessage, INTERNAL_SERVER_ERROR, now)
  }

  /** A 500 response does not depend on the exception's message: nothing internal leaks. */
  lemma ServerErrorsIgnoreMessage(e: Exception, m: string, now: Timestamp)
    requires Handle(e, now).status == INTERNAL_SERVER_ERROR
    ensures Handle(e.WithMessage(m), now) == Handle(e, now)
    ensures Handle(e, now).body.message != e.message || e.message in {DatabaseErrorMessage, InternalErrorMessage}
  {
  }
}
