/** The exceptions the service layer raises, passes through or receives from
    the record store. Spring's `DataAccessException` hierarchy is represented by
    two kinds: `DataIntegrityViolation` (the store's uniqueness or not-null
    constraint fired) and `DataAccessFailure` (every other storage failure,
    such as a lost connection). */
module Failures {

  datatype Exception =
    | UserNotFound(message: string)
    | UserNotCreated(message: string)
    | UserNotUpdated(message: string)
    | UserNotDeleted(message: string)
    | DataIntegrityViolation(message: string)
    | DataAccessFailure(message: string)
    | ConstraintViolation(message: string)
    | Unexpected(message: string)
  {
    /** `DataIntegrityViolationException` is a subclass of `DataAccessException`. */
    predicate IsDataAccess() {
      DataIntegrityViolation? || DataAccessFailure?
    }

    /** The same kind of exception carrying another message. */
    function WithMessage(m: string): (e: Exception)
      ensures e.message == m
    {
      match this
      case UserNotFound(_) => UserNotFound(m)
      case UserNotCreated(_) => UserNotCreated(m)
      case UserNotUpdated(_) => UserNotUpdated(m)
      case UserNotDeleted(_) => UserNotDeleted(m)
      case DataIntegrityViolation(_) => DataIntegrityViolation(m)
      case DataAccessFailure(_) => DataAccessFailure(m)
      case ConstraintViolation(_) => ConstraintViolation(m)
      case Unexpected(_) => Unexpected(m)
    }
  }

  /** A value, or the exception a Java method would have thrown instead. */
  datatype Result<+T> = Ok(value: T) | Err(error: Exception)
}
