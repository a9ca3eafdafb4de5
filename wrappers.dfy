/** Option, the HTTP error statuses the backend raises, and the failure-compatible
    Result and Outcome types built on them. */
module Wrappers {

  /** A Java reference that may be null, or an SQL value that may be NULL. */
  datatype Option<+T> = None | Some(value: T) {
    function GetOr(default: T): T {
      match this
      case Some(v) => v
      case None => default
    }
  }

  /** The statuses raised through ResponseStatusException or bean validation. */
  datatype Status = BadRequest | Unauthorized | NotFound | Conflict

  /** The value a handler returns, or the status of the exception it throws. */
  datatype Result<+T> = Ok(value: T) | Err(status: Status) {
    predicate IsFailure() {
      Err?
    }

    function PropagateFailure<U>(): Result<U>
      requires Err?
    {
      Err(status)
    }

    function Extract(): T
      requires Ok?
    {
      value
    }
  }

  /** The result of a check that returns nothing (a Java `void` helper that may throw). */
  datatype Outcome = Pass | Fail(status: Status) {
    predicate IsFailure() {
      Fail?
    }

    function PropagateFailure<U>(): Result<U>
      requires Fail?
    {
      Err(status)
    }
  }
}
