/** Failure-carrying values used where the source raises and catches exceptions
    or returns "missing". */
module Wrappers {

  datatype Option<+T> = None | Some(value: T) {
    /** Python's `value if value is not None else default`. */
    function GetOr(default: T): T {
      match this
      case Some(v) => v
      case None => default
    }
  }

  /** The outcome of an operation that either produces a value or raises. */
  datatype Result<+T> = Ok(value: T) | Err(message: string)

  /** A controller's answer: the data of a success, or the status code of a
      failure. */
  datatype Reply<+T> = Success(data: T) | Failure(code: nat)
}
