/** Failure-carrying values: Python's `None` and raised exceptions, made explicit. */
module Wrappers {

  /** `None` for Python's `None` (or a missing lookup), `Some` for a present value. */
  datatype Option<+T> = None | Some(value: T) {

    /** The wrapped value, or `default` when there is none. */
    function GetOr(default: T): T {
      match this
      case Some(v) => v
      case None => default
    }
  }

  /** The value an operation returns, or the error it raises. */
  datatype Result<+T, +E> = Ok(value: T) | Err(error: E)
}
