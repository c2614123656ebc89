/** Failure-carrying datatypes shared by every component of the review pipeline. */
module Wrappers {

  /** Python's `None` or a present value. */
  datatype Option<+T> = None | Some(value: T) {

    /** The value if present, otherwise `default` (the `x if x is not None else default` idiom). */
    function GetOr(default: T): T {
      match this
      case Some(v) => v
      case None => default
    }
  }

  /** Either a value or the error the Python code would raise or report instead. */
  datatype Result<+R, +E> = Success(value: R) | Failure(error: E)
}
