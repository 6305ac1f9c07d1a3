/** Option and Result, the two failure-carrying shapes the model uses. */
module Wrappers {

  /** An optional value; for the optional text fields of a resume, None stands for `undefined`. */
  datatype Option<+T> = None | Some(value: T) {
    /** The value, or the given default (JavaScript's `x || d` for an absent x). */
    function GetOr(default: T): T {
      match this
      case Some(v) => v
      case None => default
    }
  }

  /** Either a value or an error message, for the operations that throw in the source. */
  datatype Result<+T, +E> = Success(value: T) | Failure(error: E)
}
