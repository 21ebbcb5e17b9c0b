/** Failure-carrying result types used across the model. */
module Wrappers {

  /** The conventional Some/None datatype; None stands for Java's null. */
  datatype Option<+T> = None | Some(value: T) {
    function GetOr(default: T): T {
      match this
      case Some(v) => v
      case None => default
    }
  }

  /** A value, or the reason an operation failed (an exception in the source). */
  datatype Result<+T, +E> = Ok(value: T) | Err(error: E)
}
