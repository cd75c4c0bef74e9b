/** Option and Result, the stand-ins for Java's null and for thrown exceptions. */
module Wrappers {

  /** A value that may be absent; None models a Java null. */
  datatype Option<+T> = None | Some(value: T) {

    /** The value, or the given default when absent. */
    function GetOr(default: T): T {
      match this
      case Some(v) => v
      case None => default
    }
  }

  /** Either a normal return value or the exception an operation throws. */
  datatype Result<+R, +E> = Success(value: R) | Failure(error: E)
}
