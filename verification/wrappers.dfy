/** Option and Result types shared by every module of the model. */
module Wrappers {

  /** A value that may be absent: Java's nullable reference, C++'s `find` miss. */
  datatype Option<+T> = None | Some(value: T) {

    /** The carried value, or `default` when absent. */
    function GetOr(default: T): T {
      match this
      case Some(v) => v
      case None => default
    }
  }

  /** An outcome that is either a value or an error description. */
  datatype Result<+R, +E> = Success(value: R) | Failure(error: E)
}
