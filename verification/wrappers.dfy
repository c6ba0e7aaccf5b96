/** The optional values and exception-carrying results the launcher model is written with. */
module Wrappers {

  datatype Option<+T> = None | Some(value: T) {

    function GetOr(default: T): T {
      match this
      case Some(v) => v
      case None => default
    }
  }

  /** A computation that either produced a value or raised an exception of kind `E`. */
  datatype Result<+R, +E> = Success(value: R) | Failure(error: E)
}
