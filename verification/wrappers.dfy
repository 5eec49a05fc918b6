/** Failure-carrying values shared by every module of the model. */
module Wrappers {

  /** A value that may be absent (an unparseable number, a missing file, a malformed record). */
  datatype Option<+T> = None | Some(value: T) {
    function GetOr(default: T): T {
      match this
      case Some(v) => v
      case None => default
    }
  }

  /** The outcome of an operation that either yields a value or throws an error. */
  datatype Result<+R, +E> = Success(value: R) | Failure(error: E)
}
