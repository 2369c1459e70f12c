/** Option and Result: absent values and failures as data. */
module Wrappers {

  /** A value that may be missing; `None` stands for JavaScript's `null` or an absent key. */
  datatype Option<+T> = None | Some(value: T) {
    function GetOr(default: T): T {
      match this
      case Some(v) => v
      case None => default
    }
  }

  /** The outcome of an operation that can fail before doing anything. */
  datatype Result<+R, +E> = Success(value: R) | Failure(error: E)
}
