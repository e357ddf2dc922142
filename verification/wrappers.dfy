/** Failure-compatible wrappers shared by the whole model. */
module Wrappers {

  /** `None` stands for a pandas missing value (NaN) wherever a cell is modelled. */
  datatype Option<+T> = None | Some(value: T) {
    function GetOr(default: T): T {
      match this
      case Some(v) => v
      case None => default
    }
  }

  /** The outcome of an operation that the scripts abort with an exception. */
  datatype Result<+R, +E> = Success(value: R) | Failure(error: E)
}
