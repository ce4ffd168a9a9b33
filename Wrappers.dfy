/** Option and Result, used for C# nullable values and for exceptions. */
module Wrappers {

  /** `None` stands for a C# `null`. */
  datatype Option<+T> = None | Some(value: T) {
    function GetOr(default: T): T {
      match this
      case Some(v) => v
      case None => default
    }
  }

  /** `Failure` stands for an exception the code does not catch. */
  datatype Result<+R, +E> = Success(value: R) | Failure(error: E)
}
