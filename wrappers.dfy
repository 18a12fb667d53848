/** Failure-carrying values shared by every module of the model.
    `None` stands for a C# `null` result, `Err` for an exception or a failed
    contract assertion (which reverts the whole transaction). */
module Wrappers {

  datatype Option<+T> = None | Some(value: T) {
    function GetOr(default: T): T {
      match this
      case Some(v) => v
      case None => default
    }
  }

  datatype Result<+T, +E> = Ok(value: T) | Err(error: E)

  /** The unit value returned by operations that only succeed or fail. */
  datatype Unit = Unit
}
