/** Failure-carrying values shared by every module of the model. */
module Wrappers {

  /** A nullable value: `None` stands for C# `null` or JavaScript `null`/`undefined`. */
  datatype Option<+T> = None | Some(value: T) {
    function GetOr(default: T): T {
      match this
      case Some(v) => v
      case None => default
    }
  }

  /** The outcome of an operation that may throw: `Err` carries the thrown exception. */
  datatype Result<+T, +E> = Ok(value: T) | Err(error: E)

  /** MediatR's `Unit`, the value returned by handlers that return nothing. */
  datatype Unit = Unit
}
