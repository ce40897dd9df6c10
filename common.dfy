/** Failure-compatible wrappers shared by every module of the model, and the
    Python exceptions the labelling scripts raise or catch. */
module Common {

  datatype Option<+T> = None | Some(value: T) {
    predicate IsFailure() { None? }

    function PropagateFailure<U>(): Option<U>
      requires None?
    {
      None
    }

    function Extract(): T
      requires Some?
    {
      value
    }

    function GetOr(default: T): T {
      match this
      case Some(v) => v
      case None => default
    }
  }

  datatype Result<+R, +E> = Success(value: R) | Failure(error: E) {
    predicate IsFailure() { Failure? }

    function PropagateFailure<U>(): Result<U, E>
      requires Failure?
    {
      Failure(error)
    }

    function Extract(): R
      requires Success?
    {
      value
    }
  }

  /** The exception classes the scripts raise, each with its message text. */
  datatype PyError =
    | ValueError(message: string)
    | KeyError(key: string)
    | TypeError(message: string)
    | FileNotFoundError(message: string)
    | RuntimeError(message: string)
}
