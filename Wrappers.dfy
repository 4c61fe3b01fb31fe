/** Success/failure wrappers used for the CLR's null references and thrown exceptions. */
module Wrappers {

  /** A value that may be absent: `None` stands for a CLR null reference. */
  datatype Option<+T> = None | Some(value: T) {
    function GetOr(default: T): T {
      match this
      case Some(v) => v
      case None => default
    }
  }

  /** The result of a call that either returns a value or throws `error`. */
  datatype Result<+R, +E> = Success(value: R) | Failure(error: E) {
    predicate IsFailure() {
      Failure?
    }

    function PropagateFailure<U>(): Result<U, E>
      requires Failure?
    {
      Failure(error)
    }

    function Extract(): R
      requires Success?
    {
      value
    }
  }

  /** The result of a call that returns nothing (or `this`) or throws `error`. */
  datatype Outcome<+E> = Pass | Fail(error: E)
}
