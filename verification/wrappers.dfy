/** Option and Outcome: the model's stand-ins for Java's null and for a thrown exception. */
module Wrappers {

  /** A nullable Java reference: `None` is `null`. */
  datatype Option<+T> = None | Some(value: T) {
    function GetOr(default: T): T {
      match this
      case Some(v) => v
      case None => default
    }
  }

  /** A value, or the error an operation threw. */
  datatype Result<+R, +E> = Ok(value: R) | Err(error: E)

  /** Completion of a `void` operation: it returned normally, or it threw `error`. */
  datatype Outcome<+E> = Pass | Fail(error: E)
}
