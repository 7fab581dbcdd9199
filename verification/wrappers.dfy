/** Failure-carrying wrappers shared by the model: Python's `X | None` and
    the pass/fail result of an `assert` statement. */
module Wrappers {

  /** A value that may be absent (Python's `None`). */
  datatype Option<+T> = None | Some(value: T) {

    /** The wrapped value, or `default` when absent. */
    function GetOr(default: T): T {
      match this
      case Some(v) => v
      case None => default
    }
  }

  /** The outcome of an assertion: it passes, or it fails with a message. */
  datatype Outcome<+E> = Pass | Fail(error: E)
}
