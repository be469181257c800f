/** Option and Result, the two failure-carrying types the model uses for
    SQL NULL, Python's `None` and raised exceptions. */
module Wrappers {

  /** A nullable value: `None` stands for SQL NULL or Python `None`. */
  datatype Option<+T> = None | Some(value: T) {

    /** The value, or `default` when absent (Python's `x or default` on a
        value whose only falsy state is `None`). */
    function GetOr(default: T): T {
      match this
      case Some(v) => v
      case None => default
    }
  }

  /** The outcome of an operation that may raise. */
  datatype Result<+R, +E> = Success(value: R) | Failure(error: E)
}
