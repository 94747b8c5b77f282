/** Optional values and results with an error, usable with `:-`. */
module Wrappers {

  /** A value that may be absent: Python's `None` where it stands for "no value". */
  datatype Option<+T> = None | Some(value: T)

  /** The outcome of a computation that may raise: `Err` carries the exception. */
  datatype Result<+T, +E> = Ok(value: T) | Err(error: E) {

    predicate IsFailure() {
      Err?
    }

    function PropagateFailure<U>(): Result<U, E>
      requires Err?
    {
      Err(error)
    }

    function Extract(): T
      requires Ok?
    {
      value
    }
  }
}
