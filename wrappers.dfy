/** Failure-compatible wrappers used for the error paths of the model: Python's
    `None`, raised exceptions and `assert False` become explicit values. */
module Wrappers {

  /** An optional value (Python `None` or a value). */
  datatype Option<+T> = None | Some(value: T)

  /** A computation that either produces a value or fails with an error. */
  datatype Result<+T, +E> = Ok(value: T) | Err(error: E) {
    predicate IsFailure() { Err? }

    function PropagateFailure<U>(): Result<U, E>
      requires Err?
    {
      Err(error)
    }

    function Extract(): T
      requires Ok?
    {
      value
    }
  }

  /** A computation run for its effect that either completes or fails. */
  datatype Outcome<+E> = Pass | Fail(error: E)
}
