/** Optional values and results with an error, shared by every module of the model. */
module Wrappers {

  /** A value that may be absent (a missing property, `undefined`). */
  datatype Option<+T> = None | Some(value: T)

  /** The outcome of a step that may throw: a value, or what was thrown. */
  datatype Result<+T, +E> = Ok(value: T) | Err(error: E) {

    predicate IsFailure() {
      Err?
    }

    function PropagateFailure<U>(): Result<U, E>
      requires Err?
    {
      Err(error)
    }

    function Extract(): T
      requires Ok?
    {
      value
    }
  }
}
