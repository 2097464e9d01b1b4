/** Option and Result, shared by every module of the project. */
module Wrappers {

  datatype Option<+T> = None | Some(value: T)

  /** Stands for Go's `(value, error)` results. */
  datatype Result<+T, +E> = Ok(value: T) | Err(error: E) {

    predicate IsFailure() {
      Err?
    }

    function PropagateFailure<U>(): Result<U, E>
      requires Err?
    {
      Err(error)
    }

    function Extract(): T
      requires Ok?
    {
      value
    }
  }
}
