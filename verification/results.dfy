/** Failure-compatible wrappers used throughout the model.

    - Option<T> stands for a Python value that may be `None`.
    - Result<T, E> stands for a call that either returns a value or raises
      an exception of type E.
    - Outcome<E> stands for a call that returns nothing or raises E
      (the shape of `startup_error_if`).
 */
module Results {

  datatype Option<+T> = None | Some(value: T)

  datatype Result<+T, +E> = Ok(value: T) | Err(error: E) {

    predicate IsFailure() {
      Err?
    }

    function PropagateFailure<U>(): Result<U, E>
      requires Err?
    {
      Err(error)
    }

    function Extract(): T
      requires Ok?
    {
      value
    }
  }

  datatype Outcome<+E> = Pass | Fail(error: E) {

    predicate IsFailure() {
      Fail?
    }

    /** A raised error aborts the enclosing computation with the same error. */
    function PropagateFailure<U>(): Result<U, E>
      requires Fail?
    {
      Err(error)
    }
  }
}
