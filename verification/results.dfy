/** Failure-compatible wrappers used throughout the model: `Option` stands for
    a Java reference that may be null, `Result` for a call that either returns
    a value or throws. Both work with Dafny's `:-` operator. */
module Results {

  /** A possibly-null reference. */
  datatype Option<+T> = None | Some(value: T)

  /** A call that returns `value` or fails with `error`. */
  datatype Result<+T, +E> = Ok(value: T) | Err(error: E) {

    predicate IsFailure() {
      Err?
    }

    function PropagateFailure<U>(): Result<U, E>
      requires Err?
    {
      Err(error)
    }

    function Extract(): T
      requires Ok?
    {
      value
    }
  }
}
