/** Failure-compatible wrappers used throughout the model: `Option` for a
    decode that may not match, `Result` for an instruction step that may
    stop the machine. */
module Results {

  datatype Option<+T> = None | Some(value: T)

  /** The outcome of a machine operation: a value, or the reason the machine
      stopped. Usable with `:-`. */
  datatype Result<+T, +E> = Ok(value: T) | Err(error: E) {

    predicate IsFailure() {
      Err?
    }

    function PropagateFailure<U>(): Result<U, E>
      requires Err?
    {
      Err(error)
    }

    function Extract(): T
      requires Ok?
    {
      value
    }
  }
}
