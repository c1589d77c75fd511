/** Failure-carrying values used across the model.
    The converter signals failure with Python exceptions; the model returns
    them as values so that every error path is visible in a contract. */
module Results {

  /** The two Python exceptions the modelled code can raise. */
  datatype Error =
    | ValueError(missing: string)  // `list.index` found no equal element
    | IndexError                   // a list was indexed out of range

  /** The value of a computation that can raise. */
  datatype Result<+T> = Ok(value: T) | Err(error: Error) {
    predicate IsFailure() {
      Err?
    }

    function PropagateFailure<U>(): Result<U>
      requires Err?
    {
      Err(error)
    }

    function Extract(): T
      requires Ok?
    {
      value
    }
  }

  /** A value that may be absent (Python's `None`). */
  datatype Option<+T> = None | Some(value: T)
}
