/** Results and options used by every component of the model. */
module Prelude {
  datatype Option<+T> = None | Some(value: T)

  /** A thrown error is an `Err`, which `:-` passes on; a normal return is an `Ok`. */
  datatype Result<+T, +E> = Ok(value: T) | Err(error: E) {
    predicate IsFailure() {
      Err?
    }

    function PropagateFailure<U>(): Result<U, E>
      requires Err?
    {
      Err(error)
    }

    function Extract(): T
      requires Ok?
    {
      value
    }
  }
}
