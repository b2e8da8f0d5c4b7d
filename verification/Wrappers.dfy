/** Shared result types. */
module Wrappers {
  datatype Option<+T> = None | Some(value: T)

  /** How a Rust call ends: `Ok`, `Err`, or a panic. */
  datatype Outcome<+T, +E> = Ok(value: T) | Err(error: E) | Crash {
    predicate IsFailure() { !Ok? }

    function PropagateFailure<U>(): Outcome<U, E>
      requires IsFailure()
    {
      match this
      case Err(e) => Err(e)
      case Crash => Crash
    }

    function Extract(): T
      requires Ok?
    {
      value
    }
  }
}
