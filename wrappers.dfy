/** Failure-carrying result types shared by every module of the model. */
module Wrappers {

  /** A value that may be missing (a nil pointer, an absent map key, `token.NoPos`). */
  datatype Option<+T> = None | Some(value: T)

  /** The value/error pair that Go functions return. */
  datatype Result<+T, +E> = Ok(value: T) | Err(error: E) {
    predicate IsFailure() { Err? }

    function PropagateFailure<U>(): Result<U, E>
      requires Err?
    {
      Err(error)
    }

    function Extract(): T
      requires Ok?
    {
      value
    }
  }

  /** The bare `error` return of a Go function: nil (Pass) or an error value. */
  datatype Outcome<+E> = Pass | Fail(error: E)
}
