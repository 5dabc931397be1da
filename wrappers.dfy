/** Option, Result and Outcome: absence (Ruby's nil), a value or a raised error, and
    a step that either passes or raises. */
module Wrappers {

  datatype Option<+T> = None | Some(value: T)

  /** A computation that returns a value or raises; usable with `:-`. */
  datatype Result<+T, +E> = Success(value: T) | Failure(error: E) {
    predicate IsFailure() {
      Failure?
    }

    function PropagateFailure<U>(): Result<U, E>
      requires Failure?
    {
      Failure(error)
    }

    function Extract(): T
      requires Success?
    {
      value
    }
  }

  /** A check that passes or raises; a chain of checks stops at the first that raises. */
  datatype Outcome<+E> = Pass | Fail(error: E) {
    function Then(next: Outcome<E>): Outcome<E> {
      if Pass? then next else this
    }
  }
}
