/** Optional values, and outcomes of steps that may end the run in a panic. */
module Wrappers {

  datatype Option<+T> = None | Some(value: T)

  /** The result of a step of a component whose source may panic or block for ever. */
  datatype Outcome<+T, +P> = Ok(value: T) | Panic(why: P) {

    predicate IsFailure() {
      Panic?
    }

    function PropagateFailure<U>(): (r: Outcome<U, P>)
      requires Panic?
    {
      Panic(why)
    }

    function Extract(): T
      requires Ok?
    {
      value
    }
  }

  datatype Result<+T, +E> = Success(value: T) | Failure(error: E) {

    predicate IsFailure() {
      Failure?
    }

    function PropagateFailure<U>(): (r: Result<U, E>)
      requires Failure?
    {
      Failure(error)
    }

    function Extract(): T
      requires Success?
    {
      value
    }
  }
}
