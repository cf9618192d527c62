/** Failure-compatible wrappers shared by the other modules. */
module Wrappers {

  /** An optional value: Python's `None` versus a present value. */
  datatype Option<+T> = None | Some(value: T)

  /** The outcome of a computation that may raise: the raised exception is
      kept only as a short description. */
  datatype Result<+T> = Success(value: T) | Failure(error: string)
  {
    predicate IsFailure() { Failure? }

    function PropagateFailure<U>(): Result<U>
      requires Failure?
    {
      Failure(error)
    }

    function Extract(): T
      requires Success?
    {
      value
    }
  }
}
