/** Failure-compatible wrappers used across the model: an optional value
    (Go's "comma ok" lookups, an absent cookie) and a result that is either
    a value or the message of a fatal error. */
module Wrappers {

  datatype Option<+T> = None | Some(value: T)

  datatype Result<+T> = Success(value: T) | Failure(message: string) {
    predicate IsFailure() { Failure? }

    function PropagateFailure<U>(): Result<U>
      requires Failure?
    {
      Failure(message)
    }

    function Extract(): T
      requires Success?
    {
      value
    }
  }
}
