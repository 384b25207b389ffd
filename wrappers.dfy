/** Results of operations that can fail. Every `throw std::runtime_error(msg)`
    of the C++ code becomes a `Fail(msg)` carrying the same message. */
module Wrappers {

  datatype Option<T> = None | Some(value: T)

  /** The outcome of a void C++ function that may throw. */
  datatype Outcome = Pass | Fail(error: string)
  {
    predicate IsFailure() { Fail? }
  }

  /** The outcome of a C++ function that returns a value or throws. */
  datatype Result<T> = Success(value: T) | Failure(error: string)
  {
    predicate IsFailure() { Failure? }
  }
}
