/** Error-carrying results, used wherever the C++ code throws. */
module Wrappers {
  datatype Option<T> = None | Some(value: T)

  /** The value a constructor or function returns, or the exception it throws. */
  datatype Result<T, E> = Success(value: T) | Failure(error: E)

  /** The outcome of a `void` operation that may throw. */
  datatype Outcome<E> = Pass | Fail(error: E)
}
