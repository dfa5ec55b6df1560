/** Failure-carrying result types shared by the modules of the model. */
module Wrappers {

  /** A value that may be absent: JavaScript's `null`, `undefined` or sentinel values. */
  datatype Option<T> = None | Some(value: T)

  /** The result of an operation that may throw; `error` is the thrown message. */
  datatype Result<T> = Success(value: T) | Failure(error: string)

  /** The result of an operation that returns nothing but may throw. */
  datatype Outcome = Pass | Fail(error: string)
}
