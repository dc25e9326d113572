/** An optional value and an operation outcome, shared by the course model. */
module Wrappers {

  /** An optional value: `None` stands for a field the caller left out (`undefined`). */
  datatype Option<+T> = None | Some(value: T)

  /** The outcome of an operation that either yields a value or fails with an error. */
  datatype Result<+T, +E> = Success(value: T) | Failure(error: E)
}
