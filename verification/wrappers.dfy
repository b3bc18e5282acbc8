/** Failure-carrying datatypes shared by the rest of the model. */
module Wrappers {

  /** A value that may be missing; `None` stands for JavaScript's `undefined`. */
  datatype Option<+T> = None | Some(value: T)

  /** The outcome of an operation that may throw; `Failure` stands for a thrown error. */
  datatype Result<+T> = Success(value: T) | Failure(error: string)
}
