/** `Option` and `Result`, shared by the other modules. */
module Wrappers {

  /** An optional value; each use says which JavaScript value `None` stands for. */
  datatype Option<+T> = None | Some(value: T)

  /** The outcome of an operation that either yields a value or throws. */
  datatype Result<+T, +E> = Success(value: T) | Failure(error: E)
}
