/** Nullable values and error returns. */
module Wrappers {

  /** A nullable value: a database column that may hold NULL, or a lookup that may find nothing. */
  datatype Option<+T> = None | Some(value: T)

  /** The outcome of an operation whose failure path raises an error in the source. */
  datatype Result<+R, +E> = Success(value: R) | Failure(error: E)
}
