/** Values for absence and failure, and the byte strings every module shares. */
module Wrappers {
  datatype Option<+T> = None | Some(value: T)

  datatype Result<+T, +E> = Success(value: T) | Failure(error: E)

  type Bytes = seq<bv8>
}
