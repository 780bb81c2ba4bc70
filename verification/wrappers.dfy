/** Option and Result datatypes shared by the other modules. */
module Wrappers {

  /** A value that may be absent; stands for a Java reference that may be null. */
  datatype Option<+T> = None | Some(value: T)

  /** Either a value or an error; stands for a Java method that may throw. */
  datatype Result<+R, +E> = Success(value: R) | Failure(error: E)
}
