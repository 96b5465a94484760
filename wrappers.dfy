/** Optional values and results shared by the other modules. */
module Wrappers {

  /** An optional value: a Python dict entry that may be missing, or `None`. */
  datatype Option<+T> = None | Some(value: T)

  /** The value an operation returns, or the exception it raises. */
  datatype Result<+T, +E> = Success(value: T) | Failure(error: E)
}
