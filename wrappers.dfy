/** The outcome of a constructor that checks its arguments, and an optional value. */
module Wrappers {
  datatype Result<T> = Success(value: T) | Failure(error: string)

  datatype Option<T> = None | Some(value: T)
}
