/** Option and Result values standing in for Python's None and raised exceptions,
    and for JavaScript's null. */
module Wrappers {

  datatype Option<+T> = None | Some(value: T)

  datatype Result<+T, +E> = Success(value: T) | Failure(error: E)
}
