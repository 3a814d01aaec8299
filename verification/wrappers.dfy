/** Optional values and results, used for PHP's `null` and for the error path of a division by zero. */
module Wrappers {

  datatype Option<+T> = None | Some(value: T)

  datatype Result<+T, +E> = Success(value: T) | Failure(error: E)
}
