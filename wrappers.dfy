/** Optional values and success-or-failure results, used where the
    connector either has no value (Python's None) or raises. */
module Wrappers {

  datatype Option<+T> = None | Some(value: T)

  datatype Result<+R, +E> = Success(value: R) | Failure(error: E)
}
