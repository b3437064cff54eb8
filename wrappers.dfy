/** Optional values and error-carrying results, used where the source
    returns `null`/`undefined` or throws an `Error`. */
module Wrappers {

  datatype Option<+T> = None | Some(value: T)

  datatype Result<+R, +E> = Success(value: R) | Failure(error: E)
}
