/** Optional values and results, used where the source returns `false`
    and leaves an out-parameter untouched, or throws. */
module Wrappers {

  datatype Option<+T> = None | Some(value: T)

  datatype Result<+T, +E> = Success(value: T) | Failure(error: E)
}
