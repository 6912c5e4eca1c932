/** Optional values and fallible results, shared by every module. */
module Wrappers {
  datatype Option<+T> = None | Some(value: T)

  function GetOr<T>(o: Option<T>, other: T): T {
    if o.Some? then o.value else other
  }

  datatype Result<+T, +E> = Success(value: T) | Failure(error: E)
}
