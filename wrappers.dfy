/** Optional values, for JavaScript's `undefined` (a field or a variable never
    assigned), and outcomes that may be an exception. */
module Wrappers {

  datatype Option<+T> = None | Some(value: T)

  datatype Result<+T> = Success(value: T) | Failure(error: string)
}
