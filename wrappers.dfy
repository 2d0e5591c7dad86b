/** Optional values (Java's nullable references) and results with an error value (Java's exceptions). */
module Wrappers {

  datatype Option<+T> = None | Some(value: T)

  datatype Result<+R, +E> = Success(value: R) | Failure(error: E)
}
