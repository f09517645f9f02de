/** Optional values and results shared by the wiki page parsers. */
module Wrappers {

  /** A value that may be absent (JavaScript's null or undefined). */
  datatype Option<+T> = None | Some(value: T)

  /** The outcome of an operation that can throw. */
  datatype Result<+T> = Success(value: T) | Failure(error: string)
}
