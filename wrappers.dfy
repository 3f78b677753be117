/** Optional values and results with an error, as used by the contact endpoint's model. */
module Wrappers {

  /** A value that may be absent: a missing header, a missing field, an unset variable. */
  datatype Option<T> = None | Some(value: T)

  /** Either a value or the reason there is none. */
  datatype Result<T, E> = Success(value: T) | Failure(error: E)
}
