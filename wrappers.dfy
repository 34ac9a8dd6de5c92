/** Failure-carrying results shared by every processor of the model. */
module Wrappers {

  /** A value that may be absent: a regex match object or `None`, `dict.get` on a missing key. */
  datatype Option<+T> = None | Some(value: T)

  /** The value of a Python call that either returns or raises. */
  datatype Result<+T, +E> = Success(value: T) | Failure(error: E)
}
