/** Failure-carrying values shared by the modules of this model. */
module Wrappers {

  /** A value that may be absent: a missing table cell, a failed search. */
  datatype Option<+T> = None | Some(value: T)

  /** The outcome of an HTTP handler: a JSON body or an error with its status code. */
  datatype Result<+R, +E> = Success(value: R) | Failure(error: E)
}
