/** The two result shapes the history store needs: an optional value and the
    outcome of an operation that either succeeds or throws a message. */
module Wrappers {

  /** A value that may be missing (an optional field of a stored record, an
      optional daily target). */
  datatype Option<+T> = None | Some(value: T)

  /** The outcome of a store operation that can throw: the new stored value,
      or the message of the error it throws. */
  datatype Result<+R, +E> = Success(value: R) | Failure(error: E)
}
