/**
 Failure-carrying datatypes shared by every module of the model: an optional
 value, as JavaScript's `undefined`, and the success-or-error result of a
 request handler.
 */
module Wrappers {

  /** A value that may be absent (`undefined` or `null` in the source). */
  datatype Option<T> = None | Some(value: T) {

    /** The value, or `default` when absent (the source's `x || default` on objects). */
    function GetOr(default: T): T {
      match this
      case Some(v) => v
      case None => default
    }
  }

  /** The outcome of a handler: the new state, or the error the client is sent. */
  datatype Result<T, E> = Success(value: T) | Failure(error: E)
}
