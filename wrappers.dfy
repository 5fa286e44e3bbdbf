/**
  Optional values, the model's stand-in for JavaScript's `undefined`, and
  results, its stand-in for a call that may throw.
*/
module Wrappers {

  datatype Option<+T> = None | Some(value: T) {

    /** The wrapped value, or `default` when there is none. */
    function GetOr(default: T): T {
      match this
      case Some(v) => v
      case None => default
    }
  }

  /** A value, or the message of the error thrown instead. */
  datatype Result<+T> = Success(value: T) | Failure(error: string)
}
