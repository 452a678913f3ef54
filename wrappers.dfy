/** Optional values and results with an error message, standing for Python's `None`
    and for an exception that a caller catches. */
module Wrappers {

  /** `None` is Python's `None`, or a dictionary key that is absent. */
  datatype Option<+T> = None | Some(value: T) {

    /** The value, or `default` when there is none (Python's `dict.get(key, default)`). */
    function GetOr(default: T): T {
      match this
      case Some(v) => v
      case None => default
    }
  }

  /** A value, or the message of the exception raised instead of computing it. */
  datatype Result<+T> = Success(value: T) | Failure(error: string)
}
