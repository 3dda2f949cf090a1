/** Optional values and success-or-failure results, shared by the other modules. */
module Wrappers {

  /** A value that may be missing (a field absent from a JSON body). */
  datatype Option<+T> = None | Some(value: T) {

    /** The value, or `default` when it is missing (JavaScript's `x || default` on an absent field). */
    function GetOr(default: T): (r: T)
      ensures Some? ==> r == value
      ensures None? ==> r == default
    {
      match this
      case Some(v) => v
      case None => default
    }
  }

  /** The outcome of an operation that either returns a value or raises an error. */
  datatype Result<+R, +E> = Success(value: R) | Failure(error: E)
}
