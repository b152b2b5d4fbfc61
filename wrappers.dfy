/** Option and Result, the two failure-carrying wrappers the model uses. */
module Wrappers {

  /** Swift's optional: `nil` is None. */
  datatype Option<+T> = None | Some(value: T) {

    /** `x ?? default` */
    function GetOr(default: T): T {
      match this
      case Some(v) => v
      case None => default
    }
  }

  /** The value of a call that may throw; `Failure` carries the error's description. */
  datatype Result<+R, +E> = Success(value: R) | Failure(error: E)
}
