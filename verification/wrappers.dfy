/** Failure-carrying datatypes used throughout the model: an absent Python value
    (`None`) becomes `Option.None`, and an exception the source raises becomes
    `Result.Failure`. */
module Wrappers {

  datatype Option<+T> = None | Some(value: T) {

    /** The wrapped value, or `default` when absent. */
    function GetOr(default: T): T {
      match this
      case Some(v) => v
      case None => default
    }
  }

  datatype Result<+R, +E> = Success(value: R) | Failure(error: E)
}
