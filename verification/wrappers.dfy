/** Optional values and failure-carrying results, standing in for the
    `null` / `undefined` values and thrown exceptions of the modelled code. */
module Wrappers {

  /** `None` plays the part of JavaScript's `null` / `undefined` (and of `NaN`
      where a number may fail to parse). */
  datatype Option<+T> = None | Some(value: T) {

    /** The wrapped value, or `default` when there is none. */
    function GetOr(default: T): T {
      match this
      case Some(v) => v
      case None => default
    }
  }

  /** `Failure` stands for an exception that escapes the modelled function. */
  datatype Result<+T, +E> = Success(value: T) | Failure(error: E)
}
