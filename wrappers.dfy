/** Optional values: `None` stands for a missing value (pandas' NaN, an absent key). */
module Wrappers {

  datatype Option<+T> = None | Some(value: T) {

    /** The wrapped value, or `default` when there is none. */
    function GetOr(default: T): T {
      match this
      case Some(v) => v
      case None => default
    }
  }

  /** A value or an error message, for the source's early error returns. */
  datatype Result<+R> = Success(value: R) | Failure(error: string)
}
