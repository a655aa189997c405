/** Optional values and results with an error, shared by every module. */
module Wrappers {

  /** A value that may be absent: pandas' NaN/NaT/NA and Python's None. */
  datatype Option<+T> = None | Some(value: T) {
    function GetOr(default: T): T {
      match this
      case Some(v) => v
      case None => default
    }
  }

  /** The outcome of a step that can raise. */
  datatype Result<+R, +E> = Success(value: R) | Failure(error: E)
}
