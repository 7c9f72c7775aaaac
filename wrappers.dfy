/** Optional values and error-or-value results, used for the nullable
    columns of a transaction record and for the processor's failure mode. */
module Wrappers {

  /** A cell that may be missing (pandas NaN / NaT / None). */
  datatype Option<+T> = None | Some(value: T) {
    /** The value, or `default` when the cell is missing (pandas `fillna`). */
    function GetOr(default: T): (v: T) {
      match this
      case Some(x) => x
      case None => default
    }
  }

  /** The outcome of an operation that either produces a value or raises. */
  datatype Result<+T, +E> = Success(value: T) | Failure(error: E)
}
