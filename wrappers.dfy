/** Optional values (Swift's `T?`) and success-or-error results (Combine's
    success/failure completion of a publisher). */
module Wrappers {

  datatype Option<T> = None | Some(value: T) {
    /** Swift's `x ?? default`. */
    function GetOr(default: T): T {
      match this
      case Some(v) => v
      case None => default
    }
  }

  datatype Result<T, E> = Ok(value: T) | Err(error: E)
}
