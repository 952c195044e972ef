/** Optional values and results that carry the error a JavaScript function throws. */
module Outcome {

  /** A value that may be absent: `undefined`, `null` or a missing property. */
  datatype Option<+T> = None | Some(value: T)
  {
    function GetOr(default: T): T
    {
      match this
      case Some(v) => v
      case None => default
    }
  }

  /** The outcome of a routine that either completes or throws. */
  datatype Result<+T, +E> = Ok(value: T) | Err(error: E)
}
