/** Optional values and results with an error: the stock wrappers the model is written with. */
module Wrappers {

  /** A value that may be absent (Python's `None`, a missing key, a failed parse). */
  datatype Option<T> = None | Some(value: T) {

    /** The wrapped value, or `default` when there is none (`d.get(key, default)`). */
    function GetOr(default: T): T {
      match this
      case Some(v) => v
      case None => default
    }
  }

  /** Either a value or the exception that stopped the computation. */
  datatype Result<T, E> = Ok(value: T) | Err(error: E)
}
