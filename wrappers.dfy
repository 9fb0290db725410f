/** `Option` and `Result`, shared by every module of the model. */
module Wrappers {

  /** A value that may be absent: Python's `None`, a missing key, or pandas' NaN/NaT. */
  datatype Option<+T> = None | Some(value: T)
  {
    function GetOr(default: T): T
    {
      match this
      case Some(v) => v
      case None => default
    }
  }

  /** The outcome of an operation that the source lets raise an exception. */
  datatype Result<+T, +E> = Ok(value: T) | Err(error: E)
}
