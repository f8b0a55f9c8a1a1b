/** Optional values and results shared by every module of the model. */
module Wrappers {

  /** A Java reference that may be null: `None` stands for null. */
  datatype Option<+T> = None | Some(value: T) {
    function GetOr(default: T): T {
      match this
      case Some(v) => v
      case None => default
    }
  }

  /** The Java exceptions the modelled code throws or lets escape. */
  datatype Exception =
    | IllegalStateException
    | IllegalArgumentException
    | IndexOutOfBoundsException
    | NumberFormatException
    | NullPointerException
    | UnsupportedOperationException
    | CacheException
    | ClassCastException
    | DeserializationError
    /** No cache node answers at the address a stub points to (a transport failure). */
    | Unavailable

  /** The outcome of a call that either returns normally or throws. */
  datatype Result<+T> = Ok(value: T) | Err(error: Exception)
}
