/** Optional values (Java's Optional and nullable references) and results of
    operations that can fail with an exception. */
module Wrappers {

  datatype Option<+T> = None | Some(value: T) {
    /** The value if present, otherwise `default` (Java's Optional.orElse). */
    function GetOr(default: T): T {
      match this
      case Some(v) => v
      case None => default
    }
  }

  /** The outcome of a mutation: its payload, or the exception it throws. */
  datatype Result<+R, +E> = Success(value: R) | Failure(error: E)
}
