/** Wrappers shared by every module: optional values (Java nulls), the three
    exception kinds the services raise, and results that carry one of them. */
module Common {

  /** A nullable Java reference or boxed value. */
  datatype Option<T> = None | Some(value: T) {
    /** The value, or `default` when absent (the "keep the stored field" rule). */
    function GetOr(default: T): T {
      match this
      case Some(v) => v
      case None => default
    }
  }

  /** ValidationException (400), NoSuchElementException (404),
      ConflictException (409), and Internal for a runtime exception that no
      handler maps, such as a NullPointerException that escapes. */
  datatype Error = Validation | NotFound | Conflict | Internal

  datatype Result<T> = Ok(value: T) | Err(error: Error)

  function Min(a: int, b: int): int { if a <= b then a else b }

  function Max(a: int, b: int): int { if a <= b then b else a }
}
