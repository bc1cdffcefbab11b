/** Option and Result values used where the Python code returns `None` or raises. */
module Results {

  /** The conventional optional value: Python's `Optional[T]`. */
  datatype Option<+T> = None | Some(value: T) {

    /** The wrapped value, or `default` when there is none. */
    function GetOr(default: T): T {
      match this
      case Some(v) => v
      case None => default
    }
  }

  /** A value or the message of the exception the Python code would raise. */
  datatype Result<+T> = Ok(value: T) | Err(error: string)
}
