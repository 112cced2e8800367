/** Value-level stand-ins for Python's None and for the exceptions the
    services raise, so that every failure path is an ordinary value. */
module Results {

  /** Python's `Optional[T]`: a value or `None`. */
  datatype Option<+T> = None | Some(value: T)

  /** The outcome of a call that either returns or raises. */
  datatype Result<+T, +E> = Ok(value: T) | Err(error: E)

  /** The exception classes the back end raises and catches, each carrying
      the text that `str(e)` yields. */
  datatype Exception =
    | ValueError(message: string)
    | RuntimeError(message: string)
    | HttpException(status: int, detail: string)
}
