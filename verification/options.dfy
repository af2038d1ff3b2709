/** Optional values: a JavaScript `null`/`undefined` result or a present value. */
module Options {

  datatype Option<+T> = None | Some(value: T)

  /** A successful reply or an HTTP error reply. */
  datatype Result<+T, +E> = Success(value: T) | Failure(error: E)
}
