/** Optional values and results, used for the absent fields and error paths of
    the request handlers. */
module Wrappers {

  /** An optional value: `None` stands for a field that is `undefined` or `null`. */
  datatype Option<+T> = None | Some(value: T)

  /** A handler outcome: a value, or an HTTP status with the `error` text the
      handler answers with. */
  datatype Result<+T> = Ok(value: T) | Err(status: int, error: string)
}
