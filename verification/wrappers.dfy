/** Optional values and results with an error: the shapes the Java code expresses with
    `null` references and thrown exceptions. */
module Wrappers {

  /** A value that may be absent (a Java reference that may be `null`). */
  datatype Option<+T> = None | Some(value: T)

  /** Either a value or the error that stopped its computation (a thrown exception). */
  datatype Result<+T, +E> = Ok(value: T) | Err(error: E)
}
