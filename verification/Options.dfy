/** The two small wrappers every other module shares. */
module Options {

  /** A value that may be absent: SQL NULL, a missing keyword, a missing key. */
  datatype Option<+T> = None | Some(value: T)

  /** The outcome of an operation of the system that may raise. */
  datatype Result<+T> = Ok(value: T) | Raised
}
