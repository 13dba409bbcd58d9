/** The two result types the source's multiple returns become. */
module Wrappers {
  datatype Option<+T> = None | Some(value: T)

  /** A value or the source's non-nil error. */
  datatype Result<+T> = Ok(value: T) | Failed
}
