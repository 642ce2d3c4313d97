/** Option and Result, as used by the argument parser model. */
module Wrappers {

  /** A value that may be absent: Ruby's `nil` is `None`. */
  datatype Option<+T> = None | Some(value: T)

  /** The outcome of an operation that may raise: `Err` carries the
      message of the `RuntimeError` that Ruby's `raise "..."` creates. */
  datatype Result<+T> = Ok(value: T) | Err(message: string)
}
