/** Option and Result for the script's dictionary lookups and the exceptions it can raise. */
module Wrappers {

  /** A value that may be missing: the outcome of a dictionary lookup. */
  datatype Option<+T> = None | Some(value: T)

  /** Either a computed value or the error that stopped the computation. */
  datatype Result<+T, +E> = Ok(value: T) | Err(error: E)
}
