/** The failure-carrying values shared by all modules. */
module Wrappers {

  datatype Option<+T> = None | Some(value: T)

  datatype Result<+T, +E> = Ok(value: T) | Err(error: E)

  /** Wire values. */
  type Bytes = seq<bv8>
}
