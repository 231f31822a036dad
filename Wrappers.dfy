/** Option and Result, used for the lookups that can miss and for the
    errors the extraction raises. */
module Wrappers {

  datatype Option<+T> = None | Some(value: T)

  datatype Result<+T, +E> = Ok(value: T) | Err(error: E)
}
