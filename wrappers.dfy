/** Option and Result, the failure-carrying types the rest of the model returns
    where the original program panics. */
module Wrappers {

  datatype Option<+T> = None | Some(value: T)

  datatype Result<+T, +E> = Ok(value: T) | Err(error: E)
}
