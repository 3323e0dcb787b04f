/** Option and Result, the two failure-carrying types the interpreter uses.
    Every error of the system is a human-readable string. */
module Wrappers {

  datatype Option<+T> = None | Some(value: T)

  datatype Result<+T> = Ok(value: T) | Err(error: string)
}
