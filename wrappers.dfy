/** Option and Result, the two wrappers the model uses for "no match" and for
    the module's failures. */
module Wrappers {

  datatype Option<+T> = None | Some(value: T)

  datatype Result<+T, +E> = Ok(value: T) | Err(error: E)
}
