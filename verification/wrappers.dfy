/** Failure-carrying values used throughout the model: `Option` for a lookup
    or computation that may produce nothing, `Result` for a command handler
    that either succeeds with a new state or reports why it refused. */
module Wrappers {

  datatype Option<+T> = None | Some(value: T)

  datatype Result<+T, +E> = Ok(value: T) | Err(error: E)
}
