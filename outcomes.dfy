/** The outcome of an operation that can raise a validation error: the
    error carries the message the user sees. */
module Outcomes {

  datatype Option<T> = None | Some(value: T)

  datatype Result<T> = Ok(value: T) | Err(msg: string)
}
