/** Failure-carrying wrappers shared by the rest of the model: `Option` stands
    for a JavaScript value that may be `null`, `Result` for a promise that
    either resolves with a value or rejects with an error. */
module Outcomes {

  datatype Option<+T> = None | Some(value: T)

  datatype Result<+T, +E> = Ok(value: T) | Err(error: E)
}
