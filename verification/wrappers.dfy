/** Failure-compatible results shared by every module of the model. */
module Wrappers {

  datatype Option<+T> = None | Some(value: T)

  /** The Python exceptions and process exits that the modelled code can raise. */
  datatype Error =
    | IndexError
    | ValueError(message: string)
    | SystemExit(code: int)

  datatype Result<+T> = Ok(value: T) | Err(error: Error)
}
