/** Option and Result values, and the kinds of exception the modelled code raises. */
module Wrappers {

  datatype Option<+T> = None | Some(value: T)

  /** The Python exception classes the modelled functions let escape. */
  datatype Error =
    | RuntimeError
    | ValueError
    | KeyError
    | TypeError
    | AttributeError
    | OverflowError

  datatype Result<+T> = Ok(value: T) | Err(error: Error)
}
