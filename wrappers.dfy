/** Option and Result values used where the scripts return None or raise. */
module Wrappers {

  datatype Option<T> = None | Some(value: T)

  /** `Err` stands for an exception that escapes the modelled function. */
  datatype Result<T, E> = Ok(value: T) | Err(error: E)
}
