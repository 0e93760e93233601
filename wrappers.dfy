/** Success/failure carriers used in place of the script's exceptions and
    optional arguments. */
module Wrappers {

  datatype Option<+T> = None | Some(value: T)

  /** `Ok` carries the returned value, `Err` the error the script would raise. */
  datatype Result<+T, +E> = Ok(value: T) | Err(error: E)
}
