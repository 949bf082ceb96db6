/** Option and Result, the two failure-carrying datatypes the model uses for
    Python's `None` results and raised exceptions. */
module Wrappers {

  datatype Option<+T> = None | Some(value: T)

  /** `Err` stands for a Python exception that escapes the modelled function. */
  datatype Result<+T, +E> = Ok(value: T) | Err(error: E)
}
