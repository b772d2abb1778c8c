/** The optional value (`None` in Python) and the outcome of an operation that can raise. */
module Wrappers {
  datatype Option<T> = None | Some(value: T)

  /** `Err` carries the name of the Python exception the operation raises. */
  datatype Result<T> = Ok(value: T) | Err(error: string)
}
