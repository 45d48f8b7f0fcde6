/** Option and Result: the values "undefined" (NaN) and "raised an exception" in the model. */
module Wrappers {

  /** `None` stands for a value Python holds as NaN. */
  datatype Option<+T> = None | Some(value: T)

  /** `Err` stands for an exception that the Python code raises to its caller. */
  datatype Result<+T, +E> = Ok(value: T) | Err(error: E)
}
