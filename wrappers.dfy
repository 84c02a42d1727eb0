/** Small failure-carrying datatypes shared by every module. */
module Wrappers {

  datatype Option<+T> = None | Some(value: T)

  datatype Result<+T, +E> = Ok(value: T) | Err(error: E)

  /** The outcome of calling code that may raise a Python exception whose
      text the model does not track: either the value it returned, or the
      fact that it raised. */
  datatype Attempt<+T> = Returned(value: T) | Raised
}
