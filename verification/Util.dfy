/** Result shapes shared by every component of the model. */
module Util {
  datatype Option<+T> = None | Some(value: T)

  type Positive = n: nat | n > 0 witness 1

  datatype Result<+T, +E> = Ok(value: T) | Err(error: E)
}
