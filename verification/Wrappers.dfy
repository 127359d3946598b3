/** Absent values and refusals without a reason. */
module Wrappers {
  datatype Option<T> = None | Some(value: T)
  datatype Result<T> = Ok(value: T) | Err
}
