/** Outcomes and optional values. */
module Wrappers {
  datatype Result<+T> = Ok(value: T) | Err
  datatype Option<+T> = None | Some(value: T)
}
