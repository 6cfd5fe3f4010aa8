/** Results that carry the scripts' input errors and absent values. */
module Outcomes {
  datatype Result<+T> = Ok(value: T) | Err

  datatype Option<+T> = None | Some(value: T)
}
