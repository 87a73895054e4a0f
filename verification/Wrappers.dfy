/** Result shapes and the counting of conditions, shared by the modules. */
module Wrappers {
  datatype Option<+T> = None | Some(value: T)

  datatype Result<+T, +E> = Ok(value: T) | Err(error: E)

  /** One for a condition that holds, none otherwise. */
  function Bit(b: bool): nat {
    if b then 1 else 0
  }
}
