/** Types and constants shared by all modules. */
module Common {

  datatype Option<+T> = None | Some(value: T)

  /** The result of an operation that can fail with an error. */
  datatype Outcome<+T, +E> = Ok(value: T) | Err(error: E)

  type Address = string

  const TWO_64: int := 0x1_0000_0000_0000_0000
}
