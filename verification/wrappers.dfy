/** A value or nothing, and a value or what the program throws instead. */
module Wrappers {

  datatype Option<V> = None | Some(value: V)

  datatype Result<V> = Ok(value: V) | Err(message: string)
}
