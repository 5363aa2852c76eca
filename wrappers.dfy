/** Option and Result, the two sum types the Rust code uses for absent values and errors. */
module Wrappers {
  datatype Option<T> = None | Some(value: T)

  datatype Result<T, E> = Ok(value: T) | Err(error: E)
}
