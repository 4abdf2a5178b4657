/** Option and Result, the two wrappers the Rust code returns (`Option<&T>`, `Result<T, E>`). */
module Common {

  datatype Option<+T> = None | Some(value: T)

  datatype Result<+T, +E> = Ok(value: T) | Err(error: E)
}
