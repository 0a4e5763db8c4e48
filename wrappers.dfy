/// Option and Result types shared by the three tools.
module Wrappers {

  datatype Option<T> = None | Some(value: T)

  /** A Rust `Result<T, String>` (or `MyResult<T>`, whose boxed error is
      only ever shown through its message). */
  datatype Result<T> = Ok(value: T) | Err(error: string)
}
