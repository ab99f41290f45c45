/** Failure-carrying result types shared by every module of the model.
    `Result` mirrors Rust's `Result<T, E>`; `Option` mirrors `Option<T>`. */
module Wrappers {

  datatype Option<+T> = None | Some(value: T)

  datatype Result<+T, +E> = Ok(value: T) | Err(error: E)
}
