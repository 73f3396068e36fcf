/** Option and Result: the shapes in which the model reports the source's
    `Option`s and its `Err(..)` returns. */
module Wrappers {

  datatype Option<+T> = None | Some(value: T)

  datatype Result<+T, +E> = Ok(value: T) | Err(error: E)
}
