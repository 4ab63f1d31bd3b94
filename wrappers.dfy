/** Option and Result, the failure-carrying datatypes the model uses for
    JavaScript's `undefined`/`NaN` values and for thrown errors. */
module Wrappers {

  datatype Option<+T> = None | Some(value: T)

  datatype Result<+T, +E> = Ok(value: T) | Err(error: E)
}
