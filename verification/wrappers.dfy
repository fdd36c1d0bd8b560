/** Option and Result: the absent value (JavaScript `undefined` / `null`)
    and the thrown error of the factory, as plain datatypes. */
module Wrappers {

  datatype Option<+T> = None | Some(value: T)

  datatype Result<+R, +E> = Success(value: R) | Failure(error: E)
}
