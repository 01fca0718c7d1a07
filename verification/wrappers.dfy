/** Option and Result, the two wrappers the model uses for values that may be
    absent (a JavaScript NaN or `undefined`) and for operations that may throw. */
module Wrappers {

  datatype Option<+T> = None | Some(value: T)

  datatype Result<+R, +E> = Success(value: R) | Failure(error: E)
}
