/** Wrappers: `Option` stands for a missing value (pandas NaN,
    JavaScript `undefined`), `Result` for an operation that can fail with an error. */
module Wrappers {

  datatype Option<+T> = None | Some(value: T)

  datatype Result<+R, +E> = Success(value: R) | Failure(error: E)
}
