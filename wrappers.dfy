/** Option and Result, used for JavaScript's `undefined`/`null` and for thrown errors. */
module Wrappers {

  datatype Option<+T> = None | Some(value: T)

  /** A promise that resolves with `value` or rejects with the message `error`. */
  datatype Result<+R, +E> = Success(value: R) | Failure(error: E)
}
