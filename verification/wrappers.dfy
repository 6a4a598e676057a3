/** Option and Result values shared by every module of the model. */
module Wrappers {

  datatype Option<+T> = None | Some(value: T)

  /** `Failure` carries the message of a Rust `panic!`/`unwrap()` failure or of an `Err`. */
  datatype Result<+T, +E> = Success(value: T) | Failure(error: E)

  /** The message of the panic raised by `unwrap` on `None`. */
  const Panic: string := "called `Option::unwrap()` on a `None` value"
}
