/** Option, Result and Outcome: `Option` stands in for a Java reference that
    may be null, `Result` for a call that either returns a value or throws,
    and `Outcome` for a void call that may throw. */
module Wrappers {

  datatype Option<+T> = None | Some(value: T)

  datatype Result<+T, +E> = Success(value: T) | Failure(error: E)

  datatype Outcome<+E> = Pass | Fail(error: E)
}
