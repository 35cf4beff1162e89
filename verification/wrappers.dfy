/** Python's `None` becomes `Option.None`; an exception that escapes a
    parsing routine becomes `Result.Failure` carrying what was raised. */
module Wrappers {

  datatype Option<+T> = None | Some(value: T)

  datatype Result<+R, +E> = Success(value: R) | Failure(error: E)
}
