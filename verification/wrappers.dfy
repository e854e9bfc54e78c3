/** Optional values and exception-carrying results.

    `Option` stands for Python's `Optional[...]` (None or a value);
    `Result` stands for a computation that either returns a value or raises
    an exception whose message is `error`. */
module Wrappers {

  datatype Option<+T> = None | Some(value: T)

  datatype Result<+R, +E> = Success(value: R) | Failure(error: E)
}
