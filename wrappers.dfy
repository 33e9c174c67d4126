/** Optional and failure-carrying results, used for the values the rules return
    in place of Python's `None`/`False` and the exceptions they raise. */
module Wrappers {

  datatype Option<+T> = None | Some(value: T)

  datatype Result<+R, +E> = Success(value: R) | Failure(error: E)
}
