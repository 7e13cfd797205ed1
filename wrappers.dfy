/** Optional values, standing for Python's `None` where a function may return nothing. */
module Wrappers {
  datatype Option<T> = None | Some(value: T)
}
