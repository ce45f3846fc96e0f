/** Optional values: Python's None, a missing dictionary key, a SQL NULL,
    and the outcome of a library call that may raise. */
module Wrappers {

  datatype Option<+T> = None | Some(value: T)
}
