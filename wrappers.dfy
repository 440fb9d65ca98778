/** Optional values, used for Python's `None` and for a lookup that may fail. */
module Wrappers {

  datatype Option<+T> = None | Some(value: T)
}
