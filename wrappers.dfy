/** Optional values, standing for Python's `None` / value pairs. */
module Wrappers {

  datatype Option<+T> = None | Some(value: T)
}
