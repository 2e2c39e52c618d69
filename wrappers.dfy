/** Optional values, standing in for Go's `(value, err)` pairs and for I/O that may fail. */
module Wrappers {

  datatype Option<+T> = None | Some(value: T)
}
