/** Optional values: Python's None and JavaScript's null/undefined become None. */
module Wrappers {

  datatype Option<+T> = None | Some(value: T)
}
