/** Optional values, used where the source may produce nothing or fail. */
module Wrappers {

  datatype Option<+T> = None | Some(value: T)
}
