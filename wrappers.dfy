/** Optional values: JavaScript's `undefined` and "no match". */
module Wrappers {
  datatype Option<+T> = None | Some(value: T)
}
