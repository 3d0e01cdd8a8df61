/** Optional values, standing for JavaScript's `undefined` results of lookups and `find`. */
module Wrappers {
  datatype Option<+T> = None | Some(value: T)
}
