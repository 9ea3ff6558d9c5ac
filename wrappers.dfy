/** Optional values, used where the source gets `undefined` back from `find`. */
module Wrappers {

  datatype Option<+T> = None | Some(value: T)
}
