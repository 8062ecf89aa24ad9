/** Optional values, used where the source reads a property that may be absent. */
module Wrappers {

  datatype Option<+T> = None | Some(value: T)

}
