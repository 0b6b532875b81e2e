/** Optional values: a tk variable that cannot be read, a value not yet set. */
module Wrappers {

  datatype Option<+T> = None | Some(value: T)

}
