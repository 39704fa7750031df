/** Optional values: the outcome of a validation rule and of a lookup that can miss. */
module Wrappers {

  datatype Option<+T> = None | Some(value: T)

}
