/** Optional values, used for "not found" results of the searches in this model. */
module Wrappers {

  datatype Option<+T> = None | Some(value: T)
}
