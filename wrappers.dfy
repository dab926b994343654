/** Optional values, used for absent dictionary keys and for failed decodes. */
module Wrappers {

  datatype Option<+T> = None | Some(value: T)
}
