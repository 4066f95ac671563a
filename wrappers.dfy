/** Optional values, used for absent keys and for input that does not decode. */
module Wrappers {

  datatype Option<+T> = None | Some(value: T)
}
