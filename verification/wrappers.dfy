/** Optional values, used where the service works with "a value or nothing". */
module Wrappers {

  datatype Option<+T> = None | Some(value: T)
}
