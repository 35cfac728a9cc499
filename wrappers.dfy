/** Optional values: PHP's nullable columns and return types. */
module Wrappers {

  datatype Option<+T> = None | Some(value: T)
}
