/** Optional values: a Python `None`-or-value variable, such as `match_c`. */
module Wrappers {

  datatype Option<T> = None | Some(value: T)
}
