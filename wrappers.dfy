/** Optional values, used for JavaScript's `undefined`, `NaN` and "not found". */
module Wrappers {

  datatype Option<+T> = None | Some(value: T)
}
