/** Optional values: a missing cell (NaN / NaT) of a table column is None. */
module Wrappers {

  datatype Option<+T> = None | Some(value: T)
}
