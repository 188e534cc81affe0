/** A value that may be missing: pandas' NaN / NaT become None. */
module Wrappers {
  datatype Option<+T> = None | Some(value: T)
}
