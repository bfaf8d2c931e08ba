/** Optional values: a missing spreadsheet cell, a failed parse, an absent match. */
module Wrappers {
  datatype Option<T> = None | Some(value: T)
}
