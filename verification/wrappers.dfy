/** Failure-compatible optional values, used for map lookups and for parsers that can fail. */
module Wrappers {

  datatype Option<+T> = None | Some(value: T)
}
