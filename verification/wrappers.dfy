/** Optional values: a text field that did or did not parse as a number. */
module Wrappers {

  datatype Option<+T> = None | Some(value: T)
}
