/** Optional values: a form field that is empty or does not parse, a lookup that finds nothing. */
module Wrappers {

  datatype Option<+T> = None | Some(value: T)
}
