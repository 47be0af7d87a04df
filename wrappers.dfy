/** The absent-or-present result that the schema lookups return instead of raising. */
module Wrappers {

  datatype Option<+T> = None | Some(value: T)
}
