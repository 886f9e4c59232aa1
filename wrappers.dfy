/** The optional value used for JSON fields that may be absent and for a number parse that may fail. */
module Wrappers {
  datatype Option<+T> = None | Some(value: T)
}
