/** A value that may be absent: a field left unset, or a lookup that finds nothing. */
module Wrappers {

  datatype Option<+T> = None | Some(value: T)
}
