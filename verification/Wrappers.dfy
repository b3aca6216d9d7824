/** A value that may be absent: the nil pointers, missing keys and second `ok` results of the program. */
module Wrappers {
  datatype Option<+T> = None | Some(value: T)
}
