/** The optional value used wherever the C code has a pointer that may be NULL
    or a call that may fail. */
module Wrappers {
  datatype Option<+T> = None | Some(value: T)
}
