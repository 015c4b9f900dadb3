/** The optional value used wherever the program can refuse an input. */
module Wrappers {
  datatype Option<+T> = None | Some(value: T)
}
