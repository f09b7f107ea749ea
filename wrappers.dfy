/** The optional value used wherever main.py returns None for "nothing there". */
module Wrappers {

  datatype Option<+T> = None | Some(value: T)
}
