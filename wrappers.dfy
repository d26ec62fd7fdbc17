/** The optional value used wherever the program uses `None` or signals "not found". */
module Wrappers {

  datatype Option<+T> = None | Some(value: T)
}
