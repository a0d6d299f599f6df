/** The optional value used for empty board cells and the empty hold slot. */
module Wrappers {

  datatype Option<+T> = None | Some(value: T)
}
