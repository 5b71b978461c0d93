/** The optional value used for board cells and for the spot the food scan returns. */
module Wrappers {
  datatype Option<+T> = None | Some(value: T)
}
