/** The usual optional-value datatype, used for "no card is being dragged"
    and for text that does not parse. */
module Wrappers {
  datatype Option<+T> = None | Some(value: T)
}
