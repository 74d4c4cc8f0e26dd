/** The optional value used for the keyboard poll and for loader results. */
module Wrappers {

  datatype Option<+T> = None | Some(value: T)
}
