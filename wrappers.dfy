/** The optional value used throughout the model for "no match" and "no parse". */
module Wrappers {
  datatype Option<+T> = None | Some(value: T)
}
