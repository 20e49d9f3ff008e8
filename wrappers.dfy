/** The optional value used for decodings that can fail. */
module Wrappers {

  datatype Option<+T> = None | Some(value: T)
}
