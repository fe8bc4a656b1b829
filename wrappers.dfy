/** The optional value shared by the cipher, the frame and the codecs. */
module Wrappers {
  datatype Option<T> = None | Some(value: T)
}
