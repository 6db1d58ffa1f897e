/** Small value wrappers shared by every part of the recipe model. */
module Wrappers {

  /** A value that may be missing: JavaScript's `null`/`undefined`. */
  datatype Option<+T> = None | Some(value: T)

  /** The outcome of an asynchronous request or observable: it either delivers
      a value or fails with a transport or deserialisation error. */
  datatype Reply<+T> = Delivered(value: T) | Failed
}
