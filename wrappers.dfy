/** Small helper datatype shared by the model. */
module Wrappers {

  /** A value that may be absent, as a JSON body field that was not sent. */
  datatype Option<+T> = None | Some(value: T)
}
