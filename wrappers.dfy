/** The optional value used for the scan queue's items: `None` is the end
    marker the producer puts after the last image. */
module Wrappers {
  datatype Option<+T> = None | Some(value: T)
}
