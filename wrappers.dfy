/** The optional value used for request parameters that may be absent
    and for parses and samples that may fail. */
module Wrappers {

  datatype Option<+T> = None | Some(value: T)
}
