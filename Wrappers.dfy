/** The optional value used by the configuration and the cloud records. */
module Wrappers {

  datatype Option<+T> = None | Some(value: T)
}
