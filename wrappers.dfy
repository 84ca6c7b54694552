/** The optional value used wherever the source returns a null address or an invalid Qt value. */
module Wrappers {

  datatype Option<+T> = None | Some(value: T)
}
