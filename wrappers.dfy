/** The optional values of the source: `null`, `undefined` and a failed fetch all become None. */
module Wrappers {

  datatype Option<+T> = None | Some(value: T)
}
