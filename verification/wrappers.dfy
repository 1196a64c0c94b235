/** The optional value used for the harness's `None`-able product fields. */
module Wrappers {

  datatype Option<+T> = None | Some(value: T)
}
