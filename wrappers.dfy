/** The optional-value type used for C's nullable results and for console
    queries that may fail. */
module Wrappers {

  datatype Option<+T> = None | Some(value: T)
}
