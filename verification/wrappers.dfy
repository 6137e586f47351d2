/** The Some/None datatype used for readings that may be missing and for
    files that may be absent. */
module Wrappers {

  datatype Option<+T> = None | Some(value: T)
}
