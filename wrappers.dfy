/** The optional value used for Go's `error` results (nil or an error) and for notices. */
module Wrappers {

  datatype Option<+T> = None | Some(value: T)
}
