/** The one shared datatype: a value that may be missing, standing for Go's nil values,
    `, ok` results and zero times. */
module Wrappers {

  datatype Option<+T> = None | Some(value: T)
}
