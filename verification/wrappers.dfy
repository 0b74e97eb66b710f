/** The optional value used wherever the script tests a variable against
    `null` or reads a property that may be missing. */
module Wrappers {

  datatype Option<+T> = None | Some(value: T)

}
