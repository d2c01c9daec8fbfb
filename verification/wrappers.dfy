/** The optional value used wherever the analysis leaves a quantity undefined
    (Python's `None`). */
module Wrappers {

  datatype Option<+T> = None | Some(value: T)
}
