/** The optional result used where the source returns NaN: `None` is "no reading". */
module Wrappers {

  datatype Option<+T> = None | Some(value: T)
}
