/** The optional value used wherever the modelled JavaScript gives back
    `undefined` or `NaN` instead of a value. */
module Wrappers {

  datatype Option<+T> = None | Some(value: T)
}
