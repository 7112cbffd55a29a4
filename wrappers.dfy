/** The optional-value wrapper the rest of the model uses for JavaScript's `null`, `undefined` and `NaN`. */
module Wrappers {

  datatype Option<+T> = None | Some(value: T)
}
