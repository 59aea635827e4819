/** Small result types shared by the model. */
module Wrappers {

  datatype Option<+T> = None | Some(value: T)

  /** The result of a Python call: either it returned a value or an exception escaped it. */
  datatype Outcome<+T> = Returned(value: T) | Raised
}
