/** Small failure-carrying datatypes shared by the model. */
module Wrappers {

  datatype Option<+T> = None | Some(value: T)

  /** The result of a Python call: a returned value or a raised exception,
      the exception given by its message (`str(e)`). */
  datatype Outcome<+T> = Return(value: T) | Raise(reason: string)
}
