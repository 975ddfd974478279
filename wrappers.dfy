/** Absence and failure wrappers shared by the whole model. */
module Wrappers {

  /** Python's `None` next to a present value. */
  datatype Option<+T> = None | Some(value: T)

  /** The outcome of a Python call that may raise: either it raised (the
      exception's payload plays no role in the drivers, which only catch it
      or let it propagate) or it returned a value. */
  datatype Attempt<+T> = Raised | Returned(value: T)
}
