/** Values shared by the other modules: an optional value (Python's `None`)
    and the way a call that returns nothing ends, normally or by raising. */
module Outcomes {

  datatype Option<T> = None | Some(value: T)

  /** The Python exceptions the modelled code can raise. */
  datatype Error =
    | IndexError         // numpy indexing a 9x9 array at 9 or more
    | ValueError         // highlight_sub_grid given a box index above 2
    | UnboundLocalError  // arrow_pressed reading x, y that no branch assigned

  /** The end of a call: it returned, or it raised `error`. */
  datatype Outcome = Ok | Raised(error: Error)
}
