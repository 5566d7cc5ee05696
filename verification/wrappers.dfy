/** Small result types shared by the model. */
module Wrappers {

  /** Swift's `Int?`: an optional value. */
  datatype Option<+T> = None | Some(value: T)

  /** The outcome of a Swift computation that may stop the program with a
      runtime trap (division by zero, an empty-range violation, ...). */
  datatype Checked<+T> = Ok(value: T) | Trap
}
