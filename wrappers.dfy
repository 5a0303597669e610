/** Small result types shared by the model. */
module Wrappers {

  /** An optional value: `None` stands for JavaScript's `null` / `undefined`. */
  datatype Option<+T> = None | Some(value: T)

  /** The outcome of a JavaScript call that may throw instead of returning. */
  datatype Outcome<+T> = Returned(value: T) | Thrown
}
