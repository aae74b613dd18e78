/** Types that every part of the model shares. */
module Wrappers {

  datatype Option<+T> = None | Some(value: T)

  /** A size, a duration in milliseconds or a cost: a whole number of at least one. */
  type Positive = n: nat | 1 <= n witness 1
}
