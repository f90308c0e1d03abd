/** An optional value: `None` stands for JavaScript's `undefined`, `null` or `NaN` where the code checks for them */
module Wrappers {
  datatype Option<T> = None | Some(value: T)
}
