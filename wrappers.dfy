/** The optional value used wherever the content script has `null` or `undefined`. */
module Wrappers {

  /** `None` stands for JavaScript's `null` and `undefined` alike: the script never tells them apart. */
  datatype Option<+T> = None | Some(value: T)
}
