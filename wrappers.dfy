/** The JavaScript `null`-or-value pattern of the program, as an optional value. */
module Wrappers {

  /** `None` stands for `null`: a failed fetch, a rejected task, a probe that did not pass. */
  datatype Option<+T> = None | Some(value: T)
}
