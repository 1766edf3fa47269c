/** Option values stand for the nullable references of the modelled code. */
module Wrappers {
  datatype Option<+T> = None | Some(value: T)
}
