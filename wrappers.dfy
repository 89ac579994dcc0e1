/** The usual optional-value datatype: `None` stands for an absent value
    (a missing storage key, a non-numeric id, a failed fetch). */
module Wrappers {
  datatype Option<+T> = None | Some(value: T)
}
