/** Identifiers and optional values shared by the models. */
module Identifiers {

  /** An opaque identifier; the code only fixes the order in which ids sort. */
  datatype Id = Id(code: nat)

  datatype Option<+T> = None | Some(value: T)
}
