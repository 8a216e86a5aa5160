/** The optional and failing results that Go expresses with nil pointers and error returns. */
module Outcomes {
  datatype Option<+T> = None | Some(value: T)

  datatype Result<+T, +E> = Ok(value: T) | Err(error: E)

  /** How a write to a server ends; a lost one took effect although the caller sees an error. */
  datatype Write = Applied | Rejected | Lost

  /** For counting. */
  function One(b: bool): nat {
    if b then 1 else 0
  }
}
