/** Failure-carrying wrappers shared by the whole model: `Option` for the
    source's `null`/`undefined` fields and `Result` for operations that
    either `alert` and return early or hand a value on. */
module Outcomes {

  datatype Option<+T> = None | Some(value: T)

  /** `Ok` carries what the operation emits; `Err` stands for the blocking
      `alert` that aborts it. */
  datatype Result<+T, +E> = Ok(value: T) | Err(error: E)
}
