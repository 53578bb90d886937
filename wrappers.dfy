/** Option and Result: the values the modelled code returns where Python returns
    None or raises an HTTPException. */
module Wrappers {

  datatype Option<+T> = None | Some(value: T)

  /** `Err(status)` stands for `raise HTTPException(status, ...)`. */
  datatype Result<+T> = Ok(value: T) | Err(status: int)
}
