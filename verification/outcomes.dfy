/** Option and Result values used where the training script either finds
    nothing or cannot produce a value. */
module Outcomes {

  datatype Option<+T> = None | Some(value: T)

  datatype Result<+T, +E> = Ok(value: T) | Err(error: E)
}
