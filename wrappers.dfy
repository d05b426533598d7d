/** Option and Result, used for Python's `None` returns and raised exceptions. */
module Wrappers {

  /** `None` stands for Python's `None`; `Some(v)` for a present value. */
  datatype Option<+T> = None | Some(value: T)

  /** `Ok(v)` is a normal return; `Failure(e)` an exception the callee raises. */
  datatype Result<+T, +E> = Ok(value: T) | Failure(error: E)
}
