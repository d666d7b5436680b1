/** Failure-carrying values shared by every module: Go's `(value, error)` pairs
    and its "value or nil" returns. */
module Basics {

  datatype Option<+T> = None | Some(value: T)

  datatype Result<+T, +E> = Ok(value: T) | Fail(error: E)

  /** A Go `int` count clamped at zero: how many items a request for `n` yields. */
  function Max0(n: int): nat {
    if n < 0 then 0 else n
  }
}
