/** Option and result types used throughout the ledger model. */
module Wrappers {

  /** A value that may be absent. */
  datatype Option<+T> = None | Some(value: T)

  /** The outcome of an operation that the Go code either completes or aborts
      (with `log.Panic`, or by returning an error value). */
  datatype Result<+R, +E> = Success(value: R) | Failure(error: E)
}
