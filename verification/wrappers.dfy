/** Failure-carrying datatypes shared by the model: `Option` stands for the
    source's `undefined`/`null` results and optional fields, `Result` for the
    operations that raise a NestJS exception. */
module Wrappers {

  datatype Option<+T> = None | Some(value: T) {

    /** The value, or `default` when absent (the source's `x ?? default`). */
    function GetOr(default: T): T {
      match this
      case Some(v) => v
      case None => default
    }
  }

  datatype Result<+R, +E> = Success(value: R) | Failure(error: E)
}
