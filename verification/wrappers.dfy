/** Failure-aware values shared by every module of the model.
    - Option<T> stands for a C# nullable reference or `Nullable<T>`.
    - Result<T, E> stands for a call that either returns or throws. */
module Wrappers {

  datatype Option<+T> = None | Some(value: T) {

    /** The C# `??` operator: the value when present, the default otherwise. */
    function GetOr(default: T): T {
      match this
      case Some(v) => v
      case None => default
    }
  }

  datatype Result<+T, +E> = Success(value: T) | Failure(error: E)
}
