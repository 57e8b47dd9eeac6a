/** Failure-carrying values shared by every module of the model.
    `None` and `Fail` stand for the places where the C# code throws. */
module Wrappers {

  datatype Option<T> = None | Some(value: T)

  /** `Fail(reason)` is an exception of the original program; `reason` names it. */
  datatype Result<T> = Ok(value: T) | Fail(reason: string)
}
