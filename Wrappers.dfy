// Optional values and error-carrying results shared by every module.
// `None` stands for Java's `null`; `Failure` stands for an exception the
// modelled code throws (or lets escape) instead of returning.
module Wrappers {

  datatype Option<+T> = None | Some(value: T)
  {
    predicate IsSome() { this.Some? }

    function GetOr(default: T): (r: T)
      ensures this.Some? ==> r == value
      ensures this.None? ==> r == default
    {
      match this
      case Some(v) => v
      case None => default
    }
  }

  datatype Result<+T, +E> = Success(value: T) | Failure(error: E)
  {
    predicate IsFailure() { this.Failure? }
  }
}
