/** Failure-compatible wrappers used across the model.
    - Option<T> stands for a Java reference that may be null.
    - Result<T> carries either a value or the Java exception the source code would throw. */
module Wrappers {

  /** A possibly-absent value (a nullable Java reference). */
  datatype Option<+T> = None | Some(value: T) {

    predicate IsFailure() {
      None?
    }

    function PropagateFailure<U>(): Option<U>
      requires None?
    {
      None
    }

    function Extract(): T
      requires Some?
    {
      value
    }

    function GetOr(default: T): T {
      match this
      case Some(v) => v
      case None() => default
    }
  }

  /** The exceptions the modelled code can raise. */
  datatype JavaError =
    | NullPointer
    | IllegalArgument(message: string)
    | IllegalState(message: string)
    | ClassCast

  /** Either a computed value or the exception that aborted the computation. */
  datatype Result<+T> = Success(value: T) | Failure(error: JavaError) {

    predicate IsFailure() {
      Failure?
    }

    function PropagateFailure<U>(): (r: Result<U>)
      requires Failure?
    {
      Failure(this.error)
    }

    function Extract(): T
      requires Success?
    {
      value
    }
  }

  /** Dereferences a nullable value, failing like Java does on null. */
  function Deref<T>(o: Option<T>): (r: Result<T>)
    ensures r.Success? <==> o.Some?
    ensures r.Success? ==> r.value == o.value
    ensures r.Failure? ==> r.error == NullPointer
  {
    match o
    case Some(v) => Success(v)
    case None => Failure(NullPointer)
  }
}
