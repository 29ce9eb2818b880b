// Failure-compatible result types used in place of Rust's `Option`,
// `Result` and the panics raised by `unwrap`/`expect`.
module Wrappers {

  datatype Option<+T> = None | Some(value: T) {
    predicate IsFailure() { None? }

    function PropagateFailure<U>(): Option<U>
      requires None?
    {
      None
    }

    function Extract(): T
      requires Some?
    {
      value
    }
  }

  datatype Result<+T, +E> = Ok(value: T) | Err(error: E) {
    predicate IsFailure() { Err? }

    function PropagateFailure<U>(): Result<U, E>
      requires Err?
    {
      Err(error)
    }

    function Extract(): T
      requires Ok?
    {
      value
    }
  }

  /** `Option::ok_or`: the value when there is one, the error `e` otherwise. */
  function Require<T, E>(o: Option<T>, e: E): (r: Result<T, E>)
    ensures r.Ok? <==> o.Some?
    ensures r.Ok? ==> r.value == o.value
    ensures r.Err? ==> r.error == e
  {
    match o
    case Some(v) => Ok(v)
    case None => Err(e)
  }
}
