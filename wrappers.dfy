/**
 Rust's `Option` and `Result`, reduced to what the crate uses: `Option::ok_or`,
 the `?` operator (Dafny's `:-`) and the error conversion `?` performs
 through `From` (here `MapErr`).
 */
module Wrappers {

  datatype Option<+T> = None | Some(value: T) {

    /** `Option::ok_or`: a missing value becomes the given error. */
    function OkOr<E>(error: E): Result<T, E>
    {
      match this
      case Some(v) => Ok(v)
      case None => Err(error)
    }
  }

  datatype Result<+T, +E> = Ok(value: T) | Err(error: E) {

    predicate IsFailure() {
      Err?
    }

    function PropagateFailure<U>(): Result<U, E>
      requires Err?
    {
      Err(error)
    }

    function Extract(): T
      requires Ok?
    {
      value
    }

    /** `Result::map_err`: converts the error, keeps a success as it is. */
    function MapErr<F>(f: E -> F): Result<T, F>
    {
      match this
      case Ok(v) => Ok(v)
      case Err(e) => Err(f(e))
    }
  }
}
