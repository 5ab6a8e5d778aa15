/** Rust's `Option` and `Result`, with the members that `?` and `map_err` use. */
module Wrappers {

  datatype Option<+T> = None | Some(value: T)

  /** `std::result::Result`; the three members below let `:-` play the part of Rust's `?`. */
  datatype Result<+T, +E> = Ok(value: T) | Err(error: E) {

    predicate IsFailure() {
      Err?
    }

    function PropagateFailure<U>(): Result<U, E>
      requires Err?
    {
      Err(error)
    }

    function Extract(): T
      requires Ok?
    {
      value
    }

    /** `Result::map_err`: the mapper is applied to the error only, and only on `Err`. */
    function MapErr<F>(f: E --> F): Result<T, F>
      requires Err? ==> f.requires(error)
    {
      match this
      case Ok(v) => Ok(v)
      case Err(e) => Err(f(e))
    }
  }
}
