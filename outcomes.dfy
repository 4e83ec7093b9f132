/** Option, Result and Outcome: the shapes in which the calculator's
    operations return. A Rust function that may panic (an `unwrap`, a
    `todo!()`, an overflow check or an explicit `panic!`) returns an
    `Outcome`: either it returned a `Result`, or it panicked. */
module Outcomes {

  datatype Option<T> = None | Some(value: T)

  datatype Result<T, E> = Ok(value: T) | Err(error: E) {
    predicate IsFailure() { Err? }

    function PropagateFailure<U>(): Result<U, E>
      requires Err?
    {
      Err(error)
    }

    function Extract(): T
      requires Ok?
    {
      value
    }
  }

  datatype Outcome<T, E> = Returned(result: Result<T, E>) | Panicked(reason: string) {
    predicate IsOk() { Returned? && result.Ok? }
    predicate IsErr() { Returned? && result.Err? }
  }
}
