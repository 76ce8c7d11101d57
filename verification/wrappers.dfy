/** Shared datatypes: an optional value, and a value or an error message. */
module Wrappers {
  datatype Option<+T> = None | Some(value: T)

  datatype Result<+T> = Ok(value: T) | Err(message: string) {
    predicate IsFailure() {
      Err?
    }

    function PropagateFailure<U>(): Result<U>
      requires Err?
    {
      Err(message)
    }

    function Extract(): T
      requires Ok?
    {
      value
    }
  }

  datatype Check = Pass | Fail(message: string) {
    predicate IsFailure() {
      Fail?
    }

    function PropagateFailure<U>(): Result<U>
      requires Fail?
    {
      Err(message)
    }
  }

  function Need(condition: bool, message: string): Check {
    if condition then Pass else Fail(message)
  }

  /** `f` of each element. */
  function Each<A, B>(f: A -> B, list: seq<A>): (r: seq<B>)
    ensures |r| == |list| && forall i :: 0 <= i < |list| ==> r[i] == f(list[i])
  {
    seq(|list|, i requires 0 <= i < |list| => f(list[i]))
  }
}
