/** Results and the engine's errors (src/error.rs). */
module Outcomes {
  datatype Option<+T> = None | Some(value: T)

  datatype Error =
    | Io
    | Corruption
    | KeyTooLarge(len: nat, max: nat)
    | ValueTooLarge(len: nat, max: nat)
    | InvalidOp

  datatype Result<+T> = Ok(value: T) | Err(error: Error) {
    predicate IsFailure() { Err? }

    function PropagateFailure<U>(): Result<U>
      requires Err?
    {
      Err(error)
    }

    function Extract(): T
      requires Ok?
    {
      value
    }
  }

  /** `done` in front of whatever the rest of a walk delivers; an error of the rest is the error. */
  function Prefixed<T>(done: seq<T>, rest: Result<seq<T>>): Result<seq<T>> {
    if rest.Ok? then Ok(done + rest.value) else rest
  }

  lemma PrefixedStep<T>(done: seq<T>, x: T, rest: Result<seq<T>>)
    ensures Prefixed(done, Prefixed([x], rest)) == Prefixed(done + [x], rest)
  {
    if rest.Ok? { assert done + ([x] + rest.value) == (done + [x]) + rest.value; }
  }

  lemma PrefixedJoin<T>(a: seq<T>, b: seq<T>, rest: Result<seq<T>>)
    ensures Prefixed(a, Prefixed(b, rest)) == Prefixed(a + b, rest)
  {
    if rest.Ok? { assert a + (b + rest.value) == (a + b) + rest.value; }
  }

  lemma PrefixedNone<T>(done: seq<T>, rest: Result<seq<T>>)
    ensures Prefixed([], rest) == rest
    ensures Prefixed(done, Ok([])) == Ok(done)
  {
    if rest.Ok? { assert [] + rest.value == rest.value; }
    assert done + [] == done;
  }
}
