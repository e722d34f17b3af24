/** Python exceptions raised by the colorgrade code, and the Option/Result
    wrappers that carry them through the model. */
module Outcomes {

  /** The exception classes the modelled code can raise. `EvalFailure` stands
      for whatever the host's expression evaluator raised. */
  datatype Error =
    | ValueError
    | IndexError
    | KeyError
    | AssertionError
    | TypeError
    | NotImplementedError
    | RuntimeError
    | EvalFailure

  datatype Option<+T> = None | Some(value: T)

  datatype Result<+T> = Ok(value: T) | Err(error: Error) {
    predicate IsFailure() { Err? }

    function PropagateFailure<U>(): Result<U>
      requires Err?
    {
      Err(error)
    }

    function Extract(): T
      requires Ok?
    {
      value
    }
  }

  /** An operation that returns nothing or raises. */
  datatype Outcome = Pass | Fail(error: Error) {
    predicate IsFailure() { Fail? }

    function PropagateFailure(): Outcome
      requires Fail?
    {
      this
    }
  }

  /** Python's `xs[k]` on a list: a negative k counts from the end, and an
      index outside −len .. len−1 is an IndexError. */
  function PyIndex<T>(xs: seq<T>, k: int): (r: Result<T>)
    ensures r.Ok? <==> -|xs| <= k < |xs|
    ensures r.Err? ==> r.error == IndexError
    ensures r.Ok? ==> exists n :: 0 <= n < |xs| && n % |xs| == k % |xs| && r.value == xs[n]
    ensures 0 <= k < |xs| ==> r == Ok(xs[k])
    ensures -|xs| <= k < 0 ==> r == Ok(xs[|xs| + k])
  {
    if 0 <= k < |xs| then Ok(xs[k])
    else if -|xs| <= k < 0 then Ok(xs[|xs| + k])
    else Err(IndexError)
  }

  /** Index −1 is the last element, which is what `cg_steps[-1]` reads. */
  lemma PyIndexLast<T>(xs: seq<T>)
    requires |xs| > 0
    ensures PyIndex(xs, -1) == Ok(xs[|xs| - 1])
  {}
}
