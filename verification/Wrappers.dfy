/** Optional values and failure-carrying results, used wherever the Python code
    returns `None` or raises instead of producing a value. */
module Wrappers {

  /** `None` stands for Python's `None`; `Some(v)` for a present value. */
  datatype Option<+T> = None | Some(value: T) {

    /** The value, or `default` when absent. */
    function GetOr(default: T): T {
      match this
      case Some(v) => v
      case None => default
    }
  }

  /** Why an operation of the source stops without a value: an exception it
      raises (`IndexError`, `KeyError`, ...) or an early `return` it takes. */
  datatype Failure =
    | IndexError
    | KeyError
    | AttributeError
    | NameError
    | Aborted(reason: string)

  /** A value, or the failure that the source would raise or report instead. */
  datatype Result<+T> = Ok(value: T) | Err(error: Failure) {

    predicate IsFailure() {
      Err?
    }

    function PropagateFailure<U>(): Result<U>
      requires Err?
    {
      Err(error)
    }

    function Extract(): T
      requires Ok?
    {
      value
    }
  }

  /** The values `f` gives for the elements of `xs`, in order, leaving out
      the elements it gives `None` for. */
  function Collect<X, Y>(xs: seq<X>, f: X -> Option<Y>): (r: seq<Y>)
    ensures |r| <= |xs|
  {
    if |xs| == 0 then []
    else (match f(xs[0]) case None => [] case Some(y) => [y]) + Collect(xs[1..], f)
  }

  /** Every value `f` gives is collected. */
  lemma {:induction false} CollectComplete<X, Y>(xs: seq<X>, f: X -> Option<Y>, k: nat, y: Y)
    requires k < |xs| && f(xs[k]) == Some(y)
    ensures y in Collect(xs, f)
  {
    if k > 0 {
      assert xs[1..][k - 1] == xs[k];
      CollectComplete(xs[1..], f, k - 1, y);
    }
  }

  /** Every collected value is one that `f` gives. */
  lemma {:induction false} CollectMember<X, Y>(xs: seq<X>, f: X -> Option<Y>, y: Y)
    requires y in Collect(xs, f)
    ensures exists k :: 0 <= k < |xs| && f(xs[k]) == Some(y)
  {
    if f(xs[0]) != Some(y) {
      assert y in Collect(xs[1..], f);
      CollectMember(xs[1..], f, y);
      var k :| 0 <= k < |xs| - 1 && f(xs[1..][k]) == Some(y);
      assert xs[k + 1] == xs[1..][k];
    }
  }
}
