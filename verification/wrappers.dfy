/** Failure-compatible wrappers shared by every module of the model: `Option` for
    Rust's `Option<T>` and `Result` for Rust's `Result<T, E>`. Both work with `:-`,
    which plays the part of Rust's `?` operator. */
module Wrappers {

  datatype Option<+T> = None | Some(value: T) {

    predicate IsFailure() {
      None?
    }

    function PropagateFailure<U>(): Option<U>
      requires None?
    {
      None
    }

    function Extract(): T
      requires Some?
    {
      value
    }

    /** Rust's `unwrap_or`. */
    function GetOr(default: T): T {
      match this
      case Some(v) => v
      case None => default
    }

    /** Rust's `ok_or`. */
    function ToResult<E>(error: E): Result<T, E> {
      match this
      case Some(v) => Ok(v)
      case None => Err(error)
    }
  }

  datatype Result<+T, +E> = Ok(value: T) | Err(error: E) {

    predicate IsFailure() {
      Err?
    }

    function PropagateFailure<U>(): Result<U, E>
      requires Err?
    {
      Err(error)
    }

    function Extract(): T
      requires Ok?
    {
      value
    }

    /** Rust's `ok()`. */
    function ToOption(): Option<T> {
      match this
      case Ok(v) => Some(v)
      case Err(_) => None
    }

    /** Rust's `map_err`. */
    function MapError<E2>(f: E -> E2): Result<T, E2> {
      match this
      case Ok(v) => Ok(v)
      case Err(e) => Err(f(e))
    }
  }

  /** `collect::<Result<Vec<_>, _>>()` over a mapped sequence: all results, or
      the first failure. */
  function CollectAll<A, B, E(==)>(xs: seq<A>, f: A -> Result<B, E>): (r: Result<seq<B>, E>)
    ensures r.Ok? <==> forall k :: 0 <= k < |xs| ==> f(xs[k]).Ok?
    ensures r.Ok? ==> |r.value| == |xs| && forall k :: 0 <= k < |xs| ==> r.value[k] == f(xs[k]).value
    ensures r.Err? ==> exists k :: 0 <= k < |xs| && f(xs[k]).Err? && f(xs[k]).error == r.error && forall j :: 0 <= j < k ==> f(xs[j]).Ok?
    decreases |xs|
  {
    if |xs| == 0 then Ok([])
    else
      match f(xs[0])
      case Err(e) => Err(e)
      case Ok(y) =>
        match CollectAll(xs[1..], f)
        case Err(e) =>
          var k :| 0 <= k < |xs[1..]| && f(xs[1..][k]).Err? && f(xs[1..][k]).error == e && forall j :: 0 <= j < k ==> f(xs[1..][j]).Ok?;
          assert xs[k + 1] == xs[1..][k];
          assert forall j :: 1 <= j < k + 1 ==> f(xs[j]).Ok? by {
            forall j | 1 <= j < k + 1 ensures f(xs[j]).Ok? { assert xs[j] == xs[1..][j - 1]; }
          }
          Err(e)
        case Ok(ys) =>
          assert forall k :: 1 <= k < |xs| ==> xs[k] == xs[1..][k - 1];
          Ok([y] + ys)
  }

  /** The failure `CollectAll` reports is the one at the first failing position. */
  lemma {:induction false} CollectAllFirstError<A, B, E>(xs: seq<A>, f: A -> Result<B, E>, k: nat)
    requires k < |xs| && f(xs[k]).Err?
    requires forall j :: 0 <= j < k ==> f(xs[j]).Ok?
    ensures CollectAll(xs, f) == Err(f(xs[k]).error)
    decreases k
  {
    if k > 0 {
      assert f(xs[0]).Ok?;
      assert xs[1..][k - 1] == xs[k];
      assert forall j :: 0 <= j < k - 1 ==> xs[1..][j] == xs[j + 1];
      CollectAllFirstError(xs[1..], f, k - 1);
    }
  }
}
