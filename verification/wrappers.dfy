/** Failure-compatible wrapper types shared by every module of the model.

    Go signals "nothing here" with a nil pointer or a `(zero, false)` pair and
    signals malformed input with a panic; the model uses `Option` for both, so
    that a parser that would panic returns `None` instead. */
module Wrappers {

  datatype Option<+T> = None | Some(value: T) {

    predicate IsFailure() {
      None?
    }

    function PropagateFailure<U>(): Option<U>
      requires None?
    {
      None
    }

    function Extract(): T
      requires Some?
    {
      value
    }

    /** The stored value, or `default` when there is none. */
    function GetOr(default: T): T {
      match this
      case Some(v) => v
      case None => default
    }
  }

  /** The outcome of an operation that returns Go's `error`. */
  datatype Result<+R, +E> = Success(value: R) | Failure(error: E) {

    predicate IsFailure() {
      Failure?
    }

    function PropagateFailure<U>(): Result<U, E>
      requires Failure?
    {
      Failure(error)
    }

    function Extract(): R
      requires Success?
    {
      value
    }
  }

  /** `f` applied to each element, in order; nothing when any application
      fails (a Go loop that panics on its first bad element). */
  function AllSome<A, B>(f: A -> Option<B>, xs: seq<A>): (r: Option<seq<B>>)
    ensures r.Some? <==> forall k :: 0 <= k < |xs| ==> f(xs[k]).Some?
    ensures r.Some? ==> |r.value| == |xs| && forall k :: 0 <= k < |xs| ==> r.value[k] == f(xs[k]).value
  {
    if |xs| == 0 then Some([])
    else
      var init := xs[..|xs| - 1];
      assert forall k :: 0 <= k < |init| ==> init[k] == xs[k];
      match AllSome(f, init)
      case None => None
      case Some(ys) =>
        match f(xs[|xs| - 1])
        case None => None
        case Some(y) => Some(ys + [y])
  }

  /** When `f` gives `ys[k]` for each `xs[k]`, all of them succeed, and
      together they give `ys`. */
  lemma AllSomeEach<A, B>(f: A -> Option<B>, xs: seq<A>, ys: seq<B>)
    requires |xs| == |ys| && forall k :: 0 <= k < |xs| ==> f(xs[k]) == Some(ys[k])
    ensures AllSome(f, xs) == Some(ys)
  {
    var r := AllSome(f, xs);
    assert r.Some? by {
      forall k | 0 <= k < |xs|
        ensures f(xs[k]).Some?
      {
        assert f(xs[k]) == Some(ys[k]);
      }
    }
    forall k | 0 <= k < |ys|
      ensures r.value[k] == ys[k]
    {
      assert f(xs[k]) == Some(ys[k]);
    }
    assert r.value == ys;
  }
}
