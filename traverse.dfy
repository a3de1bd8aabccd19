/**
  A loop that produces one value per element, in order, and stops at the
  first element whose step raises: the shape of both loops of
  `compute_hours` (one over the offsets of the hour range, one over the
  locales).
*/
module Traverse {
  import opened Wrappers

  /** `f` applied to each element of `xs` in order, or the error of the first element that fails. */
  function MapResult<A, T, E>(f: A -> Result<T, E>, xs: seq<A>): Result<seq<T>, E>
    decreases |xs|
  {
    if xs == [] then Ok([])
    else
      match MapResult(f, xs[..|xs| - 1])
      case Err(e) => Err(e)
      case Ok(ys) =>
        match f(xs[|xs| - 1])
        case Err(e) => Err(e)
        case Ok(y) => Ok(ys + [y])
  }

  /** One more element: the earlier results and that element's value, or its error. */
  lemma MapResultStep<A, T, E>(f: A -> Result<T, E>, xs: seq<A>, k: nat, ys: seq<T>)
    requires k < |xs| && MapResult(f, xs[..k]) == Ok(ys)
    ensures MapResult(f, xs[..k + 1])
            == match f(xs[k])
               case Err(e) => Err(e)
               case Ok(y) => Ok(ys + [y])
  {
    assert xs[..k + 1][..k] == xs[..k];
  }

  /** Once a prefix fails, the whole sequence fails with the same error. */
  lemma {:induction false} MapResultErrSticks<A, T, E>(f: A -> Result<T, E>, xs: seq<A>, j: nat)
    requires j <= |xs| && MapResult(f, xs[..j]).Err?
    ensures MapResult(f, xs) == MapResult(f, xs[..j])
    decreases |xs|
  {
    if j < |xs| {
      var init := xs[..|xs| - 1];
      assert init[..j] == xs[..j];
      MapResultErrSticks(f, init, j);
    } else {
      assert xs[..j] == xs;
    }
  }

  /** The loop succeeds exactly when every step does, and then holds the steps' values in order. */
  lemma {:induction false} MapResultOk<A, T, E>(f: A -> Result<T, E>, xs: seq<A>)
    ensures MapResult(f, xs).Ok? <==> forall k :: 0 <= k < |xs| ==> f(xs[k]).Ok?
    ensures MapResult(f, xs).Ok? ==>
              |MapResult(f, xs).value| == |xs|
              && forall k :: 0 <= k < |xs| ==> MapResult(f, xs).value[k] == f(xs[k]).value
    decreases |xs|
  {
    if xs != [] {
      var init := xs[..|xs| - 1];
      MapResultOk(f, init);
      assert forall k :: 0 <= k < |init| ==> init[k] == xs[k];
      var prev, last := MapResult(f, init), f(xs[|xs| - 1]);
      if prev.Ok? && last.Ok? {
        assert MapResult(f, xs) == Ok(prev.value + [last.value]);
      } else {
        assert MapResult(f, xs).Err?;
      }
    }
  }

  /** A failing loop reports the error of its first failing step; every step before it succeeded. */
  lemma {:induction false} MapResultFirstError<A, T, E>(f: A -> Result<T, E>, xs: seq<A>)
    requires MapResult(f, xs).Err?
    ensures exists k :: 0 <= k < |xs| && f(xs[k]).Err? && f(xs[k]).error == MapResult(f, xs).error
              && forall j :: 0 <= j < k ==> f(xs[j]).Ok?
    decreases |xs|
  {
    var init := xs[..|xs| - 1];
    assert forall k :: 0 <= k < |init| ==> init[k] == xs[k];
    if MapResult(f, init).Err? {
      MapResultFirstError(f, init);
    } else {
      MapResultOk(f, init);
      var k := |xs| - 1;
      assert f(xs[k]).error == MapResult(f, xs).error;
    }
  }
}
