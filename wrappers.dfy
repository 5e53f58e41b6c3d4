/** Option and Result: the absent value of a Python lookup and the exception a Python call raises. */
module Wrappers {

  datatype Option<+T> = None | Some(value: T) {
    function GetOr(default: T): T {
      match this
      case Some(v) => v
      case None => default
    }
  }

  /** `Err` stands for a Python exception; `:-` propagates it like an uncaught raise. */
  datatype Result<+T, +E> = Ok(value: T) | Err(error: E) {
    predicate IsFailure() {
      Err?
    }

    function PropagateFailure<U>(): Result<U, E>
      requires Err?
    {
      Err(error)
    }

    function Extract(): T
      requires Ok?
    {
      value
    }
  }

  /** The Python exceptions the modelled code can raise: a missing list element, or a text or value it cannot convert. */
  datatype PyError = IndexError | ValueError

  /**
   * Convert every element in order, as a Python loop that appends each result:
   * the first conversion that raises ends it with that error.
   */
  function MapUntilError<A, B, E>(xs: seq<A>, f: A -> Result<B, E>): (r: Result<seq<B>, E>)
    ensures r.Ok? ==> |r.value| == |xs|
  {
    if xs == [] then Ok([])
    else
      var init :- MapUntilError(xs[..|xs| - 1], f);
      var y :- f(xs[|xs| - 1]);
      Ok(init + [y])
  }

  /** Once a prefix fails, the whole sequence fails with the same error. */
  lemma {:induction false} MapUntilErrorFailurePersists<A, B, E>(xs: seq<A>, f: A -> Result<B, E>, k: nat)
    requires k <= |xs| && MapUntilError(xs[..k], f).Err?
    ensures MapUntilError(xs, f) == MapUntilError(xs[..k], f)
    decreases |xs| - k
  {
    if k < |xs| {
      assert xs[..k + 1][..k] == xs[..k];
      MapUntilErrorFailurePersists(xs, f, k + 1);
    } else {
      assert xs[..k] == xs;
    }
  }

  /** When every conversion succeeds, the result holds every converted value in order. */
  lemma {:induction false} MapUntilErrorAllOk<A, B, E>(xs: seq<A>, f: A -> Result<B, E>, ys: seq<B>)
    requires |ys| == |xs|
    requires forall i :: 0 <= i < |xs| ==> f(xs[i]) == Ok(ys[i])
    ensures MapUntilError(xs, f) == Ok(ys)
  {
    if xs != [] {
      var n := |xs| - 1;
      MapUntilErrorAllOk(xs[..n], f, ys[..n]);
      assert ys[..n] + [ys[n]] == ys;
    }
  }

  /** One more element: its conversion either extends the result or is the error the whole sequence ends with. */
  lemma MapUntilErrorStep<A, B, E>(xs: seq<A>, f: A -> Result<B, E>, k: nat, ys: seq<B>)
    requires k < |xs| && MapUntilError(xs[..k], f) == Ok(ys)
    ensures f(xs[k]).Ok? ==> MapUntilError(xs[..k + 1], f) == Ok(ys + [f(xs[k]).value])
    ensures f(xs[k]).Err? ==> MapUntilError(xs, f) == Err(f(xs[k]).error)
  {
    assert xs[..k + 1][..k] == xs[..k];
    if f(xs[k]).Err? {
      MapUntilErrorFailurePersists(xs, f, k + 1);
    }
  }

  /** A successful conversion holds each element's converted value at that element's position. */
  lemma {:induction false} MapUntilErrorOkElements<A, B, E>(xs: seq<A>, f: A -> Result<B, E>)
    requires MapUntilError(xs, f).Ok?
    ensures forall i :: 0 <= i < |xs| ==> f(xs[i]) == Ok(MapUntilError(xs, f).value[i])
  {
    if xs != [] {
      var n := |xs| - 1;
      MapUntilErrorOkElements(xs[..n], f);
      forall i | 0 <= i < n ensures xs[..n][i] == xs[i] {
      }
    }
  }
}
