/** Small value types shared by every module: an optional value, and the outcome
    of a Python call that either returns a value or lets an exception escape. */
module Wrappers {

  datatype Option<+T> = None | Some(value: T) {
    function GetOr(default: T): T {
      match this
      case Some(v) => v
      case None => default
    }
  }

  /** The Python exception classes that the modelled code can raise. */
  datatype Exc =
    | IndexError
    | KeyError
    | TypeError
    | AttributeError
    | ValueError(message: string)
    | RuntimeError(message: string)

  /** What a Python call produces: a returned value, or an exception that leaves it. */
  datatype Py<+T> = Value(value: T) | Raises(exc: Exc)

  /** The present values of `xs`, in order. */
  function Present<T>(xs: seq<Option<T>>): (r: seq<T>)
    ensures |r| <= |xs|
  {
    if xs == [] then []
    else Present(xs[..|xs| - 1]) + (match xs[|xs| - 1] case None => [] case Some(u) => [u])
  }

  lemma {:induction false} PresentAppend<T>(a: seq<Option<T>>, b: seq<Option<T>>)
    ensures Present(a + b) == Present(a) + Present(b)
    decreases |b|
  {
    if b == [] {
      assert a + b == a;
    } else {
      var b' := b[..|b| - 1];
      assert (a + b)[..|a + b| - 1] == a + b';
      PresentAppend(a, b');
    }
  }

  /** A value is present exactly when some entry holds it. */
  lemma {:induction false} PresentMembers<T>(xs: seq<Option<T>>, u: T)
    ensures u in Present(xs) <==> exists i :: 0 <= i < |xs| && xs[i] == Some(u)
    decreases |xs|
  {
    if xs != [] {
      var init := xs[..|xs| - 1];
      var last := xs[|xs| - 1];
      PresentMembers(init, u);
      assert Present(xs) == Present(init) + (match last case None => [] case Some(v) => [v]);
      assert u in Present(xs) <==> u in Present(init) || last == Some(u);
      if exists i :: 0 <= i < |init| && init[i] == Some(u) {
        var i :| 0 <= i < |init| && init[i] == Some(u);
        assert xs[i] == init[i];
      }
      if exists i :: 0 <= i < |xs| && xs[i] == Some(u) {
        var i :| 0 <= i < |xs| && xs[i] == Some(u);
        if i < |init| { assert init[i] == xs[i]; }
      }
    }
  }
}
