/** The optional-value datatype used wherever the source returns `null`/`undefined`. */
module Wrappers {

  datatype Option<+T> = None | Some(value: T) {

    /** Returns the value in Some, or `default` for None. */
    function GetOr(default: T): T {
      match this
      case Some(v) => v
      case None => default
    }
  }

  /** Applies `f` to every element in order; None as soon as any application is
      None (the first failure aborts the whole computation). */
  function MapAll<T, U>(xs: seq<T>, f: T -> Option<U>): (r: Option<seq<U>>)
    ensures r.Some? <==> forall i :: 0 <= i < |xs| ==> f(xs[i]).Some?
    ensures r.Some? ==> |r.value| == |xs|
    ensures r.Some? ==> forall i :: 0 <= i < |xs| ==> r.value[i] == f(xs[i]).value
    decreases |xs|
  {
    if |xs| == 0 then Some([])
    else
      var head := f(xs[0]);
      var rest := MapAll(xs[1..], f);
      assert forall j :: 0 <= j < |xs| - 1 ==> xs[1..][j] == xs[j + 1];
      if head.Some? && rest.Some? then
        var ys := [head.value] + rest.value;
        assert forall i :: 1 <= i < |xs| ==> ys[i] == rest.value[i - 1];
        Some(ys)
      else None
  }
}
