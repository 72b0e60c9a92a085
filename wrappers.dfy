/** Option and Result values, used where the source returns `Option` or `Result`. */
module Wrappers {

  datatype Option<+T> = None | Some(value: T)

  datatype Result<+T, +E> = Ok(value: T) | Err(error: E)

  /**
   * `collect::<Result<Vec<_>, _>>()` over `xs` mapped by `f`: every value when
   * all succeed, otherwise the error of the first failure.
   */
  function CollectResults<T, U, E>(xs: seq<T>, f: T -> Result<U, E>): (r: Result<seq<U>, E>)
    ensures r.Ok? <==> forall i :: 0 <= i < |xs| ==> f(xs[i]).Ok?
    ensures r.Ok? ==> (|r.value| == |xs| && forall i :: 0 <= i < |xs| ==> r.value[i] == f(xs[i]).value)
    ensures r.Err? ==> exists i :: (0 <= i < |xs| && f(xs[i]) == Err(r.error)
      && forall j :: 0 <= j < i ==> f(xs[j]).Ok?)
  {
    if xs == [] then Ok([])
    else
      var first := f(xs[0]);
      var rest := CollectResults(xs[1..], f);
      assert forall i :: 1 <= i < |xs| ==> xs[i] == xs[1..][i - 1];
      if first.Err? then
        Err(first.error)
      else if rest.Err? then
        assert exists i :: (0 <= i < |xs| && f(xs[i]) == Err(rest.error)
          && forall j :: 0 <= j < i ==> f(xs[j]).Ok?) by {
          var i :| 0 <= i < |xs[1..]| && f(xs[1..][i]) == Err(rest.error)
            && forall j :: 0 <= j < i ==> f(xs[1..][j]).Ok?;
          assert f(xs[i + 1]) == Err(rest.error);
        }
        Err(rest.error)
      else
        Ok([first.value] + rest.value)
  }
}
