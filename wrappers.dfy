/** Optional values and error-carrying results used throughout the model. */
module Wrappers {

  /** Swift's `Optional`: an absent value or a present one. */
  datatype Option<+T> = None | Some(value: T) {
    /** Swift's `??` operator. */
    function GetOr(default: T): T {
      match this
      case Some(v) => v
      case None => default
    }
  }

  /** Either a value or the error a throwing Swift function would raise. */
  datatype Result<+R, +E> = Success(value: R) | Failure(error: E)

  /** Swift's `a ?? b` where both sides are optional. */
  function OrElse<T>(a: Option<T>, b: Option<T>): Option<T> {
    if a.Some? then a else b
  }

  /** Swift's `first(where:)`: the first element that passes the test, nil when none does. */
  function FirstWhere<T>(s: seq<T>, test: T -> bool): (r: Option<T>)
    ensures r.Some? ==> exists i :: 0 <= i < |s| && s[i] == r.value && (forall j :: 0 <= j < i ==> !test(s[j]))
    ensures r.Some? ==> test(r.value)
    ensures r.None? <==> forall i :: 0 <= i < |s| ==> !test(s[i])
  {
    if s == [] then None
    else if test(s[0]) then Some(s[0])
    else
      var r := FirstWhere(s[1..], test);
      assert forall i :: 1 <= i < |s| ==> s[i] == s[1..][i - 1];
      r
  }
}
