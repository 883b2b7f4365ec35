/** Failure-compatible result types and a small sequence search used across the model.
    The renderer's `abort()` and `VK_CHECK` paths become `Failure` values here. */
module Wrappers {

  /** A nullable C pointer, or an optional value. */
  datatype Option<+T> = None | Some(value: T)

  /** The outcome of an operation that can fail with an error `E`. */
  datatype Result<+R, +E> = Success(value: R) | Failure(error: E) {
    predicate IsFailure() {
      Failure?
    }

    function PropagateFailure<U>(): Result<U, E>
      requires Failure?
    {
      Failure(error)
    }

    function Extract(): R
      requires Success?
    {
      value
    }
  }

  /** The index of the first occurrence of `x` in `s`, scanning from the front. */
  function FirstIndexOf<T(==)>(s: seq<T>, x: T): (r: Option<nat>)
    ensures r.Some? ==> r.value < |s| && s[r.value] == x
    ensures r.Some? ==> forall j :: 0 <= j < r.value ==> s[j] != x
    ensures r.None? <==> x !in s
  {
    if |s| == 0 then None
    else if s[0] == x then Some(0)
    else match FirstIndexOf(s[1..], x)
      case None => assert s == [s[0]] + s[1..]; None
      case Some(i) => Some(i + 1)
  }
}
