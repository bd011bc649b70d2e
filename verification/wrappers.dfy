/** Failure-carrying results shared by every module of the model. */
module Wrappers {

  /** A value that may be absent; stands in for a null pointer or a "not found". */
  datatype Option<+T> = None | Some(value: T)

  /** The outcome of an operation that throws in the source: the value, or the exception's message. */
  datatype Result<+T> = Ok(value: T) | Err(message: string)

  /** Index of the first element of `s` satisfying `matches`, if there is one. */
  function FirstIndex<T>(s: seq<T>, matches: T -> bool): (r: Option<nat>)
    ensures r.Some? ==> r.value < |s| && matches(s[r.value])
    ensures r.Some? ==> forall j :: 0 <= j < r.value ==> !matches(s[j])
    ensures r.None? <==> forall j :: 0 <= j < |s| ==> !matches(s[j])
  {
    if |s| == 0 then None
    else if matches(s[0]) then Some(0)
    else match FirstIndex(s[1..], matches)
      case None => None
      case Some(i) => Some(i + 1)
  }
}
