/** Small helper types and sequence functions shared by every page model. */
module Wrappers {

  /** A value that may be absent: JavaScript's `undefined`/`null` slot, or a lookup miss. */
  datatype Option<+T> = None | Some(value: T) {

    /** The held value, or `default` when absent (JavaScript's `x ?? default`). */
    function GetOr(default: T): T {
      match this
      case Some(v) => v
      case None => default
    }
  }

  /** Index of the first element of `s` satisfying `p` (JavaScript's `findIndex`/`find`). */
  function FirstIndex<T>(s: seq<T>, p: T -> bool): (r: Option<nat>)
    ensures r.Some? ==> r.value < |s| && p(s[r.value])
    ensures r.Some? ==> forall j :: 0 <= j < r.value ==> !p(s[j])
    ensures r.None? <==> forall j :: 0 <= j < |s| ==> !p(s[j])
  {
    if s == [] then None
    else if p(s[0]) then Some(0)
    else
      match FirstIndex(s[1..], p)
      case None => None
      case Some(i) => Some(i + 1)
  }

  /** `sub` is obtained from `s` by deleting zero or more elements, keeping the order of the rest. */
  predicate IsSubsequence<T(==)>(sub: seq<T>, s: seq<T>)
    decreases |s|
  {
    if sub == [] then true
    else if s == [] then false
    else if sub[0] == s[0] then IsSubsequence(sub[1..], s[1..])
    else IsSubsequence(sub, s[1..])
  }

  /** A non-empty sequence holds its first element. */
  lemma {:induction false} HeadIn<T>(s: seq<T>)
    requires s != []
    ensures s[0] in s
  {
  }
}
