/** Generic sequence helpers shared by the Python and the JavaScript parts of the model. */
module Sequences {

  /** Python's `any(p(x) for x in s)`, evaluated left to right. */
  function Any<T>(s: seq<T>, p: T -> bool): (b: bool)
    ensures b <==> exists i :: 0 <= i < |s| && p(s[i])
  {
    if s == [] then false else p(s[0]) || Any(s[1..], p)
  }

  /** The index of the last element that satisfies `p`, or -1 when there is none (`str.rfind`). */
  function LastIndex<T>(s: seq<T>, p: T -> bool): (i: int)
    ensures -1 <= i < |s|
    ensures i >= 0 ==> p(s[i])
    ensures forall k :: i < k < |s| ==> !p(s[k])
  {
    if s == [] then -1
    else if p(s[|s| - 1]) then |s| - 1
    else LastIndex(s[..|s| - 1], p)
  }

  /** The last index is the one hit with no hit after it. */
  lemma LastIndexIs<T>(s: seq<T>, p: T -> bool, i: int)
    requires 0 <= i < |s| && p(s[i])
    requires forall k :: i < k < |s| ==> !p(s[k])
    ensures LastIndex(s, p) == i
  {
  }

  /** `s.endswith(suffix)` / `s.endsWith(suffix)`. */
  predicate EndsWith<T(==)>(s: seq<T>, suffix: seq<T>) {
    |suffix| <= |s| && s[|s| - |suffix|..] == suffix
  }
}
