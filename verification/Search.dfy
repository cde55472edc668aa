/** Searches in lists, and lists without repeats. */
module Searches {

  /** `std::find_if`: the first element from `i` on that satisfies the predicate; the length of the list when there is none. */
  function First<T>(s: seq<T>, p: T -> bool, i: nat): (k: nat)
    requires i <= |s|
    ensures i <= k <= |s|
    ensures k < |s| ==> p(s[k])
    ensures forall m :: i <= m < k ==> !p(s[m])
    decreases |s| - i
  {
    if i == |s| || p(s[i]) then i else First(s, p, i + 1)
  }

  /** Lists that satisfy the predicate at the same places give the same answer. */
  lemma FirstSame<T>(a: seq<T>, b: seq<T>, p: T -> bool, i: nat)
    requires |a| == |b| && i <= |a| && forall k :: 0 <= k < |a| ==> p(a[k]) == p(b[k])
    ensures First(a, p, i) == First(b, p, i)
  {
  }

  predicate NoRepeat<T(==)>(s: seq<T>) {
    forall i, j :: 0 <= i < j < |s| ==> s[i] != s[j]
  }
}
