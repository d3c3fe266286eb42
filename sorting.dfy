/** The stable sort the handlers get from `Array.prototype.sort` with a
    numeric comparator `(a, b) => key(b) - key(a)`: a comes first when its key
    is larger, so the result is non-increasing in `key`. Ties keep input order
    (the insertion below puts the earlier element before equal ones). */
module Sorting {

  predicate NonIncreasing<T>(s: seq<T>, key: T -> int) {
    forall i, j :: 0 <= i < j < |s| ==> key(s[i]) >= key(s[j])
  }

  /** Inserts `x` before the first element whose key is not larger than its own. */
  function InsertDesc<T>(x: T, s: seq<T>, key: T -> int): (r: seq<T>)
    requires NonIncreasing(s, key)
    ensures |r| == |s| + 1
    ensures multiset(r) == multiset{x} + multiset(s)
    ensures NonIncreasing(r, key)
    ensures key(r[0]) == if s == [] || key(s[0]) <= key(x) then key(x) else key(s[0])
  {
    if s == [] || key(s[0]) <= key(x) then
      [x] + s
    else
      var rest := InsertDesc(x, s[1..], key);
      assert s == [s[0]] + s[1..];
      [s[0]] + rest
  }

  function SortDesc<T>(s: seq<T>, key: T -> int): (r: seq<T>)
    ensures |r| == |s|
    ensures multiset(r) == multiset(s)
    ensures NonIncreasing(r, key)
  {
    if s == [] then []
    else
      assert s == [s[0]] + s[1..];
      InsertDesc(s[0], SortDesc(s[1..], key), key)
  }

  /** Sorting a sequence that is already ordered returns it unchanged. */
  lemma {:induction false} SortSortedIsIdentity<T>(s: seq<T>, key: T -> int)
    requires NonIncreasing(s, key)
    ensures SortDesc(s, key) == s
  {
    if s != [] {
      SortSortedIsIdentity(s[1..], key);
      assert s == [s[0]] + s[1..];
    }
  }
}
