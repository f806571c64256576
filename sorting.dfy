/**
 * A stable sort of a sequence by a numeric key, ascending, as Array.prototype.sort
 * does with a comparator `(a, b) => key(a) - key(b)`. Descending order is the
 * ascending order of the negated key.
 */
module Sorting {

  /** Keys never decrease along the sequence. */
  ghost predicate SortedBy<T>(s: seq<T>, key: T -> real)
  {
    forall i, j | 0 <= i < j < |s| :: key(s[i]) <= key(s[j])
  }

  /** No element's key is below lo. */
  ghost predicate AtLeast<T>(s: seq<T>, lo: real, key: T -> real)
  {
    forall i | 0 <= i < |s| :: lo <= key(s[i])
  }

  /** A sorted sequence stays sorted when an element no greater than all of it is put in front. */
  lemma ConsSorted<T>(y: T, s: seq<T>, key: T -> real)
    requires SortedBy(s, key) && AtLeast(s, key(y), key)
    ensures SortedBy([y] + s, key)
  {
  }

  /** A bound on every element carries over to a rearrangement of the elements. */
  lemma AtLeastPermutation<T>(s: seq<T>, t: seq<T>, lo: real, key: T -> real)
    requires AtLeast(s, lo, key) && multiset(t) == multiset(s)
    ensures AtLeast(t, lo, key)
  {
    forall k | 0 <= k < |t|
      ensures lo <= key(t[k])
    {
      assert t[k] in multiset(s);
      var i :| 0 <= i < |s| && s[i] == t[k];
    }
  }

  /** Puts x in front of the first element whose key is not smaller than x's. */
  function InsertBy<T>(x: T, s: seq<T>, key: T -> real): (r: seq<T>)
    requires SortedBy(s, key)
    ensures SortedBy(r, key)
    ensures multiset(r) == multiset(s) + multiset{x}
  {
    if s == [] || key(x) <= key(s[0]) then
      ConsSorted(x, s, key);
      [x] + s
    else
      var rest := InsertBy(x, s[1..], key);
      assert s == [s[0]] + s[1..];
      AtLeastPermutation([x] + s[1..], rest, key(s[0]), key);
      ConsSorted(s[0], rest, key);
      [s[0]] + rest
  }

  /** The elements of s rearranged so that keys ascend. */
  function SortBy<T>(s: seq<T>, key: T -> real): (r: seq<T>)
    ensures SortedBy(r, key)
    ensures multiset(r) == multiset(s)
  {
    if s == [] then []
    else
      assert s == [s[0]] + s[1..];
      InsertBy(s[0], SortBy(s[1..], key), key)
  }
}
