// Ascending sort of integer lists, as done by Ruby's Enumerable#sort and
// Python's sorted() before a percentile is picked.
module Sorting {

  predicate IsSorted(s: seq<int>) {
    forall i, j :: 0 <= i <= j < |s| ==> s[i] <= s[j]
  }

  /** Inserts x into an already sorted list. */
  function Insert(x: int, s: seq<int>): (r: seq<int>)
    requires IsSorted(s)
    ensures IsSorted(r)
    ensures multiset(r) == multiset(s) + multiset{x}
    ensures |r| == |s| + 1
    ensures r[0] == x || (|s| > 0 && r[0] == s[0])
    decreases |s|
  {
    if |s| == 0 || x <= s[0] then
      [x] + s
    else
      var rest := Insert(x, s[1..]);
      assert s == [s[0]] + s[1..];
      assert s[0] <= rest[0];
      [s[0]] + rest
  }

  /** The ascending permutation of s. */
  function SortAsc(s: seq<int>): (r: seq<int>)
    ensures IsSorted(r)
    ensures multiset(r) == multiset(s)
    ensures |r| == |s|
  {
    if |s| == 0 then []
    else
      assert s == [s[0]] + s[1..];
      Insert(s[0], SortAsc(s[1..]))
  }

  /** Every element of the sorted list comes from the input. */
  lemma SortedMember(s: seq<int>, i: int)
    requires 0 <= i < |s|
    ensures SortAsc(s)[i] in s
  {
    var r := SortAsc(s);
    assert r[i] in multiset(r);
  }

  /** The first element of the sorted list is a minimum, the last a maximum. */
  lemma SortedExtremes(s: seq<int>)
    requires |s| > 0
    ensures forall x :: x in s ==> SortAsc(s)[0] <= x <= SortAsc(s)[|s| - 1]
  {
    var r := SortAsc(s);
    forall x | x in s
      ensures r[0] <= x <= r[|s| - 1]
    {
      assert x in multiset(r);
      var k :| 0 <= k < |r| && r[k] == x;
    }
  }

  /** Sorting an already sorted list changes nothing. */
  lemma {:induction false} SortSortedIsIdentity(s: seq<int>)
    requires IsSorted(s)
    ensures SortAsc(s) == s
  {
    if |s| > 0 {
      assert IsSorted(s[1..]);
      SortSortedIsIdentity(s[1..]);
      assert s == [s[0]] + s[1..];
    }
  }
}
