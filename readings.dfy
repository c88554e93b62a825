// Raw readings and their deduplication (Array#uniq! in read_vectors).
module Readings {

  /** A raw reading: the integer components of one input line (a Ruby Vector). */
  type Vector = seq<int>

  /** The elements of s, each kept only at its first occurrence, in order. */
  function FirstOccurrences<T(==)>(s: seq<T>): seq<T>
  {
    if |s| == 0 then []
    else
      var init := s[..|s| - 1];
      FirstOccurrences(init) + (if s[|s| - 1] in init then [] else [s[|s| - 1]])
  }

  predicate NoDuplicates<T(==)>(s: seq<T>) {
    forall i, j :: 0 <= i < j < |s| ==> s[i] != s[j]
  }

  /** Deduplication keeps exactly the elements of the input, each once. */
  lemma {:induction false} FirstOccurrencesElements<T>(s: seq<T>)
    ensures forall x :: x in FirstOccurrences(s) <==> x in s
    ensures NoDuplicates(FirstOccurrences(s))
    ensures |FirstOccurrences(s)| <= |s|
  {
    if |s| > 0 {
      var init := s[..|s| - 1];
      FirstOccurrencesElements(init);
      assert s == init + [s[|s| - 1]];
    }
  }

  /** The positions in s that hold the first occurrence of their element, ascending. */
  function FirstIndices<T(==)>(s: seq<T>): seq<nat>
  {
    if |s| == 0 then []
    else
      var n := |s| - 1;
      var init := s[..n];
      FirstIndices(init) + (if s[n] in init then [] else [n])
  }

  /** Position i of s holds the first occurrence of its element. */
  predicate IsFirst<T(==)>(s: seq<T>, i: nat)
    requires i < |s|
  {
    s[i] !in s[..i]
  }

  /** Every listed position is a first occurrence. */
  lemma {:induction false} FirstIndicesAreFirst<T>(s: seq<T>)
    ensures forall k :: 0 <= k < |FirstIndices(s)| ==>
      FirstIndices(s)[k] < |s| && IsFirst(s, FirstIndices(s)[k])
  {
    if |s| > 0 {
      var n := |s| - 1;
      var init := s[..n];
      FirstIndicesAreFirst(init);
      var prev := FirstIndices(init);
      var idx := FirstIndices(s);
      forall k | 0 <= k < |idx|
        ensures idx[k] < |s| && IsFirst(s, idx[k])
      {
        if k < |prev| {
          var j := prev[k];
          assert IsFirst(init, j);
          assert s[..j] == init[..j];
        } else {
          assert idx[k] == n;
        }
      }
    }
  }

  /** The listed positions ascend strictly. */
  lemma {:induction false} FirstIndicesAscend<T>(s: seq<T>)
    ensures forall k :: 0 <= k < |FirstIndices(s)| ==> FirstIndices(s)[k] < |s|
    ensures forall k, l :: 0 <= k < l < |FirstIndices(s)| ==> FirstIndices(s)[k] < FirstIndices(s)[l]
  {
    if |s| > 0 {
      var n := |s| - 1;
      var init := s[..n];
      FirstIndicesAscend(init);
      var prev := FirstIndices(init);
      var idx := FirstIndices(s);
      forall k, l | 0 <= k < l < |idx|
        ensures idx[k] < idx[l]
      {
        assert idx[k] == prev[k];
        if l >= |prev| {
          assert idx[l] == n;
        }
      }
    }
  }

  /** Every first occurrence is listed. */
  lemma {:induction false} FirstIndicesComplete<T>(s: seq<T>)
    ensures forall i :: 0 <= i < |s| && IsFirst(s, i) ==> i in FirstIndices(s)
  {
    if |s| > 0 {
      var n := |s| - 1;
      var init := s[..n];
      FirstIndicesComplete(init);
      var prev := FirstIndices(init);
      forall i | 0 <= i < |s| && IsFirst(s, i)
        ensures i in FirstIndices(s)
      {
        if i < n {
          assert s[..i] == init[..i];
          assert IsFirst(init, i);
          assert i in prev;
        } else {
          assert s[..i] == init;
        }
      }
    }
  }

  /** The deduplicated list reads s at its first-occurrence positions, in order. */
  lemma {:induction false} FirstOccurrencesAtFirstIndices<T>(s: seq<T>)
    ensures |FirstOccurrences(s)| == |FirstIndices(s)|
    ensures forall k :: 0 <= k < |FirstIndices(s)| ==>
      FirstIndices(s)[k] < |s| && FirstOccurrences(s)[k] == s[FirstIndices(s)[k]]
  {
    FirstIndicesAscend(s);
    if |s| > 0 {
      var n := |s| - 1;
      var init := s[..n];
      FirstOccurrencesAtFirstIndices(init);
      var prev := FirstIndices(init);
      forall k | 0 <= k < |prev|
        ensures init[prev[k]] == s[prev[k]]
      {
      }
    }
  }

  /** A small example: two equal readings collapse into one. */
  lemma DedupExample()
    ensures FirstOccurrences([[1, 2, 3], [1, 2, 3], [4, 5, 6]]) == [[1, 2, 3], [4, 5, 6]]
  {
    var s: seq<Vector> := [[1, 2, 3], [1, 2, 3], [4, 5, 6]];
    assert s[..2][..1] == [[1, 2, 3]];
    assert [[1, 2, 3]][..0] == [];
    assert FirstOccurrences(s[..2][..1]) == [[1, 2, 3]];
    assert FirstOccurrences(s[..2]) == [[1, 2, 3]];
    assert [4, 5, 6] !in s[..2];
  }

  /** Array#uniq!: compacts a in place so that its first `len` cells hold the
      first occurrences, in order; the caller drops the rest. */
  method UniqInPlace(a: array<Vector>) returns (len: nat)
    modifies a
    ensures len <= a.Length
    ensures a[..len] == FirstOccurrences(old(a[..]))
  {
    ghost var s := a[..];
    len := 0;
    var i := 0;
    while i < a.Length
      invariant 0 <= len <= i <= a.Length
      invariant a[..len] == FirstOccurrences(s[..i])
      invariant a[i..] == s[i..]
    {
      ghost var kept := a[..len];
      FirstOccurrencesElements(s[..i]);
      assert s[..i + 1] == s[..i] + [s[i]];
      assert a[i] == s[i];
      assert (a[i] in kept) == (s[i] in s[..i]);
      if a[i] !in a[..len] {
        a[len] := a[i];
        assert a[..len + 1] == kept + [s[i]];
        assert a[i + 1..] == s[i + 1..];
        len := len + 1;
      } else {
        assert a[i + 1..] == s[i + 1..];
      }
      i := i + 1;
    }
    assert s[..a.Length] == s;
  }
}
