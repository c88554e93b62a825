// The helpers the Ruby drafts add to Enumerable: nearest-rank percentile
// selection and evenly strided subsampling.
module Enumerable {
  import opened Base
  import opened Sorting

  /** Float#round of x / 100: to the nearest integer, halves away from zero. */
  function RoundDiv100(x: int): (r: int)
    ensures x >= 0 ==> 100 * r - 50 <= x < 100 * r + 50
    ensures x < 0 ==> 100 * r - 50 < x <= 100 * r + 50
  {
    if x >= 0 then (x + 50) / 100 else -((-x + 50) / 100)
  }

  lemma RoundDiv100Monotone(x: int, y: int)
    requires x <= y
    ensures RoundDiv100(x) <= RoundDiv100(y)
  {
  }

  /** The index `(p / 100.0 * (n - 1)).round` for a list of n values. */
  function RubyIndex(p: int, n: nat): int {
    RoundDiv100(p * (n - 1))
  }

  /** Indexing as Ruby's Array#[] and Python lists do it: negative indices count
      from the end; None (Ruby nil, Python IndexError) when out of range. */
  function WrapAt<T>(s: seq<T>, i: int): (r: Option<T>)
    ensures r.Some? <==> -|s| <= i < |s|
    ensures r.Some? ==> r.value == s[if i < 0 then |s| + i else i]
  {
    if 0 <= i < |s| then Some(s[i])
    else if -|s| <= i < 0 then Some(s[|s| + i])
    else None
  }

  /** One percentile of `values`: the element of the ascending sort at the rounded rank. */
  function Percentile(values: seq<int>, p: int): Option<int> {
    WrapAt(SortAsc(values), RubyIndex(p, |values|))
  }

  /** Enumerable#percentile_to_value: one (possibly nil) value per requested percentile. */
  function PercentileToValue(values: seq<int>, percentiles: seq<int>): (r: seq<Option<int>>)
    ensures |r| == |percentiles|
    ensures forall i :: 0 <= i < |r| && r[i].Some? ==> r[i].value in values
    ensures |values| == 0 ==> forall i :: 0 <= i < |r| ==> r[i] == None
    ensures |values| > 0 ==>
      forall i :: 0 <= i < |r| && 0 <= percentiles[i] <= 100 ==> r[i].Some?
  {
    var r := seq(|percentiles|, i requires 0 <= i < |percentiles| => Percentile(values, percentiles[i]));
    assert forall i :: 0 <= i < |r| && r[i].Some? ==> r[i].value in values by {
      forall i | 0 <= i < |r| && r[i].Some?
        ensures r[i].value in values
      {
        var k := RubyIndex(percentiles[i], |values|);
        SortedMember(values, if k < 0 then |values| + k else k);
      }
    }
    assert |values| > 0 ==>
      forall i :: 0 <= i < |r| && 0 <= percentiles[i] <= 100 ==> r[i].Some? by {
      if |values| > 0 {
        forall i | 0 <= i < |r| && 0 <= percentiles[i] <= 100
          ensures r[i].Some?
        {
          PercentileIndexInRange(percentiles[i], |values|);
        }
      }
    }
    r
  }

  /** For a non-empty list and 0 <= p <= 100 the rounded rank is a valid index. */
  lemma PercentileIndexInRange(p: int, n: nat)
    requires n > 0 && 0 <= p <= 100
    ensures 0 <= RubyIndex(p, n) <= n - 1
  {
    MulMonotone(0, p, n - 1);
    MulMonotone(p, 100, n - 1);
  }

  /** Each percentile picked from a non-empty list is one of its values. */
  lemma PercentileIsMember(values: seq<int>, p: int)
    requires |values| > 0 && 0 <= p <= 100
    ensures Percentile(values, p).Some?
    ensures Percentile(values, p).value in values
  {
    PercentileIndexInRange(p, |values|);
    SortedMember(values, RubyIndex(p, |values|));
  }

  /** The 0th percentile is a minimum and the 100th a maximum. */
  lemma PercentileExtremes(values: seq<int>)
    requires |values| > 0
    ensures Percentile(values, 0).Some? && Percentile(values, 100).Some?
    ensures forall x :: x in values ==> Percentile(values, 0).value <= x <= Percentile(values, 100).value
  {
    SortedExtremes(values);
  }

  /** Larger percentiles never pick smaller values. */
  lemma PercentileMonotone(values: seq<int>, p: int, q: int)
    requires |values| > 0 && 0 <= p <= q <= 100
    ensures Percentile(values, p).Some? && Percentile(values, q).Some?
    ensures Percentile(values, p).value <= Percentile(values, q).value
  {
    var n := |values|;
    PercentileIndexInRange(p, n);
    PercentileIndexInRange(q, n);
    RankMonotone(p, q, n);
    var s := SortAsc(values);
    assert s[RubyIndex(p, n)] <= s[RubyIndex(q, n)];
  }

  lemma RankMonotone(p: int, q: int, n: nat)
    requires n > 0 && p <= q
    ensures RubyIndex(p, n) <= RubyIndex(q, n)
  {
    MulMonotone(p, q, n - 1);
    RoundDiv100Monotone(p * (n - 1), q * (n - 1));
  }

  /** On an ascending list of a hundred values the 1st and 99th percentiles are
      the second and the second-to-last values. */
  lemma FirstAndNinetyNinthOfHundred(values: seq<int>)
    requires |values| == 100 && IsSorted(values)
    ensures PercentileToValue(values, [1, 99]) == [Some(values[1]), Some(values[98])]
  {
    SortSortedIsIdentity(values);
    assert RubyIndex(1, 100) == 1;
    assert RubyIndex(99, 100) == 98;
  }

  /** each_slice(k).collect(&:first): the first element of every k-long slice. */
  function EachSliceFirsts<T>(xs: seq<T>, k: nat): seq<T>
    requires k >= 1
    decreases |xs|
  {
    if |xs| == 0 then []
    else [xs[0]] + EachSliceFirsts(xs[if k <= |xs| then k else |xs|..], k)
  }

  lemma {:induction false} EachSliceFirstsLength<T>(xs: seq<T>, k: nat)
    requires k >= 1
    ensures |EachSliceFirsts(xs, k)| == (|xs| + k - 1) / k
    decreases |xs|
  {
    if |xs| > 0 {
      if k <= |xs| {
        EachSliceFirstsLength(xs[k..], k);
        DivStep(|xs| - k + k - 1, k);
      } else {
        DivOne(|xs| + k - 1, k);
      }
    }
  }

  lemma {:induction false} EachSliceFirstsAt<T>(xs: seq<T>, k: nat)
    requires k >= 1
    ensures |EachSliceFirsts(xs, k)| == (|xs| + k - 1) / k
    ensures forall i :: 0 <= i < |EachSliceFirsts(xs, k)| ==>
      i * k < |xs| && EachSliceFirsts(xs, k)[i] == xs[i * k]
    decreases |xs|
  {
    EachSliceFirstsLength(xs, k);
    if |xs| > 0 {
      var r := EachSliceFirsts(xs, k);
      if k <= |xs| {
        var rest := xs[k..];
        var tail := EachSliceFirsts(rest, k);
        assert r == [xs[0]] + tail;
        EachSliceFirstsAt(rest, k);
        forall i | 0 < i < |r|
          ensures i * k < |xs| && r[i] == xs[i * k]
        {
          MulSucc(i - 1, k);
          assert r[i] == tail[i - 1];
          assert tail[i - 1] == rest[(i - 1) * k];
        }
      } else {
        assert |r| == 1;
      }
    }
  }

  lemma DivStep(a: nat, k: nat)
    requires k >= 1
    ensures (a + k) / k == a / k + 1
  {
    DivUnique(a + k, k, a / k + 1, a % k);
  }

  /** Integer division is determined by the quotient-remainder decomposition. */
  lemma DivUnique(x: int, k: int, q: int, m: int)
    requires k >= 1 && 0 <= m < k && x == q * k + m
    ensures x / k == q
  {
    var q', m' := x / k, x % k;
    assert x == q' * k + m';
    if q > q' {
      MulMonotone(q' + 1, q, k);
      MulSucc(q', k);
    } else if q < q' {
      MulMonotone(q + 1, q', k);
      MulSucc(q, k);
    }
  }

  lemma MulSucc(a: int, k: int)
    ensures (a + 1) * k == a * k + k
  {
  }

  lemma MulMonotone(a: int, b: int, c: nat)
    requires a <= b
    ensures a * c <= b * c
  {
    var d := b - a;
    assert d * c >= 0;
    assert b * c == a * c + d * c;
  }

  lemma DivOne(a: nat, k: nat)
    requires k <= a < 2 * k
    ensures a / k == 1
  {
  }

  /** Enumerable#regular_sample(num): slices of size `size / num`, first of each. */
  function RegularSample<T>(xs: seq<T>, num: int): (r: Result<seq<T>, Error>)
    ensures num == 0 ==> r == Failure(ZeroDivisionError)
    ensures num != 0 ==> (r.Success? <==> 0 < num <= |xs|)
    ensures num != 0 && r.Failure? ==> r.error == ArgumentError
    ensures r.Success? ==>
      var k := |xs| / num;
      && k >= 1
      && |r.value| == (|xs| + k - 1) / k
      && forall i :: 0 <= i < |r.value| ==> i * k < |xs| && r.value[i] == xs[i * k]
  {
    if num == 0 then Failure(ZeroDivisionError)
    // a negative num, or more samples than values, gives a slice size below 1
    else if num < 0 || |xs| < num then Failure(ArgumentError)
    else
      EachSliceFirstsAt(xs, |xs| / num);
      Success(EachSliceFirsts(xs, |xs| / num))
  }

  /** regular_sample(num) never returns fewer than num readings. */
  lemma RegularSampleAtLeastNum<T>(xs: seq<T>, num: int)
    requires 0 < num <= |xs|
    ensures |RegularSample(xs, num).value| >= num
  {
    var n, k := |xs|, |xs| / num;
    assert k * num <= n by {
      assert n == k * num + n % num;
    }
    var c := (n + k - 1) / k;
    assert n + k - 1 < (c + 1) * k by {
      assert n + k - 1 == c * k + (n + k - 1) % k;
      MulSucc(c, k);
    }
    if c < num {
      MulMonotone(c + 1, num, k);
    }
  }

  /** With fewer than twice num readings the slice size is 1 and every reading is kept:
      599 readings sampled down to 300 stay 599. */
  lemma RegularSampleKeepsAllBelowTwiceNum<T>(xs: seq<T>, num: int)
    requires 0 < num <= |xs| < 2 * num
    ensures RegularSample(xs, num) == Success(xs)
  {
    DivUnique(|xs|, num, 1, |xs| - num);
    var r := RegularSample(xs, num).value;
    assert |r| == |xs|;
    forall i | 0 <= i < |r|
      ensures r[i] == xs[i]
    {
      assert i * 1 == i;
    }
    assert r == xs;
  }
}
