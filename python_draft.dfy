// imu_calibrator.py: the Python draft's helpers, its Vector, its percentile
// guess and the strided subsample taken in run.
module PythonDraft {
  import opened Base
  import opened Sorting
  import Enumerable
  import opened Calibrations

  function Sum(xs: seq<real>): real {
    if |xs| == 0 then 0.0 else Sum(xs[..|xs| - 1]) + xs[|xs| - 1]
  }

  /** average: `sum(list) / len(list)`; an empty list divides by zero. */
  function Average(xs: seq<real>): (r: Result<real, Error>)
    ensures r.Failure? <==> |xs| == 0
    ensures r.Failure? ==> r.error == ZeroDivisionError
    ensures r.Success? ==> r.value * |xs| as real == Sum(xs)
  {
    if |xs| == 0 then Failure(ZeroDivisionError)
    else
      var n := |xs| as real;
      assert Sum(xs) / n * n == Sum(xs);
      Success(Sum(xs) / n)
  }

  lemma {:induction false} SumBounds(xs: seq<real>, lo: real, hi: real)
    requires forall i :: 0 <= i < |xs| ==> lo <= xs[i] <= hi
    ensures |xs| as real * lo <= Sum(xs) <= |xs| as real * hi
  {
    if |xs| > 0 {
      SumBounds(xs[..|xs| - 1], lo, hi);
    }
  }

  /** The average of a non-empty list lies between any lower and upper bound of its elements. */
  lemma AverageBounds(xs: seq<real>, lo: real, hi: real)
    requires |xs| > 0
    requires forall i :: 0 <= i < |xs| ==> lo <= xs[i] <= hi
    ensures lo <= Average(xs).value <= hi
  {
    SumBounds(xs, lo, hi);
    var n := |xs| as real;
    var a := Average(xs).value;
    assert a * n == Sum(xs);
  }

  /** int() of x / 100: truncation toward zero. */
  function TruncDiv100(x: int): (r: int)
    ensures x >= 0 ==> 100 * r <= x < 100 * r + 100
    ensures x < 0 ==> 100 * r - 100 < x <= 100 * r
  {
    if x >= 0 then x / 100 else -((-x) / 100)
  }

  /** The index `int(p / 100.0 * (len(list) - 1))` for a list of n values. */
  function PyIndex(p: int, n: nat): int {
    TruncDiv100(p * (n - 1))
  }

  /** One percentile of `values`: the sorted element at the truncated rank. */
  function Percentile(values: seq<int>, p: int): Result<int, Error> {
    match Enumerable.WrapAt(SortAsc(values), PyIndex(p, |values|))
    case Some(v) => Success(v)
    case None => Failure(IndexError)
  }

  /** What one truncated-rank pick yields: nothing from an empty list, a value
      for an in-range percentile, and only ever a member of the list. */
  lemma PercentileFacts(values: seq<int>, p: int)
    ensures |values| == 0 ==> Percentile(values, p) == Failure(IndexError)
    ensures |values| > 0 && 0 <= p <= 100 ==> Percentile(values, p).Success?
    ensures Percentile(values, p).Success? ==> Percentile(values, p).value in values
  {
    var k := PyIndex(p, |values|);
    if Percentile(values, p).Success? {
      SortedMember(values, if k < 0 then |values| + k else k);
    }
    if |values| > 0 && 0 <= p <= 100 {
      PyIndexInRange(p, |values|);
    }
  }

  /** percentile_to_value: the list comprehension, failing when any percentile's
      index is out of range. */
  function PercentileToValue(values: seq<int>, percentiles: seq<int>): (r: Result<seq<int>, Error>)
    ensures |values| == 0 && |percentiles| > 0 ==> r == Failure(IndexError)
    ensures |values| > 0 && (forall i :: 0 <= i < |percentiles| ==> 0 <= percentiles[i] <= 100) ==> r.Success?
    ensures r.Success? ==> |r.value| == |percentiles|
    ensures r.Success? ==> forall i :: 0 <= i < |r.value| ==> r.value[i] in values
    ensures r.Success? ==> forall i :: 0 <= i < |r.value| ==> Success(r.value[i]) == Percentile(values, percentiles[i])
    decreases |percentiles|
  {
    if |percentiles| == 0 then Success([])
    else
      var head := Percentile(values, percentiles[0]);
      var tail := PercentileToValue(values, percentiles[1..]);
      PercentileFacts(values, percentiles[0]);
      if head.Failure? then Failure(head.error)
      else if tail.Failure? then tail
      else
        Success([head.value] + tail.value)
  }

  /** For a non-empty list and 0 <= p <= 100 the truncated rank is a valid index. */
  lemma PyIndexInRange(p: int, n: nat)
    requires n > 0 && 0 <= p <= 100
    ensures 0 <= PyIndex(p, n) <= n - 1
  {
    Enumerable.MulMonotone(0, p, n - 1);
    Enumerable.MulMonotone(p, 100, n - 1);
  }

  /** Larger percentiles never pick smaller values. */
  lemma PercentileMonotone(values: seq<int>, p: int, q: int)
    requires |values| > 0 && 0 <= p <= q <= 100
    ensures Percentile(values, p).Success? && Percentile(values, q).Success?
    ensures Percentile(values, p).value <= Percentile(values, q).value
  {
    var n := |values|;
    PyIndexInRange(p, n);
    PyIndexInRange(q, n);
    Enumerable.MulMonotone(p, q, n - 1);
    var s := SortAsc(values);
    assert s[PyIndex(p, n)] <= s[PyIndex(q, n)];
  }

  /** In range, truncation picks the same index as Ruby's rounding or the one before. */
  lemma TruncationTrailsRounding(p: int, n: nat)
    requires n > 0 && 0 <= p <= 100
    ensures PyIndex(p, n) <= Enumerable.RubyIndex(p, n) <= PyIndex(p, n) + 1
  {
    assert p * (n - 1) >= 0;
  }

  /** On an ascending list of a hundred values the Python draft picks the first
      value as 1st percentile where the Ruby drafts pick the second. */
  lemma DraftsDisagreeOnFirstPercentile(values: seq<int>)
    requires |values| == 100 && IsSorted(values)
    ensures Percentile(values, 1) == Success(values[0])
    ensures Enumerable.Percentile(values, 1) == Some(values[1])
    ensures Percentile(values, 99) == Success(values[98])
    ensures Enumerable.Percentile(values, 99) == Some(values[98])
  {
    SortSortedIsIdentity(values);
    assert PyIndex(1, 100) == 0 && Enumerable.RubyIndex(1, 100) == 1;
    assert PyIndex(99, 100) == 98 && Enumerable.RubyIndex(99, 100) == 98;
  }

  /** The Python draft's three-component reading. */
  datatype Vector = Vector(x: int, y: int, z: int)
  {
    /** __getitem__: keys 0, 1, 2 select x, y, z; every other key raises. */
    function Get(key: int): (r: Result<int, Error>)
      ensures r.Success? <==> 0 <= key < 3
      ensures r.Failure? ==> r.error == InvalidKey
      ensures r.Success? ==> r.value == [x, y, z][key]
    {
      if key == 0 then Success(x)
      else if key == 1 then Success(y)
      else if key == 2 then Success(z)
      else Failure(InvalidKey)
    }
  }

  /** `[v[axis] for v in readings]` */
  function Column(readings: seq<Vector>, axis: nat): (col: seq<int>)
    requires axis < 3
    ensures |col| == |readings|
  {
    seq(|readings|, i requires 0 <= i < |readings| => readings[i].Get(axis).value)
  }

  /** The two guessed bounds of one axis, the 1st and 99th percentile, sit at `guess[2 * axis ..]`. */
  predicate AxisGuessed(readings: seq<Vector>, guess: seq<int>, axis: nat)
    requires axis < 3 && 2 * axis + 1 < |guess|
  {
    && Success(guess[2 * axis]) == Percentile(Column(readings, axis), 1)
    && Success(guess[2 * axis + 1]) == Percentile(Column(readings, axis), 99)
    && guess[2 * axis] <= guess[2 * axis + 1]
  }

  /** Appending to the guess keeps the bounds already guessed. */
  lemma AxisGuessedExtend(readings: seq<Vector>, guess: seq<int>, more: seq<int>, axis: nat)
    requires axis < 3 && 2 * axis + 1 < |guess|
    requires AxisGuessed(readings, guess, axis)
    ensures AxisGuessed(readings, guess + more, axis)
  {
    assert (guess + more)[2 * axis] == guess[2 * axis];
    assert (guess + more)[2 * axis + 1] == guess[2 * axis + 1];
  }

  /** guess: extends a list with the (1st, 99th) percentile pair of every axis. */
  method Guess(readings: seq<Vector>) returns (r: Result<Calibration<Vector>, Error>)
    ensures r.Failure? <==> |readings| == 0
    ensures r.Failure? ==> r.error == IndexError
    ensures r.Success? ==> r.value.rawReadings == None && |r.value.values| == 6
    ensures r.Success? ==> forall a :: 0 <= a < 3 ==> AxisGuessed(readings, r.value.values, a)
  {
    var guess: seq<int> := [];
    for axis := 0 to 3
      invariant |readings| > 0 || axis == 0
      invariant |guess| == 2 * axis
      invariant forall a :: 0 <= a < axis ==> AxisGuessed(readings, guess, a)
    {
      var values := Column(readings, axis);
      var pair := PercentileToValue(values, [1, 99]);
      if pair.Failure? {
        return Failure(pair.error);
      }
      PercentileMonotone(values, 1, 99);
      ghost var before := guess;
      guess := guess + pair.value;
      forall a | 0 <= a < axis
        ensures AxisGuessed(readings, guess, a)
      {
        AxisGuessedExtend(readings, before, pair.value, a);
      }
      assert AxisGuessed(readings, guess, axis);
    }
    return Success(Calibration(guess, None));
  }

  /** `xs[0::step]`: every step-th element from the first; a zero step raises. */
  function StrideSlice<T>(xs: seq<T>, step: int): (r: Result<seq<T>, Error>)
    ensures r.Failure? <==> step == 0
    ensures r.Failure? ==> r.error == ValueError
    ensures step > 0 ==> r.Success? && |r.value| == (|xs| + step - 1) / step
    ensures step > 0 ==> forall i :: 0 <= i < |r.value| ==> i * step < |xs| && r.value[i] == xs[i * step]
  {
    if step == 0 then Failure(ValueError)
    else if step < 0 then Success(if |xs| == 0 then [] else [xs[0]])
    else
      var count := (|xs| + step - 1) / step;
      assert forall i :: 0 <= i < count ==> i * step < |xs| by {
        forall i | 0 <= i < count
          ensures i * step < |xs|
        {
          StrideInRange(|xs|, step, i);
        }
      }
      Success(seq(count, i requires 0 <= i < count => xs[i * step]))
  }

  lemma StrideInRange(n: nat, step: nat, i: nat)
    requires step > 0 && i < (n + step - 1) / step
    ensures i * step < n
  {
    var c := (n + step - 1) / step;
    assert c * step <= n + step - 1;
    Enumerable.MulMonotone(i + 1, c, step);
    Enumerable.MulSucc(i, step);
  }

  /** The subsample taken in run: `raw_readings[0::(len(raw_readings)/300)]`. */
  function RunSample<T>(readings: seq<T>): (r: Result<seq<T>, Error>)
    ensures r.Failure? <==> |readings| < 300
  {
    StrideSlice(readings, |readings| / 300)
  }

  /** The Python subsample and Ruby's `regular_sample(300)` fail on the same inputs
      and otherwise take the same readings. */
  lemma RunSampleMatchesRegularSample<T>(readings: seq<T>)
    ensures RunSample(readings).Success? <==> Enumerable.RegularSample(readings, 300).Success?
    ensures RunSample(readings).Success? ==>
      RunSample(readings).value == Enumerable.RegularSample(readings, 300).value
  {
    if |readings| >= 300 {
      var a := RunSample(readings).value;
      var b := Enumerable.RegularSample(readings, 300).value;
      assert |a| == |b|;
      forall i | 0 <= i < |a|
        ensures a[i] == b[i]
      {
      }
    }
  }
}
