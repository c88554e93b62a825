// The Calibration value object shared by all three drafts: six integer bounds,
// read as (min, max) pairs for axes 0, 1 and 2, bound to a set of raw readings.
module Calibrations {
  import opened Base

  /** A calibration: `values` are frozen; `rawReadings` is nil until bound. */
  datatype Calibration<R> = Calibration(values: seq<int>, rawReadings: Option<seq<R>>)
  {
    /** increment: a new calibration whose bound `valueId` is shifted by `change`. */
    function Increment(valueId: nat, change: int): (r: Calibration<R>)
      requires valueId < |values|
      ensures r.rawReadings == rawReadings
      ensures |r.values| == |values|
      ensures r.values[valueId] == values[valueId] + change
      ensures forall j :: 0 <= j < |values| && j != valueId ==> r.values[j] == values[j]
    {
      Calibration(values[valueId := values[valueId] + change], rawReadings)
    }

    /** switch_readings: the same bounds, bound to other readings. */
    function SwitchReadings(readings: seq<R>): (r: Calibration<R>)
      ensures r.values == values && r.rawReadings == Some(readings)
    {
      Calibration(values, Some(readings))
    }

    /** The lower bound of an axis, `values[2 * axis]`. */
    function Min(axis: nat): int
      requires 2 * axis + 1 < |values|
    {
      values[2 * axis]
    }

    /** The upper bound of an axis, `values[2 * axis + 1]`. */
    function Max(axis: nat): int
      requires 2 * axis + 1 < |values|
    {
      values[2 * axis + 1]
    }

    /** Every one of the first `axes` axes has distinct bounds, so scaling it divides by a non-zero width. */
    predicate HasRanges(axes: nat)
      requires 2 * axes <= |values|
    {
      forall a :: 0 <= a < axes ==> Min(a) != Max(a)
    }

    /** scale in imu-calibrator.rb: three coordinates, `(c - min) / (max - min) * 2 - 1`. */
    function Scale(reading: seq<int>): (r: seq<real>)
      requires |values| >= 6 && HasRanges(3) && |reading| >= 3
      ensures |r| == 3
    {
      [AxisScale(reading[0], Min(0), Max(0)),
       AxisScale(reading[1], Min(1), Max(1)),
       AxisScale(reading[2], Min(2), Max(2))]
    }

    /** scale in imu_calibrator.rb: one coordinate per reading component,
        `(c - min) / (max - min) - (max - c) / (max - min)`. */
    function ScaleAlt(reading: seq<int>): (r: seq<real>)
      requires 2 * |reading| <= |values| && HasRanges(|reading|)
      ensures |r| == |reading|
    {
      seq(|reading|, a requires 0 <= a < |reading| => AxisScaleAlt(reading[a], Min(a), Max(a)))
    }
  }

  /** One coordinate of imu-calibrator.rb's scale, over exact reals. */
  function AxisScale(c: int, lo: int, hi: int): real
    requires lo != hi
  {
    (c - lo) as real / (hi - lo) as real * 2.0 - 1.0
  }

  /** One coordinate of imu_calibrator.rb's scale, over exact reals. */
  function AxisScaleAlt(c: int, lo: int, hi: int): real
    requires lo != hi
  {
    (c - lo) as real / (hi - lo) as real - (hi - c) as real / (hi - lo) as real
  }

  /** The two drafts' per-axis formulas are algebraically equal. */
  lemma AxisFormulasAgree(c: int, lo: int, hi: int)
    requires lo != hi
    ensures AxisScaleAlt(c, lo, hi) == AxisScale(c, lo, hi)
  {
    var w := (hi - lo) as real;
    var u := (c - lo) as real;
    assert w != 0.0;
    assert (hi - c) as real == w - u;
    assert (w - u) / w == w / w - u / w;
    assert w / w == 1.0;
  }

  /** The lower bound scales to -1 and the upper bound to +1. */
  lemma AxisScaleEndpoints(lo: int, hi: int)
    requires lo != hi
    ensures AxisScale(lo, lo, hi) == -1.0
    ensures AxisScale(hi, lo, hi) == 1.0
  {
    var w := (hi - lo) as real;
    assert w / w == 1.0;
  }

  /** The scaling is affine: coordinate differences are raw differences times 2 / (max - min). */
  lemma AxisScaleAffine(c: int, d: int, lo: int, hi: int)
    requires lo != hi
    ensures AxisScale(c, lo, hi) - AxisScale(d, lo, hi) == 2.0 * (c - d) as real / (hi - lo) as real
  {
    var w := (hi - lo) as real;
    var u, v := (c - lo) as real, (d - lo) as real;
    assert u / w - v / w == (u - v) / w;
    assert (c - d) as real == u - v;
  }

  /** With min < max, readings in [min, max] scale into [-1, 1]. */
  lemma AxisScaleRange(c: int, lo: int, hi: int)
    requires lo < hi && lo <= c <= hi
    ensures -1.0 <= AxisScale(c, lo, hi) <= 1.0
  {
    var w := (hi - lo) as real;
    var u := (c - lo) as real;
    assert 0.0 <= u <= w;
    assert u / w <= w / w;
    assert w / w == 1.0;
  }

  /** Coordinate a of scale is the axis formula applied to reading[a] and axis a's bounds. */
  lemma ScaleCoordinate<R>(cal: Calibration<R>, reading: seq<int>, a: nat)
    requires |cal.values| >= 6 && cal.HasRanges(3) && |reading| >= 3 && a < 3
    ensures cal.Scale(reading)[a] == AxisScale(reading[a], cal.Min(a), cal.Max(a))
  {
  }

  /** Axis a of scale depends only on reading[a], values[2a] and values[2a+1]. */
  lemma ScaleIsPerAxis<R>(c1: Calibration<R>, c2: Calibration<R>, r1: seq<int>, r2: seq<int>, a: nat)
    requires |c1.values| >= 6 && c1.HasRanges(3) && |r1| >= 3
    requires |c2.values| >= 6 && c2.HasRanges(3) && |r2| >= 3
    requires a < 3 && r1[a] == r2[a] && c1.Min(a) == c2.Min(a) && c1.Max(a) == c2.Max(a)
    ensures c1.Scale(r1)[a] == c2.Scale(r2)[a]
  {
    ScaleCoordinate(c1, r1, a);
    ScaleCoordinate(c2, r2, a);
  }

  /** On three-component readings and six bounds the two drafts' scale agree. */
  lemma ScaleDraftsAgree<R>(cal: Calibration<R>, reading: seq<int>)
    requires |cal.values| == 6 && |reading| == 3 && cal.HasRanges(3)
    ensures cal.ScaleAlt(reading) == cal.Scale(reading)
  {
    forall a | 0 <= a < 3
      ensures cal.ScaleAlt(reading)[a] == cal.Scale(reading)[a]
    {
      AxisFormulasAgree(reading[a], cal.Min(a), cal.Max(a));
    }
  }

  /** ScaleAlt's axis a reads only reading[a] and `values[2 * a, 2]`. */
  lemma ScaleAltIsPerAxis<R>(cal: Calibration<R>, reading: seq<int>, a: nat)
    requires 2 * |reading| <= |cal.values| && cal.HasRanges(|reading|) && a < |reading|
    ensures cal.ScaleAlt(reading)[a] == AxisScale(reading[a], cal.values[2 * a], cal.values[2 * a + 1])
  {
    AxisFormulasAgree(reading[a], cal.Min(a), cal.Max(a));
  }

  /** increment(id, d) followed by increment(id, -d) restores the calibration. */
  lemma IncrementRoundTrip<R>(cal: Calibration<R>, valueId: nat, change: int)
    requires valueId < |cal.values|
    ensures cal.Increment(valueId, change).Increment(valueId, -change) == cal
  {
  }

  /** Successive increments of one bound add up. */
  lemma IncrementCompose<R>(cal: Calibration<R>, valueId: nat, a: int, b: int)
    requires valueId < |cal.values|
    ensures cal.Increment(valueId, a).Increment(valueId, b) == cal.Increment(valueId, a + b)
  {
  }

  /** Rebinding readings keeps the bounds, and commutes with increment. */
  lemma SwitchReadingsKeepsValues<R>(cal: Calibration<R>, readings: seq<R>, valueId: nat, change: int)
    requires valueId < |cal.values|
    ensures cal.SwitchReadings(readings).values == cal.values
    ensures cal.SwitchReadings(readings).Increment(valueId, change)
         == cal.Increment(valueId, change).SwitchReadings(readings)
  {
  }

  /** A score: the fitness of a calibration's bounds against the readings it is bound to.
      The source's score is a negated mean of squares, so it never exceeds zero. */
  type Scorer = seq<int> -> int

  ghost predicate Bounded(score: Scorer) {
    forall v :: score(v) <= 0
  }

  /** No single +1 or -1 step of any bound strictly raises the score. */
  ghost predicate IsLocalOptimum<R>(score: Scorer, cal: Calibration<R>) {
    forall id :: 0 <= id < |cal.values| ==>
      && score(cal.Increment(id, 1).values) <= score(cal.values)
      && score(cal.Increment(id, -1).values) <= score(cal.values)
  }

  /** Whether a calibration is a local optimum depends on its bounds alone. */
  lemma LocalOptimumDependsOnValues<R>(score: Scorer, c1: Calibration<R>, c2: Calibration<R>)
    requires c1.values == c2.values
    ensures IsLocalOptimum(score, c1) <==> IsLocalOptimum(score, c2)
  {
    forall id | 0 <= id < |c1.values|
      ensures c1.Increment(id, 1).values == c2.Increment(id, 1).values
      ensures c1.Increment(id, -1).values == c2.Increment(id, -1).values
    {
    }
  }
}
