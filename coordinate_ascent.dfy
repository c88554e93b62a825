// ImuCalibrator of imu-calibrator.rb: the percentile guess and the greedy
// coordinate-ascent search (`try_dir`, `tune`).
module CoordinateAscent {
  import opened Base
  import opened Sorting
  import opened Enumerable
  import opened Readings
  import opened Calibrations

  /** Readings as read_vectors builds them from well-formed lines: three components each. */
  predicate WellFormed(readings: seq<Vector>) {
    forall v :: v in readings ==> |v| == 3
  }

  /** `readings.collect { |v| v[axis] }`: one axis of every reading. */
  function Column(readings: seq<Vector>, axis: nat): (col: seq<int>)
    requires WellFormed(readings) && axis < 3
    ensures |col| == |readings|
  {
    seq(|readings|, i requires 0 <= i < |readings| => readings[i][axis])
  }

  /** `values.percentile_to_value(1, 99)` for one axis of non-empty readings. */
  function AxisBounds(readings: seq<Vector>, axis: nat): (r: seq<int>)
    requires WellFormed(readings) && |readings| > 0 && axis < 3
    ensures |r| == 2
    ensures Some(r[0]) == Percentile(Column(readings, axis), 1)
    ensures Some(r[1]) == Percentile(Column(readings, axis), 99)
    ensures r[0] <= r[1]
    ensures r[0] in Column(readings, axis) && r[1] in Column(readings, axis)
  {
    var col := Column(readings, axis);
    var pv := PercentileToValue(col, [1, 99]);
    PercentileMonotone(col, 1, 99);
    [pv[0].value, pv[1].value]
  }

  /** guess: `Axes.flat_map` of the per-axis (1st, 99th) percentile pairs. */
  function Guess(readings: seq<Vector>): (r: Result<Calibration<Vector>, Error>)
    requires WellFormed(readings)
    ensures r.Failure? <==> |readings| == 0
    ensures r.Success? ==> r.value.rawReadings == None && |r.value.values| == 6
    ensures r.Success? ==>
      r.value.values == AxisBounds(readings, 0) + AxisBounds(readings, 1) + AxisBounds(readings, 2)
  {
    if |readings| == 0 then Failure(NoReadings)
    else Success(Calibration(AxisBounds(readings, 0) + AxisBounds(readings, 1) + AxisBounds(readings, 2), None))
  }

  /** Position 2a and 2a + 1 of three concatenated pairs are the a-th pair. */
  lemma PairsLayout(b0: seq<int>, b1: seq<int>, b2: seq<int>, a: nat)
    requires |b0| == 2 && |b1| == 2 && |b2| == 2 && a < 3
    ensures (b0 + b1 + b2)[2 * a] == [b0, b1, b2][a][0]
    ensures (b0 + b1 + b2)[2 * a + 1] == [b0, b1, b2][a][1]
  {
  }

  /** Axis a's bounds sit at positions 2a and 2a + 1 of the guess. */
  lemma GuessLayout(readings: seq<Vector>, a: nat)
    requires WellFormed(readings) && |readings| > 0 && a < 3
    ensures Guess(readings).Success?
    ensures Guess(readings).value.values[2 * a] == AxisBounds(readings, a)[0]
    ensures Guess(readings).value.values[2 * a + 1] == AxisBounds(readings, a)[1]
  {
    var b0, b1, b2 := AxisBounds(readings, 0), AxisBounds(readings, 1), AxisBounds(readings, 2);
    var v := Guess(readings).value.values;
    assert v == b0 + b1 + b2;
    PairsLayout(b0, b1, b2, a);
    if a == 0 {
      assert [b0, b1, b2][a] == b0;
    } else if a == 1 {
      assert [b0, b1, b2][a] == b1;
    } else {
      assert [b0, b1, b2][a] == b2;
    }
  }

  /** The guessed bounds of axis a are the 1st and 99th percentile of that axis,
      in that order, and both are readings of that axis. */
  lemma GuessPercentiles(readings: seq<Vector>, a: nat)
    requires WellFormed(readings) && |readings| > 0 && a < 3
    ensures Guess(readings).Success?
    ensures Some(Guess(readings).value.Min(a)) == Percentile(Column(readings, a), 1)
    ensures Some(Guess(readings).value.Max(a)) == Percentile(Column(readings, a), 99)
    ensures Guess(readings).value.Min(a) <= Guess(readings).value.Max(a)
    ensures Guess(readings).value.Min(a) in Column(readings, a)
    ensures Guess(readings).value.Max(a) in Column(readings, a)
  {
    GuessLayout(readings, a);
    var b := AxisBounds(readings, a);
    assert Guess(readings).value.Min(a) == b[0];
    assert Guess(readings).value.Max(a) == b[1];
  }

  /** The calibration reached after `j` steps of `dir` along bound `valueId`. */
  function Walk(cal: Calibration<Vector>, valueId: nat, dir: int, j: nat): Calibration<Vector>
    requires valueId < |cal.values|
  {
    cal.Increment(valueId, j * dir)
  }

  /** try_dir: walks bound `valueId` in steps of `dir` while each step strictly
      raises the score; nil when the first step does not. */
  method TryDir(score: Scorer, cal: Calibration<Vector>, valueId: nat, dir: int)
    returns (improved: Option<Calibration<Vector>>, ghost steps: nat)
    requires Bounded(score)
    requires valueId < |cal.values|
    ensures improved.None? <==> score(cal.Increment(valueId, dir).values) <= score(cal.values)
    ensures improved.Some? ==>
      && steps >= 1
      && improved.value == cal.Increment(valueId, steps * dir)
      && score(improved.value.values) >= score(cal.values) + steps
      && score(improved.value.Increment(valueId, dir).values) <= score(improved.value.values)
    // the walk stops at the first step that does not improve: every step taken did
    ensures improved.Some? ==> forall j :: 0 <= j < steps ==>
      score(Walk(cal, valueId, dir, j + 1).values) > score(Walk(cal, valueId, dir, j).values)
  {
    improved := None;
    steps := 0;
    var current := cal;
    while true
      invariant current == cal.Increment(valueId, steps * dir)
      invariant improved.None? <==> steps == 0
      invariant improved.Some? ==> improved.value == current
      invariant score(current.values) >= score(cal.values) + steps
      invariant steps > 0 ==> score(cal.Increment(valueId, dir).values) > score(cal.values)
      invariant forall j :: 0 <= j < steps ==>
        score(Walk(cal, valueId, dir, j + 1).values) > score(Walk(cal, valueId, dir, j).values)
      decreases 0 - score(current.values)
    {
      var next := current.Increment(valueId, dir);
      if !(score(next.values) > score(current.values)) {
        assert steps == 0 ==> current == cal;
        return;
      }
      IncrementCompose(cal, valueId, steps * dir, dir);
      assert steps * dir + dir == (steps + 1) * dir;
      assert Walk(cal, valueId, dir, steps) == current && Walk(cal, valueId, dir, steps + 1) == next;
      improved, current := Some(next), next;
      steps := steps + 1;
    }
  }

  /** tune: rebinds the readings, then repeats passes over every bound, trying
      +1 and then -1, until a pass accepts no step. */
  method Tune(score: Scorer, cal: Calibration<Vector>, readings: seq<Vector>)
    returns (r: Calibration<Vector>)
    requires Bounded(score)
    ensures r.rawReadings == Some(readings)
    ensures |r.values| == |cal.values|
    ensures score(r.values) >= score(cal.values)
    ensures IsLocalOptimum(score, r)
    ensures IsLocalOptimum(score, cal) ==> r.values == cal.values
  {
    var current := cal.SwitchReadings(readings);
    while true
      invariant current.rawReadings == Some(readings)
      invariant |current.values| == |cal.values|
      invariant score(current.values) >= score(cal.values)
      invariant IsLocalOptimum(score, cal) ==> current.values == cal.values
      decreases 0 - score(current.values)
    {
      var lastCal := current;
      assert IsLocalOptimum(score, cal) ==> IsLocalOptimum(score, lastCal) by {
        if IsLocalOptimum(score, cal) {
          LocalOptimumDependsOnValues(score, cal, lastCal);
        }
      }
      var valueId := 0;
      while valueId < |lastCal.values|
        invariant 0 <= valueId <= |lastCal.values|
        invariant current.rawReadings == Some(readings)
        invariant |current.values| == |lastCal.values|
        invariant current == lastCal || score(current.values) > score(lastCal.values)
        invariant current == lastCal ==> forall j :: 0 <= j < valueId ==>
          && score(current.Increment(j, 1).values) <= score(current.values)
          && score(current.Increment(j, -1).values) <= score(current.values)
        invariant IsLocalOptimum(score, lastCal) ==> current == lastCal
      {
        var up, _ := TryDir(score, current, valueId, 1);
        if up.Some? {
          current := up.value;
        } else {
          var down, _ := TryDir(score, current, valueId, -1);
          if down.Some? {
            current := down.value;
          }
        }
        valueId := valueId + 1;
      }
      if lastCal == current {
        return current;
      }
    }
  }
}
