// ImuCalibrator of imu_calibrator.rb: the guess stored in @calibration and the
// best-of-three coordinate step that tune_calibration repeats.
module BestOfThree {
  import opened Base
  import opened Readings
  import opened Calibrations
  import opened CoordinateAscent

  /** Enumerable#max_by: the index of the first candidate with the greatest score. */
  function MaxByIndex(score: Scorer, cands: seq<Calibration<Vector>>): (i: nat)
    requires |cands| > 0
    ensures i < |cands|
    ensures forall j :: 0 <= j < |cands| ==> score(cands[j].values) <= score(cands[i].values)
    ensures forall j :: 0 <= j < i ==> score(cands[j].values) < score(cands[i].values)
    decreases |cands|
  {
    if |cands| == 1 then 0
    else
      var last := |cands| - 1;
      var i := MaxByIndex(score, cands[..last]);
      if score(cands[last].values) > score(cands[i].values) then last else i
  }

  /** One step of tune_calibration: `[down, current, up].max_by(&:score)` for bound `valueId`. */
  function TuneStep(score: Scorer, cal: Calibration<Vector>, valueId: nat): (r: Calibration<Vector>)
    requires valueId < |cal.values|
    ensures r.rawReadings == cal.rawReadings && |r.values| == |cal.values|
    ensures forall j :: 0 <= j < |cal.values| && j != valueId ==> r.values[j] == cal.values[j]
    ensures cal.values[valueId] - 1 <= r.values[valueId] <= cal.values[valueId] + 1
    ensures score(r.values) >= score(cal.values)
    ensures score(r.values) >= score(cal.Increment(valueId, -1).values)
    ensures score(r.values) >= score(cal.Increment(valueId, 1).values)
    // ties go to the earliest of down, current, up
    ensures r.values[valueId] == cal.values[valueId] ==>
      score(cal.values) > score(cal.Increment(valueId, -1).values)
    ensures r.values[valueId] == cal.values[valueId] + 1 ==>
      && score(r.values) > score(cal.Increment(valueId, -1).values)
      && score(r.values) > score(cal.values)
  {
    var up := cal.Increment(valueId, 1);
    var down := cal.Increment(valueId, -1);
    var cands := [down, cal, up];
    var i := MaxByIndex(score, cands);
    assert cands[0] == down && cands[1] == cal && cands[2] == up;
    assert score(cands[1].values) <= score(cands[i].values);
    assert down.values[valueId] < cal.values[valueId] < up.values[valueId];
    cands[i]
  }

  /** TuneStep is the max_by over down, current and up. */
  lemma TuneStepIsMaxBy(score: Scorer, cal: Calibration<Vector>, valueId: nat)
    requires valueId < |cal.values|
    ensures var cands := [cal.Increment(valueId, -1), cal, cal.Increment(valueId, 1)];
      TuneStep(score, cal, valueId) == cands[MaxByIndex(score, cands)]
  {
  }

  /** A strict local optimum of one bound is left where it is. */
  lemma TuneStepKeepsStrictOptimum(score: Scorer, cal: Calibration<Vector>, valueId: nat)
    requires valueId < |cal.values|
    requires score(cal.Increment(valueId, -1).values) < score(cal.values)
    requires score(cal.Increment(valueId, 1).values) <= score(cal.values)
    ensures TuneStep(score, cal, valueId) == cal
  {
    var r := TuneStep(score, cal, valueId);
    assert r.values == cal.values;
  }

  /** When stepping down scores as well as staying, the step goes down. */
  lemma TuneStepTieGoesDown(score: Scorer, cal: Calibration<Vector>, valueId: nat)
    requires valueId < |cal.values|
    requires score(cal.Increment(valueId, -1).values) == score(cal.values)
    requires score(cal.Increment(valueId, 1).values) <= score(cal.values)
    ensures TuneStep(score, cal, valueId) == cal.Increment(valueId, -1)
  {
    var r := TuneStep(score, cal, valueId);
    assert r.values == cal.Increment(valueId, -1).values;
  }

  /** The first `count` steps of one pass of tune_calibration, starting from `start`. */
  function Sweep(score: Scorer, start: Calibration<Vector>, count: nat): (r: Calibration<Vector>)
    requires count <= |start.values|
    ensures r.rawReadings == start.rawReadings && |r.values| == |start.values|
    ensures score(r.values) >= score(start.values)
    ensures forall j :: 0 <= j < |start.values| ==> start.values[j] - 1 <= r.values[j] <= start.values[j] + 1
    ensures forall j :: count <= j < |start.values| ==> r.values[j] == start.values[j]
    decreases count
  {
    if count == 0 then start
    else TuneStep(score, Sweep(score, start, count - 1), count - 1)
  }

  /** `passes` complete passes of tune_calibration over every bound. */
  function Passes(score: Scorer, start: Calibration<Vector>, passes: nat): (r: Calibration<Vector>)
    ensures r.rawReadings == start.rawReadings && |r.values| == |start.values|
    ensures score(r.values) >= score(start.values)
    ensures forall j :: 0 <= j < |start.values| ==>
      start.values[j] - passes <= r.values[j] <= start.values[j] + passes
    decreases passes
  {
    if passes == 0 then start
    else
      var before := Passes(score, start, passes - 1);
      Sweep(score, before, |before.values|)
  }

  /** The driver of imu_calibrator.rb, holding the readings and the current calibration. */
  class ImuCalibrator {
    var rawReadings: seq<Vector>
    var calibration: Option<Calibration<Vector>>

    constructor ()
      ensures rawReadings == [] && calibration == None
    {
      rawReadings := [];
      calibration := None;
    }

    /** read_vectors: appends one parsed reading per input line to @raw_readings. */
    method ReadVectors(parsed: seq<Vector>)
      modifies this
      ensures rawReadings == parsed && calibration == old(calibration)
    {
      rawReadings := [];
      for i := 0 to |parsed|
        invariant rawReadings == parsed[..i]
        invariant calibration == old(calibration)
      {
        rawReadings := rawReadings + [parsed[i]];
      }
    }

    /** guess_calibration: stores the percentile guess bound to @raw_readings. */
    method GuessCalibration()
      requires WellFormed(rawReadings)
      modifies this
      ensures rawReadings == old(rawReadings)
      ensures |rawReadings| == 0 ==> calibration == None
      ensures |rawReadings| > 0 ==> calibration == Some(Guess(rawReadings).value.SwitchReadings(rawReadings))
    {
      var guess := Guess(rawReadings);
      if guess.Success? {
        calibration := Some(guess.value.SwitchReadings(rawReadings));
      } else {
        calibration := None;
      }
    }

    /** One step of the loop in tune_calibration: @calibration becomes the best of
        down, current and up for bound `valueId`. */
    method TuneBound(score: Scorer, valueId: nat)
      requires calibration.Some? && valueId < |calibration.value.values|
      modifies this
      ensures rawReadings == old(rawReadings)
      ensures calibration == Some(TuneStep(score, old(calibration.value), valueId))
    {
      var current := calibration.value;
      var up := current.Increment(valueId, 1);
      var down := current.Increment(valueId, -1);
      TuneStepIsMaxBy(score, current, valueId);
      calibration := Some([down, current, up][MaxByIndex(score, [down, current, up])]);
    }

    /** One pass of the loop in tune_calibration: every bound in turn. */
    method TunePass(score: Scorer)
      requires calibration.Some?
      modifies this
      ensures rawReadings == old(rawReadings)
      ensures calibration == Some(Sweep(score, old(calibration.value), |old(calibration.value).values|))
    {
      var passStart := calibration.value;
      for valueId := 0 to |passStart.values|
        invariant rawReadings == old(rawReadings)
        invariant calibration == Some(Sweep(score, passStart, valueId))
      {
        TuneBound(score, valueId);
      }
    }

    /** tune_calibration, cut off after `passes` passes (the source never stops). */
    method TuneCalibration(score: Scorer, passes: nat)
      requires calibration.Some?
      modifies this
      ensures rawReadings == old(rawReadings)
      ensures calibration == Some(Passes(score, old(calibration.value), passes))
    {
      ghost var start := calibration.value;
      for pass := 0 to passes
        invariant rawReadings == old(rawReadings)
        invariant calibration == Some(Passes(score, start, pass))
      {
        TunePass(score);
      }
    }
  }
}
