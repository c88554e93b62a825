# imu-calibrator, modelled in Dafny

The repository holds three drafts of one tool. The tool fits a per-axis min/max
calibration to raw 3-axis sensor readings:

- `imu-calibrator.rb`: the complete Ruby draft;
- `imu_calibrator.rb`: an earlier Ruby draft;
- `imu_calibrator.py`: an unfinished Python port.

Each draft guesses six integer bounds (a min and max per axis) from the 1st and
99th percentile of every axis. The two Ruby drafts then improve the bounds one at a
time with a coordinate-ascent search against a score. The score measures how close
the scaled readings come to unit magnitude. The Python draft stops after the guess:
its `tune` only rebinds the readings and prints the calibration.

This project models the discrete logic around that search:

- the nearest-rank percentile (rounded in Ruby, truncated in Python);
- the evenly strided subsample (`regular_sample`, and the Python slice `[0::len/300]`);
- order-preserving deduplication of readings (`uniq!`);
- the `Calibration` value object and both drafts' per-axis affine scaling, over exact reals;
- the greedy ray walk `try_dir` and the convergence loop `tune`;
- the best-of-three step of the earlier Ruby draft, whose `tune_calibration` overwrites the field `@calibration`.

The score is a parameter `score: seq<int> -> int` with `score(v) <= 0` for every `v`.
It is the fitness of a set of bounds against the readings the calibration is bound to.
An ordered, bounded-above integer image is enough for every property below. The
source's score is a negated mean of squares of doubles, so it is never above zero,
and doubles are a finite ordered set. The bound is also what makes `try_dir` and
`tune` terminate (`decreases 0 - score(...)`).

Modules, one per component:

- `Base`: Option/Result and the drafts' exceptions;
- `Sorting`: the ascending sort;
- `Enumerable`: the Ruby percentile and subsampling helpers;
- `Readings`: readings and `uniq!`;
- `Calibrations`: the value object and scaling;
- `CoordinateAscent`: guess, `try_dir`, `tune`;
- `BestOfThree`: the earlier Ruby draft's driver class;
- `PythonDraft`: the Python draft.

Ruby's `Calibration.new` and Python's `Calibration.__init__` are the datatype
constructor `Calibration(values, rawReadings)`. Python's `tuple(values)` is the same
sequence.

How the drafts differ:

- Percentile rounding. For an ascending list of 100 values, the Ruby drafts take
  `values[1]` as the 1st percentile; the Python draft takes `values[0]`.
- Scaling formula. The two Ruby drafts write `scale` differently; the results are
  equal over the reals.
- Step rule. The complete Ruby draft walks a bound greedily and stops at a fixed
  point. The earlier one takes the best of down/stay/up. Ties go to the earliest of
  down, current, up, and it never stops.

`tune` stops on `last_cal == cal`. `Calibration` defines no `==`, so this is object
identity. The model compares by value. A pass that accepts any step strictly raises
the score, so it cannot end with equal bounds. Value equality therefore holds exactly
when the pass accepted no step, which is when the source's identity test holds.
`Tune` carries the invariant `current == lastCal || score(current) > score(lastCal)`
for this.

## Model

| member | source | states |
|---|---|---|
| `Sorting.SortAsc` | imu-calibrator.rb:31 | the result is ascending and a permutation (same multiset) of the input |
| `Sorting.SortSortedIsIdentity` | imu_calibrator.py:8 | sorting an already ascending list returns it unchanged |
| `Enumerable.RubyIndex` | imu-calibrator.rb:33 | the rank `(p / 100.0 * (n - 1)).round`; it lies in [0, n-1] by `PercentileIndexInRange` and grows with p by `RankMonotone` |
| `Enumerable.Percentile` | imu-calibrator.rb:31-34 | one percentile: the sorted input read at the rounded rank, nil out of range; `PercentileIsMember`, `PercentileExtremes` and `PercentileMonotone` state what it yields |
| `Enumerable.RoundDiv100` | imu-calibrator.rb:33 | the result is x/100 rounded to the nearest integer, halves away from zero (Float#round) |
| `Enumerable.WrapAt` | imu-calibrator.rb:34 | indexing yields a value exactly for -n <= i < n, negative indices counting from the end, nil otherwise |
| `Enumerable.PercentileToValue` | imu-calibrator.rb:30-36 | one result per requested percentile; every non-nil result is a member of the input; an empty input gives nil for all; a non-empty input gives a value for every percentile in [0, 100] |
| `Enumerable.PercentileIndexInRange` | imu-calibrator.rb:33 | for n >= 1 and 0 <= p <= 100 the rounded rank round(p/100*(n-1)) lies in [0, n-1] |
| `Enumerable.PercentileIsMember` | imu_calibrator.rb:6-12 | a percentile in [0, 100] of a non-empty list is defined and is one of its values |
| `Enumerable.PercentileExtremes` | imu-calibrator.rb:30-36 | percentile 0 is a minimum and percentile 100 a maximum of the input |
| `Enumerable.PercentileMonotone` | imu-calibrator.rb:33-34 | p <= q in [0, 100] pick values percentile(p) <= percentile(q) |
| `Enumerable.RankMonotone` | imu-calibrator.rb:33 | the rounded rank is non-decreasing in p |
| `Enumerable.FirstAndNinetyNinthOfHundred` | imu-calibrator.rb:137 | on an ascending list of 100 values, percentile_to_value(1, 99) is [values[1], values[98]] |
| `Enumerable.EachSliceFirsts` | imu-calibrator.rb:53 | `each_slice(k).collect(&:first)`; `EachSliceFirstsLength` and `EachSliceFirstsAt` state its length and elements |
| `Enumerable.EachSliceFirstsLength` | imu-calibrator.rb:53 | there are ceil(n/k) slices of k elements |
| `Enumerable.EachSliceFirstsAt` | imu-calibrator.rb:53 | the firsts of k-long slices are xs[0], xs[k], xs[2k], ..., ceil(n/k) of them |
| `Enumerable.RegularSample` | imu-calibrator.rb:52-54 | num = 0 raises ZeroDivisionError; any slice size below 1 (num < 0 or num > size) raises ArgumentError; otherwise the result is xs[i*k] for i < ceil(n/k), where k = n/num |
| `Enumerable.RegularSampleAtLeastNum` | imu-calibrator.rb:52-54 | regular_sample(num) returns at least num elements |
| `Enumerable.RegularSampleKeepsAllBelowTwiceNum` | imu-calibrator.rb:116 | with fewer than 2*num readings the sample is the whole input (599 readings sampled to 300 stay 599) |
| `Readings.FirstOccurrences` | imu-calibrator.rb:129 | the value `uniq!` leaves behind; `FirstOccurrencesElements` and the `FirstIndices*` lemmas characterise it, and `UniqInPlace` computes it in place |
| `Readings.FirstOccurrencesElements` | imu-calibrator.rb:129 | deduplication keeps exactly the input's elements, with no duplicates, and is no longer than the input |
| `Readings.FirstIndicesAreFirst` | imu-calibrator.rb:129 | every kept position holds the first occurrence of its element |
| `Readings.FirstIndicesAscend` | imu-calibrator.rb:129 | the kept positions are strictly increasing (original relative order) |
| `Readings.FirstIndicesComplete` | imu-calibrator.rb:129 | every first occurrence is kept |
| `Readings.FirstOccurrencesAtFirstIndices` | imu-calibrator.rb:129 | the deduplicated list reads the input exactly at the first-occurrence positions, in order |
| `Readings.DedupExample` | imu-calibrator.rb:129 | [[1,2,3],[1,2,3],[4,5,6]] deduplicates to two readings |
| `Readings.UniqInPlace` | imu-calibrator.rb:129 | compacting the array in place leaves the first occurrences, in order, in its first len cells |
| `Calibrations.Calibration.Increment` | imu_calibrator.rb:60-64 | the new calibration has the same length and readings, changes bound valueId by change, and keeps every other bound |
| `Calibrations.IncrementRoundTrip` | imu-calibrator.rb:72-76 | increment(id, d) then increment(id, -d) restores the calibration |
| `Calibrations.IncrementCompose` | imu-calibrator.rb:72-76 | increment(id, a) then increment(id, b) equals increment(id, a + b) |
| `Calibrations.Calibration.SwitchReadings` | imu-calibrator.rb:68-70 | the rebound calibration has the same bounds and the new readings |
| `Calibrations.SwitchReadingsKeepsValues` | imu_calibrator.py:46-47 | switch_readings keeps the bounds and commutes with increment |
| `Calibrations.Calibration.Scale` | imu-calibrator.rb:91-95 | scale yields three coordinates |
| `Calibrations.ScaleIsPerAxis` | imu-calibrator.rb:91-95 | coordinate a depends only on reading[a] and axis a's two bounds |
| `Calibrations.AxisScale` | imu-calibrator.rb:92 | one coordinate `(c - min) / (max - min) * 2 - 1` over the reals; `AxisScaleEndpoints`, `AxisScaleAffine` and `AxisScaleRange` state what it does |
| `Calibrations.AxisScaleAlt` | imu_calibrator.rb:54 | one coordinate `(c - min) / (max - min) - (max - c) / (max - min)` over the reals; `AxisFormulasAgree` shows it equals `AxisScale` |
| `Calibrations.AxisScaleEndpoints` | imu-calibrator.rb:92 | the axis min maps to -1 and the axis max to +1 |
| `Calibrations.AxisScaleAffine` | imu-calibrator.rb:92-94 | the scaling is affine: the difference of two coordinates is 2(c-d)/(max-min) |
| `Calibrations.AxisScaleRange` | imu-calibrator.rb:92-94 | with min < max, readings in [min, max] scale into [-1, 1] |
| `Calibrations.Calibration.ScaleAlt` | imu_calibrator.rb:51-58 | the earlier draft's scale yields one coordinate per reading component |
| `Calibrations.ScaleAltIsPerAxis` | imu_calibrator.rb:52-53 | the earlier draft's coordinate a reads only reading[a] and values[2a, 2] |
| `Calibrations.AxisFormulasAgree` | imu_calibrator.rb:54 | (c-min)/(max-min) - (max-c)/(max-min) equals (c-min)/(max-min)*2 - 1 over the reals |
| `Calibrations.ScaleDraftsAgree` | imu_calibrator.rb:51-58 | on three-component readings and six bounds both drafts' scale give the same vector |
| `CoordinateAscent.Column` | imu-calibrator.rb:136 | `readings.collect { |v| v[axis] }`: one value per reading |
| `CoordinateAscent.AxisBounds` | imu-calibrator.rb:136-137 | an axis's pair is its 1st and 99th percentile, low <= high, both readings of that axis |
| `CoordinateAscent.Guess` | imu-calibrator.rb:134-140 | no readings fail; otherwise six unbound values, the per-axis pairs interleaved in axis order 0, 1, 2 |
| `CoordinateAscent.GuessLayout` | imu-calibrator.rb:134-140 | axis a's (1st, 99th) pair sits at positions 2a and 2a+1 of the flat_map |
| `CoordinateAscent.GuessPercentiles` | imu-calibrator.rb:134-140 | values[2a] and values[2a+1] of the guess are axis a's 1st and 99th percentile, with values[2a] <= values[2a+1] |
| `CoordinateAscent.TryDir` | imu-calibrator.rb:157-164 | nil iff the first step does not strictly raise the score; otherwise the result is the input moved k*dir on valueId only (k >= 1), each of the k steps strictly raised the score over the one before, and one more step is not strictly better, so the walk stops at the first step that does not improve; the score is then at least k above the input's (this bound comes from the integer score image, see "Left out") |
| `CoordinateAscent.Tune` | imu-calibrator.rb:142-155 | the result is bound to the new readings, keeps the length, never scores lower, is a fixed point (no +1 or -1 step on any bound strictly improves), and a starting fixed point is returned unchanged (idempotence) |
| `BestOfThree.MaxByIndex` | imu_calibrator.rb:114 | max_by picks a candidate of greatest score, and every earlier candidate scores strictly less (ties go to the earliest) |
| `BestOfThree.TuneStep` | imu_calibrator.rb:111-114 | the step keeps the readings, changes only bound valueId and by at most 1, scores at least as high as down, current and up, stays only when down is strictly worse, and goes up only when up beats both |
| `BestOfThree.TuneStepKeepsStrictOptimum` | imu_calibrator.rb:114 | if down is strictly worse and up no better, the step keeps the calibration |
| `BestOfThree.TuneStepTieGoesDown` | imu_calibrator.rb:114 | if down ties with current and up is no better, the step moves down |
| `BestOfThree.Sweep` | imu_calibrator.rb:111-116 | a partial pass keeps the readings and length, never lowers the score, moves each bound by at most 1, and leaves bounds not yet visited unchanged |
| `BestOfThree.Passes` | imu_calibrator.rb:110-117 | n passes keep the readings and length, never lower the score, and move each bound by at most n |
| `BestOfThree.ImuCalibrator.constructor` | imu_calibrator.rb:81-82 | a new driver has no readings and no calibration (Ruby instance variables start nil) |
| `BestOfThree.ImuCalibrator.ReadVectors` | imu_calibrator.rb:91-98 | after appending every parsed line, @raw_readings is exactly the parsed readings |
| `BestOfThree.ImuCalibrator.GuessCalibration` | imu_calibrator.rb:100-106 | @calibration becomes the percentile guess bound to @raw_readings |
| `BestOfThree.ImuCalibrator.TuneBound` | imu_calibrator.rb:112-114 | @calibration becomes the best of down, current and up for one bound; @raw_readings is unchanged |
| `BestOfThree.ImuCalibrator.TunePass` | imu_calibrator.rb:111-116 | one pass replaces @calibration by the sweep over every bound in turn, starting from the old calibration |
| `BestOfThree.ImuCalibrator.TuneCalibration` | imu_calibrator.rb:108-118 | after the given number of passes, @calibration is the result of that many passes from the old calibration, and @raw_readings is unchanged |
| `PythonDraft.Average` | imu_calibrator.py:4-5 | an empty list raises ZeroDivisionError; otherwise average * length == sum |
| `PythonDraft.AverageBounds` | imu_calibrator.py:4-5 | the average of a non-empty list lies within any bounds of its elements |
| `PythonDraft.TruncDiv100` | imu_calibrator.py:9 | the result is x/100 truncated toward zero (int()) |
| `PythonDraft.PyIndex` | imu_calibrator.py:9 | the rank `int(p / 100.0 * (n - 1))`; it lies in [0, n-1] by `PyIndexInRange` and trails the Ruby rank by at most one by `TruncationTrailsRounding` |
| `PythonDraft.Percentile` | imu_calibrator.py:8-9 | one percentile: the sorted list read at the truncated rank, IndexError out of range; `PercentileFacts` and `PercentileMonotone` state what it yields |
| `PythonDraft.PyIndexInRange` | imu_calibrator.py:9 | for n >= 1 and 0 <= p <= 100 the truncated rank lies in [0, n-1] |
| `PythonDraft.PercentileFacts` | imu_calibrator.py:9 | an empty list raises IndexError; an in-range percentile of a non-empty list is defined; a defined result is a member of the list |
| `PythonDraft.PercentileToValue` | imu_calibrator.py:7-9 | an empty list with any percentile raises IndexError; in-range percentiles of a non-empty list succeed; a success has one value per percentile, each a member of the input and that percentile's pick |
| `PythonDraft.PercentileMonotone` | imu_calibrator.py:7-9 | p <= q in [0, 100] pick non-decreasing values |
| `PythonDraft.TruncationTrailsRounding` | imu_calibrator.py:9 | the truncated rank equals the Ruby rounded rank or is one below it |
| `PythonDraft.DraftsDisagreeOnFirstPercentile` | imu_calibrator.py:9 | on 100 ascending values, Python's 1st percentile is values[0] and Ruby's values[1]; both take values[98] as the 99th |
| `PythonDraft.Vector.Get` | imu_calibrator.py:18-26 | keys 0, 1, 2 give x, y, z; every other key, negative ones included, raises |
| `PythonDraft.Column` | imu_calibrator.py:68 | `[v[axis] for v in readings]`: one value per reading |
| `PythonDraft.Guess` | imu_calibrator.py:65-70 | no readings raise IndexError; otherwise six unbound values, with axis a's 1st and 99th percentile at 2a and 2a+1 (low <= high) |
| `PythonDraft.StrideSlice` | imu_calibrator.py:58 | a zero step raises ValueError; a positive step k gives xs[0], xs[k], xs[2k], ..., ceil(n/k) of them |
| `PythonDraft.RunSample` | imu_calibrator.py:58 | the subsample fails exactly when there are fewer than 300 readings (step 0) |
| `PythonDraft.RunSampleMatchesRegularSample` | imu_calibrator.py:58 | the Python subsample and Ruby's regular_sample(300) fail on the same inputs and otherwise agree |

## Left out

- `CoordinateAscent.TryDir`: the clause "score at least k above the input's" holds for the integer score image only. The source's double scores rise strictly at every step but by arbitrary amounts.
- The score itself is left out: `score`, `scaled_magnitudes`, `scaled_readings` and `magnitude` (a square root over doubles). Ruby's `average`, `variance` and `std_deviation` are left out too. The score is an abstract function, bounded above by 0, from the bounds to an ordered integer image.
- `@score ||=` and the other memoisation are not modelled. They are caches with no effect on results.
- Floating point is not modelled. Scaling uses exact reals. Percentile ranks use exact rational arithmetic instead of `p / 100.0` in doubles, so a rank that sits exactly on a .5 tie may round differently in doubles.
- `Calibrations.Calibration.Scale`: requires min != max on every axis. Over doubles the source divides by zero and gets Infinity or NaN. The same holds for `ScaleAlt`.
- `Calibrations.Calibration.Scale`: requires at least six bounds and three components. In the source a missing entry is nil and raises NoMethodError.
- `Calibrations.Calibration.Increment`: requires 0 <= valueId < size. The source's callers only pass indices of `values`. Ruby would wrap a negative index and raise on nil past the end.
- `CoordinateAscent.Guess`: requires every reading to have three components (`WellFormed`). Readings with fewer come from malformed input lines; for them the source compares or indexes nil.
- `CoordinateAscent.Guess`: with no readings it returns `Failure(NoReadings)`. The source builds a calibration of six nils that fails at its first arithmetic.
- `BestOfThree.ImuCalibrator.GuessCalibration`: with no readings it leaves `calibration` as None, for the same reason.
- `BestOfThree.ImuCalibrator.TuneCalibration`: runs a given number of passes. The source's `while true` never returns.
- Percentiles are integers. The source only ever asks for 1 and 99.
- Python `average` is modelled over reals; the draft averages floats. Python 2 integer floor division on integer lists is not modelled.
- Reading and parsing input is not modelled: `run`, `read_vectors` line splitting, `String#to_i` and `int()`. `BestOfThree.ImuCalibrator.ReadVectors` takes already parsed readings.
- Progress output on `$stderr`, `info_string`, `to_s`, `__str__` and `puts` of the result are output only and are not modelled.
- The profiling module and `ruby-prof` HTML report are tooling, not calibration logic, and are not modelled.
- The Python `scaled_readings`, `scale` and `tune` are unfinished stubs (`scale` raises "TODO") and are not modelled.
