# Rolling volatility indicator, modelled in Dafny

This project models the volatility estimator that feeds hummingbot's
Avellaneda market-making strategy
(`hummingbot/strategy/avellaneda_market_making/volatility_indicator.py`).
It has three layers:

- **RingBuffer** (module `RingBuffers`). A fixed-capacity store of prices.
  It first grows by appending. The append that fills it switches it for good
  into overwrite mode. From then on each append writes the slot under a
  cursor and advances the cursor modulo the capacity.
  - The source swaps the object's class to make that switch; the model uses a
    `full` flag.
  - The source has no cursor before the switch; the model keeps it at 0.
  - Every field is tied to a function of the ghost `History` (all samples ever
    appended): `Window` is the samples oldest first, `Cursor` is the slot
    holding the oldest one, `Storage` is what the appends leave behind.
  - `StorageIsRotated` proves the storage is the window rotated by the cursor.
- **VolatilityIndicator** (module `Volatility`). It holds one buffer of prices.
  `value(ticks)` is computed as follows:
  - Take every `ticks`-th sample of the buffer's raw storage, walking back
    from the last stored sample.
  - Form the percentage returns between consecutive subsamples.
  - Report the square root of the sum of squared returns divided by the
    number of returns minus one.
  - `None` stands for the source's NaN.
- **RollingVolatilityIndicator** (module `RollingVolatility`).
  - After each price it offers every horizon in
    1, 5, 10, 20, 30, 40, 50, 60, 120, 180, 600 the indicator's reading.
  - A horizon gets the reading only when one exists.
  - Each horizon's readings go into a ring buffer of their own.
  - `value(period)` is the mean of that buffer.

Both indicators take a sampling length of 600 when none is given
(`DefaultSamplingLength`; volatility_indicator.py:11 and :55).

**Scale invariance.** Multiplying every price by the same positive factor
changes no reading: `ScaleInvariance` states it for a storage snapshot,
`StorageScale` carries the scaling through every append, and
`ScaledIndicatorsAgree` states it for two indicators fed scaled prices.

Module `VolatilityExamples` works the unit tests' scenarios through the model.

**Storage order.** The indicator computes over `get_as_numpy_array()`, the
buffer's raw storage, and not over `get()`, which is in time order. Once
a full buffer's cursor has moved off 0, the newest sample no longer sits at
the end of the storage.
- The model follows the code here. Its readings are those of the storage
  order.
- `StorageOrderDiffersAfterWrap`, `StorageAfterWrap` and
  `WrappedStorageVariance` show where this departs from an estimate over the
  samples in time order.
- `ValueInTimeOrder` shows the two agree whenever the cursor is at 0.
- The source's comment on `value` (volatility_indicator.py:73) says the
  subsamples start from the most recent sample. That holds only while the
  cursor is 0; after a wrap the walk starts from the last slot of the
  storage, which holds an older sample.

**The square root** is a parameter `sqrt` with the property `IsSqrt`: for
every non-negative `x`, `sqrt(x)` is non-negative and squares to `x`. Results
are stated exactly on the reals as squared volatilities (`Variance`), and the
reported reading is proved to be their root (`RootOf`).

## Model

| member | source | states |
|---|---|---|
| RingBuffers.Storage | hummingbot/strategy/avellaneda_market_making/volatility_indicator.py:102-136 | the storage the appends leave holds `max` samples once the buffer is saturated, and all samples before |
| RingBuffers.WindowLength | hummingbot/strategy/avellaneda_market_making/volatility_indicator.py:114-127 | the buffer's length is the number of samples until it reaches a positive capacity, then exactly the capacity, never more |
| RingBuffers.WindowAppend | hummingbot/strategy/avellaneda_market_making/volatility_indicator.py:102-109 | seen in time order, an append adds the sample at the end and, once the buffer is full, evicts the oldest |
| RingBuffers.CursorInWindow | hummingbot/strategy/avellaneda_market_making/volatility_indicator.py:105 | the cursor is always a valid slot of a full buffer |
| RingBuffers.CursorAppend | hummingbot/strategy/avellaneda_market_making/volatility_indicator.py:129-136 | an append advances a full buffer's cursor modulo `max`; the cursor is 0 before, including right after the filling append |
| RingBuffers.RotatedAppendSaturated | hummingbot/strategy/avellaneda_market_making/volatility_indicator.py:102-105 | overwriting the slot under the cursor keeps the storage equal to the window rotated by the new cursor |
| RingBuffers.RotatedAppendGrowing | hummingbot/strategy/avellaneda_market_making/volatility_indicator.py:129-131 | appending to a growing buffer keeps the storage equal to the rotated window |
| RingBuffers.StorageIsRotated | hummingbot/strategy/avellaneda_market_making/volatility_indicator.py:102-136 | the storage after any history is the window of the last `max` samples rotated by the cursor |
| RingBuffers.StorageRotatesToWindow | hummingbot/strategy/avellaneda_market_making/volatility_indicator.py:107-109 | the storage read from the cursor on, then up to it, is exactly the samples oldest first |
| RingBuffers.StorageAtCursorZero | hummingbot/strategy/avellaneda_market_making/volatility_indicator.py:117-121 | with the cursor at 0, raw storage and time order coincide |
| RingBuffers.StorageOrderDiffersAfterWrap | hummingbot/strategy/avellaneda_market_making/volatility_indicator.py:117-118 | with the cursor off 0 and distinct samples, raw storage differs from time order; its first slot holds the sample `max - cursor` places into the window |
| RingBuffers.RingBuffer.constructor | hummingbot/strategy/avellaneda_market_making/volatility_indicator.py:96-98 | a new buffer has the given capacity, no samples and is not full |
| RingBuffers.RingBuffer.Append | hummingbot/strategy/avellaneda_market_making/volatility_indicator.py:102-136 | full: only `data[cur]` changes, to `x`, and `cur` advances modulo `max`; growing: `x` goes at the end and the buffer becomes full exactly when its length reaches `max`; in time order the oldest sample is dropped when full |
| RingBuffers.RingBuffer.Get | hummingbot/strategy/avellaneda_market_making/volatility_indicator.py:107-109 | the samples oldest first: the last `max` samples of the history once full, all of them before |
| RingBuffers.RingBuffer.Raw | hummingbot/strategy/avellaneda_market_making/volatility_indicator.py:117-121 | the raw storage is `get()` rotated back by the cursor and holds the same samples; it equals `get()` when the cursor is 0 |
| RingBuffers.RingBuffer.IsFull | hummingbot/strategy/avellaneda_market_making/volatility_indicator.py:111-124 | for a positive capacity, full exactly when at least `max` samples have been appended, and a full buffer stores `max` samples; a capacity of 0 or less never becomes full |
| RingBuffers.RingBuffer.Len | hummingbot/strategy/avellaneda_market_making/volatility_indicator.py:114-127 | the length is that of `get()`: the number of samples appended, capped at `max` for a positive capacity and uncapped otherwise |
| Volatility.Reverse | hummingbot/strategy/avellaneda_market_making/volatility_indicator.py:76 | element `k` of the reversal is element `n-1-k` of the samples |
| Volatility.Stride | hummingbot/strategy/avellaneda_market_making/volatility_indicator.py:76 | a stride of `ticks` over `n` elements has ceil(n / ticks) elements |
| Volatility.StrideElement | hummingbot/strategy/avellaneda_market_making/volatility_indicator.py:76 | element `i` of the stride is element `i * ticks` of the sequence |
| Volatility.Subsamples | hummingbot/strategy/avellaneda_market_making/volatility_indicator.py:76 | there are ceil(n / ticks) subsamples; subsample `i` is the reversed storage's element `i * ticks`; positive prices give positive subsamples |
| Volatility.Returns | hummingbot/strategy/avellaneda_market_making/volatility_indicator.py:77-78 | one return per consecutive pair of subsamples, each the relative change from the older to the newer |
| Volatility.SumSquares | hummingbot/strategy/avellaneda_market_making/volatility_indicator.py:83 | the sum of squared returns is never negative |
| Volatility.SumSquaresOfZeros | hummingbot/strategy/avellaneda_market_making/volatility_indicator.py:83 | zero returns have a zero sum of squares |
| Volatility.ReturnZero | hummingbot/strategy/avellaneda_market_making/volatility_indicator.py:78 | a return is zero exactly when the price did not move |
| Volatility.ReturnScaleFree | hummingbot/strategy/avellaneda_market_making/volatility_indicator.py:78 | a return does not change when both prices are multiplied by the same positive factor |
| Volatility.SubsampleThreshold | hummingbot/strategy/avellaneda_market_making/volatility_indicator.py:76-81 | there are at least two returns exactly when there are at least `2 * ticks + 1` samples |
| Volatility.Variance | hummingbot/strategy/avellaneda_market_making/volatility_indicator.py:69-83 | no result for a horizon beyond the sampling length or a negative one; for `1 <= ticks <= L` a result exactly when `n >= 2 * ticks + 1`; a result is never negative |
| Volatility.Reading | hummingbot/strategy/avellaneda_market_making/volatility_indicator.py:83-85 | a reading exists exactly when the variance does, and it is the variance's non-negative square root |
| Volatility.ReturnsScaleFree | hummingbot/strategy/avellaneda_market_making/volatility_indicator.py:77-78 | scaling every subsample by a positive factor leaves all returns unchanged |
| Volatility.SubsamplesScale | hummingbot/strategy/avellaneda_market_making/volatility_indicator.py:76 | subsampling commutes with scaling the prices |
| Volatility.ScaleInvariance | hummingbot/strategy/avellaneda_market_making/volatility_indicator.py:69-85 | prices multiplied by any positive factor give the same variance |
| Volatility.StorageScaledBy | hummingbot/strategy/avellaneda_market_making/volatility_indicator.py:102-136 | the storage left by a scaled history is, slot by slot, the scaled storage |
| Volatility.StorageScale | hummingbot/strategy/avellaneda_market_making/volatility_indicator.py:102-136 | appending scaled prices leaves exactly the scaled storage |
| Volatility.ScaledIndicatorsAgree | hummingbot/strategy/avellaneda_market_making/volatility_indicator.py:55-85 | two indicators of the same length fed the same prices up to a positive factor report the same value at every horizon |
| Volatility.ZeroReturnsFlat | hummingbot/strategy/avellaneda_market_making/volatility_indicator.py:77-78 | all returns are zero only if all subsamples are equal |
| Volatility.FlatZeroReturns | hummingbot/strategy/avellaneda_market_making/volatility_indicator.py:77-78 | equal subsamples give all-zero returns |
| Volatility.FlatGivesZero | hummingbot/strategy/avellaneda_market_making/volatility_indicator.py:76-83 | when every subsample is the same price and there are enough of them, the variance is exactly 0 |
| Volatility.VolatilityIndicator.constructor | hummingbot/strategy/avellaneda_market_making/volatility_indicator.py:55-58 | a new indicator owns a fresh empty buffer of the sampling length, 600 when none is given |
| Volatility.VolatilityIndicator.AddSample | hummingbot/strategy/avellaneda_market_making/volatility_indicator.py:60-61 | the price is appended to the buffer's history |
| Volatility.VolatilityIndicator.Value | hummingbot/strategy/avellaneda_market_making/volatility_indicator.py:69-85 | a value exists exactly when `1 <= ticks <= L` and the buffer holds `2 * ticks + 1` samples, so never when `2 * ticks >= L`; it is the root of the variance over the raw storage |
| Volatility.VolatilityIndicator.ValueInTimeOrder | hummingbot/strategy/avellaneda_market_making/volatility_indicator.py:74-76 | with the cursor at 0 the value equals the estimate over the samples in time order |
| Volatility.VolatilityIndicator.IsFull | hummingbot/strategy/avellaneda_market_making/volatility_indicator.py:87-88 | for a positive sampling length, full exactly when at least `L` prices have been added; never full otherwise |
| Volatility.VolatilityIndicator.Len | hummingbot/strategy/avellaneda_market_making/volatility_indicator.py:90-91 | the number of prices held, in time order, never more than `L` when `L` is positive |
| RollingVolatility.HorizonsPositive | hummingbot/strategy/avellaneda_market_making/volatility_indicator.py:13-23 | every tracked horizon is at least one tick |
| RollingVolatility.HorizonsIncreasing | hummingbot/strategy/avellaneda_market_making/volatility_indicator.py:13-23 | the horizons are listed in increasing order, each once |
| RollingVolatility.NewIndicators | hummingbot/strategy/avellaneda_market_making/volatility_indicator.py:13-24 | one fresh, empty buffer of the sampling length per horizon, no two horizons sharing one |
| RollingVolatility.Sum | hummingbot/strategy/avellaneda_market_making/volatility_indicator.py:44 | the sum of non-negative readings is non-negative |
| RollingVolatility.SumRotation | hummingbot/strategy/avellaneda_market_making/volatility_indicator.py:41-44 | the sum of a buffer's raw storage equals the sum of its readings in time order |
| RollingVolatility.Mean | hummingbot/strategy/avellaneda_market_making/volatility_indicator.py:44 | the mean of non-negative readings is non-negative |
| RollingVolatility.MeanOfOne | hummingbot/strategy/avellaneda_market_making/volatility_indicator.py:44 | the mean of one reading is that reading |
| RollingVolatility.RollingVolatilityIndicator.constructor | hummingbot/strategy/avellaneda_market_making/volatility_indicator.py:11-27 | a new tracker, of 600 samples when no length is given, has an empty price buffer and one empty reading buffer per horizon, all fresh |
| RollingVolatility.RollingVolatilityIndicator.ReadingFor | hummingbot/strategy/avellaneda_market_making/volatility_indicator.py:34-35 | a horizon receives one reading exactly when it is within the sampling length and the price buffer holds `2 * h + 1` prices, none otherwise; readings are non-negative |
| RollingVolatility.RollingVolatilityIndicator.AddSample | hummingbot/strategy/avellaneda_market_making/volatility_indicator.py:29-36 | the price is appended; each horizon's history grows by the reading over the new price history if there is one, and by nothing otherwise |
| RollingVolatility.RollingVolatilityIndicator.RecordReadings | hummingbot/strategy/avellaneda_market_making/volatility_indicator.py:33-36 | the loop over the horizons gives every horizon exactly its own reading, if there is one |
| RollingVolatility.RollingVolatilityIndicator.Offer | hummingbot/strategy/avellaneda_market_making/volatility_indicator.py:34-36 | one loop pass: horizon `key` gets its reading if there is one; every buffer stays valid |
| RollingVolatility.RollingVolatilityIndicator.Value | hummingbot/strategy/avellaneda_market_making/volatility_indicator.py:38-44 | nothing exactly when the period is not tracked or has no readings; otherwise the mean of its readings in time order, never negative |
| RollingVolatility.RollingVolatilityIndicator.Array | hummingbot/strategy/avellaneda_market_making/volatility_indicator.py:46-50 | nothing exactly for an untracked period; otherwise the raw storage, whose rotation by the cursor is the readings in time order, all non-negative |
| VolatilityExamples.DoublingVariance | hummingbot/strategy/avellaneda_market_making/volatility_indicator_test.py:32-37 | prices p, 2p, 4p at a 1-tick horizon give a squared volatility of exactly 2 |
| VolatilityExamples.HalvingVariance | hummingbot/strategy/avellaneda_market_making/volatility_indicator_test.py:39-45 | prices 2p, 4p, 2p, p give a squared volatility of exactly 0.75 |
| VolatilityExamples.StorageAfterWrap | hummingbot/strategy/avellaneda_market_making/volatility_indicator.py:102-109 | 10, 20, 40, 80 into a buffer of 3 leave storage 80, 20, 40 while time order is 20, 40, 80 |
| VolatilityExamples.WrappedStorageVariance | hummingbot/strategy/avellaneda_market_making/volatility_indicator.py:74-76 | such wrapped storage (8p, 2p, 4p) gives a squared volatility of 1.5625, where time order would give 2 |
| VolatilityExamples.DoublingReading | hummingbot/strategy/avellaneda_market_making/volatility_indicator_test.py:32-37 | an indicator whose buffer holds p, 2p, 4p in time order reports the root of 2 at one tick |
| VolatilityExamples.HalvingReading | hummingbot/strategy/avellaneda_market_making/volatility_indicator_test.py:39-45 | an indicator whose buffer holds 2p, 4p, 2p, p in time order reports the root of 0.75 at one tick |
| VolatilityExamples.LinearTrendReading | hummingbot/strategy/avellaneda_market_making/volatility_indicator_test.py:32-37 | an indicator of 3 holding 10, 20, 40 reports the root of 2 at one tick |
| VolatilityExamples.PercentageReading | hummingbot/strategy/avellaneda_market_making/volatility_indicator_test.py:39-45 | an indicator of 4 holding 10, 20, 10, 5 reports the root of 0.75 at one tick |
| VolatilityExamples.LinearTrendScenario | hummingbot/strategy/avellaneda_market_making/volatility_indicator_test.py:32-37 | an indicator of 3 fed 10, 20, 40 reports the square root of 2 at one tick |
| VolatilityExamples.PercentageScenario | hummingbot/strategy/avellaneda_market_making/volatility_indicator_test.py:39-45 | an indicator of 4 fed 10, 20, 10, 5 reports the square root of 0.75 at one tick |
| VolatilityExamples.Alternating | hummingbot/strategy/avellaneda_market_making/volatility_indicator_test.py:8-13 | the test's series alternates 1.01 at even positions and 1/1.01 at odd ones |
| VolatilityExamples.AlternatingFlatAtTwo | hummingbot/strategy/avellaneda_market_making/volatility_indicator_test.py:19-20 | at a 2-tick horizon an even number of alternating prices has a squared volatility of exactly 0 |
| VolatilityExamples.AlternatingIndicator | hummingbot/strategy/avellaneda_market_making/volatility_indicator_test.py:8-13 | adding the pair 1.01, 1/1.01 thirty times leaves exactly the 60-price alternating history |
| VolatilityExamples.AlternatingSubsamples | hummingbot/strategy/avellaneda_market_making/volatility_indicator_test.py:15-23 | walking back by 1 or 3 ticks from the last of an even number of alternating prices, the subsamples alternate 1/1.01, 1.01 |
| VolatilityExamples.ReturnsAlternate | hummingbot/strategy/avellaneda_market_making/volatility_indicator_test.py:15-23 | alternating subsamples x, y give alternating returns (x - y)/y and (y - x)/x |
| VolatilityExamples.SumSquaresAlternate | hummingbot/strategy/avellaneda_market_making/volatility_indicator_test.py:15-23 | the squared returns of an alternating series add up to the count of each return times its square |
| VolatilityExamples.AlternatingSumSquares | hummingbot/strategy/avellaneda_market_making/volatility_indicator_test.py:15-23 | the alternating series' squared returns at 1 and 3 ticks add up to m/2 squares of -201/10201 and (m-1)/2 of 201/10000 |
| VolatilityExamples.AlternatingVariance | hummingbot/strategy/avellaneda_market_making/volatility_indicator_test.py:15-23 | with m subsamples, the squared volatility is that sum over m - 2 |
| VolatilityExamples.AlternatingOneTick | hummingbot/strategy/avellaneda_market_making/volatility_indicator_test.py:15-17 | the 60 test prices at 1 tick have a squared volatility of exactly 243123183563229/603550325800000000 |
| VolatilityExamples.AlternatingThreeTicks | hummingbot/strategy/avellaneda_market_making/volatility_indicator_test.py:22-23 | the 60 test prices at 3 ticks have a squared volatility of exactly 8693144260801/20812080200000000 |
| VolatilityExamples.RootBetween | hummingbot/strategy/avellaneda_market_making/volatility_indicator_test.py:17 | a non-negative root of a value between two squares lies between their roots, which bounds the rounded readings |
| VolatilityExamples.AlternatingReadings | hummingbot/strategy/avellaneda_market_making/volatility_indicator_test.py:15-23 | the readings at 1 and 3 ticks are the roots of those exact values and lie in [0.020065, 0.020075) and [0.020435, 0.020445), which round to .02007 and .02044; at 2 ticks the root of 0 |
| VolatilityExamples.AlternatingScenario | hummingbot/strategy/avellaneda_market_making/volatility_indicator_test.py:15-29 | that indicator is full, its values at 1, 2 and 3 ticks are the readings above, and at 120 ticks there is none |
| VolatilityExamples.WarmTracker | hummingbot/strategy/avellaneda_market_making/volatility_indicator.py:29-36 | after two prices no horizon of a tracker of 3 has a reading yet |
| VolatilityExamples.RollingScenario | hummingbot/strategy/avellaneda_market_making/volatility_indicator.py:29-50 | a tracker of 3 fed 10, 20, 40 smooths the 1-tick horizon to the root of 2, has nothing for 600 ticks and no array for an untracked period |

## Left out

- The square root: `sqrt` is a parameter assumed to be the exact non-negative
  root on the reals. The model proves readings are roots of exact variances;
  it does not model numpy's floating-point `sqrt`.
- Floating point: all arithmetic is on exact reals, with no IEEE rounding,
  infinities or NaN values. The alternating test's readings at 1 and 3 ticks
  are stated as roots of exact rationals, bounded to the intervals that round
  to the test's five-place values, not as the floats numpy computes.
- Volatility.VolatilityIndicator.AddSample: requires a positive price. The
  source accepts any float; a zero price makes numpy divide by zero and yield
  infinities or NaN, which the real-valued model cannot represent. Negative
  prices, which the source computes with, are excluded as well, because the
  model takes prices to be positive throughout.
- Volatility.VolatilityIndicator.Value: requires `ticks != 0` unless it exceeds
  the sampling length. For a zero horizon numpy raises an error on the zero
  slice step; the model does not represent that exception.
- RollingVolatility.RollingVolatilityIndicator.AddSample: requires a positive
  price, as above; the source's `float(value)` conversion is the identity on
  reals.
- RollingVolatility.RollingVolatilityIndicator.Array: returns `None` where the
  source returns a scalar NaN instead of an array.
- The commented-out `_last` bookkeeping in `VolatilityIndicator` is dead code
  and is not modelled.
- The randomized rolling test (volatility_indicator_test.py:48-89) feeds a
  tracker of 600 with 1000 seeded draws from a normal distribution of mean 1
  and deviation 1 (lines 52-53), only prints their mean and deviation, and
  asserts that the smoothed readings at 1, 5, 10, 30 and 60 ticks exceed fixed
  thresholds (50, 8, 8, 2, 2) and decrease as the horizon grows (lines
  65-89). These are empirical facts about one seeded draw under
  floating-point arithmetic, not properties of every input, so they are not
  stated. About one draw in six is 0 or less, a price the positive-price
  requirement of `AddSample` excludes.
- alpha_predictor.py, the strategy code that consumes the readings, is not
  part of this model.
- numpy array types and copies: a buffer's snapshot is a Dafny sequence, a
  value, so aliasing of the returned array is not modelled.
