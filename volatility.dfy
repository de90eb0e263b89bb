/**
 * The single-horizon volatility estimator: strided subsampling of the price
 * history walked back from its last stored sample, percentage returns between
 * consecutive subsamples, and the zero-mean, Bessel-corrected sample variance
 * of those returns.  The reported volatility is the square root of that
 * variance; the square root is a floating-point library call and enters the
 * model as a parameter `sqrt` with the defining property IsSqrt.
 */
module Volatility {

  import opened Wrappers
  import opened Arith
  import opened RingBuffers

  /** The sampling length both indicators take when none is given: ten minutes of one-second ticks. */
  const DefaultSamplingLength: int := 600

  /** Prices are positive: no subsample is ever a zero divisor. */
  predicate AllPositive(s: seq<real>)
  {
    forall i :: 0 <= i < |s| ==> s[i] > 0.0
  }

  /** Overwriting one positive sample with another keeps every sample positive. */
  lemma OverwritePositive(s: seq<real>, i: int, x: real)
    requires AllPositive(s) && 0.0 < x
    ensures 0 <= i < |s| ==> AllPositive(s[i := x])
    ensures AllPositive(s + [x])
  {
  }

  /** The samples most recent first. */
  function Reverse(s: seq<real>): (r: seq<real>)
    ensures |r| == |s|
    ensures forall k :: 0 <= k < |s| ==> r[k] == s[|s| - 1 - k]
  {
    if s == [] then [] else [s[|s| - 1]] + Reverse(s[..|s| - 1])
  }

  /** Every `ticks`-th element of `r` starting with `r[0]`; there are ceil(|r| / ticks) of them. */
  function Stride(r: seq<real>, ticks: int): (ss: seq<real>)
    requires 1 <= ticks
    ensures |ss| == (|r| + ticks - 1) / ticks
    decreases |r|
  {
    if r == [] then
      DivModUnique(ticks - 1, ticks, 0, ticks - 1);
      []
    else if |r| <= ticks then
      DivModUnique(|r| + ticks - 1, ticks, 1, |r| - 1);
      [r[0]]
    else
      DivAddDivisor(|r| - 1, ticks);
      [r[0]] + Stride(r[ticks..], ticks)
  }

  /** Element `i` of the stride is element `i * ticks` of the sequence. */
  lemma {:induction false} StrideElement(r: seq<real>, ticks: int, i: int)
    requires 1 <= ticks && 0 <= i < |Stride(r, ticks)|
    ensures i * ticks < |r| && Stride(r, ticks)[i] == r[i * ticks]
    decreases i
  {
    if i > 0 {
      var rest := r[ticks..];
      assert Stride(r, ticks) == [r[0]] + Stride(rest, ticks);
      StrideElement(rest, ticks, i - 1);
      MulSucc(i - 1, ticks);
    }
  }

  /** The stride, element by element. */
  lemma StrideAt(r: seq<real>, ticks: int)
    requires 1 <= ticks
    ensures forall i :: 0 <= i < |Stride(r, ticks)| ==> i * ticks < |r| && Stride(r, ticks)[i] == r[i * ticks]
  {
    forall i | 0 <= i < |Stride(r, ticks)|
      ensures i * ticks < |r| && Stride(r, ticks)[i] == r[i * ticks]
    {
      StrideElement(r, ticks, i);
    }
  }

  /**
   * The subsamples of a history for a horizon of `ticks`: the most recent
   * sample, then every `ticks`-th one before it.
   */
  function Subsamples(s: seq<real>, ticks: int): (ss: seq<real>)
    requires 1 <= ticks
    ensures |ss| == (|s| + ticks - 1) / ticks
    ensures forall i :: 0 <= i < |ss| ==> 0 <= |s| - 1 - i * ticks < |s| && ss[i] == s[|s| - 1 - i * ticks]
    ensures AllPositive(s) ==> AllPositive(ss)
  {
    StrideAt(Reverse(s), ticks);
    Stride(Reverse(s), ticks)
  }

  /** The percentage return from each subsample to the one before it in time. */
  function Returns(ss: seq<real>): (rs: seq<real>)
    requires AllPositive(ss)
    ensures |rs| == if ss == [] then 0 else |ss| - 1
    ensures forall i :: 0 <= i < |rs| ==> rs[i] == (ss[i] - ss[i + 1]) / ss[i + 1]
  {
    if |ss| < 2 then [] else [(ss[0] - ss[1]) / ss[1]] + Returns(ss[1..])
  }

  /** The sum of the squared returns: never negative. */
  function SumSquares(rs: seq<real>): (t: real)
    ensures 0.0 <= t
  {
    if rs == [] then 0.0 else rs[0] * rs[0] + SumSquares(rs[1..])
  }

  /** Returns that are all zero have a zero sum of squares. */
  lemma {:induction false} SumSquaresOfZeros(rs: seq<real>)
    requires forall i :: 0 <= i < |rs| ==> rs[i] == 0.0
    ensures SumSquares(rs) == 0.0
  {
    if rs != [] {
      var tail := rs[1..];
      assert forall i :: 0 <= i < |tail| ==> tail[i] == rs[i + 1];
      SumSquaresOfZeros(tail);
    }
  }

  /** A percentage return is zero exactly when the price did not move. */
  lemma ReturnZero(a: real, b: real)
    requires 0.0 < b
    ensures (a - b) / b == 0.0 <==> a == b
  {
    assert ((a - b) / b) * b == a - b;
  }

  /** A percentage return does not depend on the price level. */
  lemma ReturnScaleFree(a: real, b: real, c: real)
    requires 0.0 < b && 0.0 < c
    ensures 0.0 < c * b
    ensures (c * a - c * b) / (c * b) == (a - b) / b
  {
    assert c * a - c * b == c * (a - b);
    CancelFactor(a - b, b, c);
  }

  /** Multiplying numerator and denominator by the same non-zero factor leaves a quotient unchanged. */
  lemma CancelFactor(x: real, y: real, c: real)
    requires y != 0.0 && c != 0.0
    ensures (c * x) / (c * y) == x / y
  {
    var q := x / y;
    assert q * y == x;
    assert q * (c * y) == c * x;
  }

  /** The subsample count reaches 3 (so the return count reaches 2) exactly from 2 * ticks + 1 samples on. */
  lemma SubsampleThreshold(n: int, ticks: int)
    requires 0 <= n && 1 <= ticks
    ensures (n + ticks - 1) / ticks >= 3 <==> n >= 2 * ticks + 1
  {
    DivAtLeast(n + ticks - 1, ticks, 3);
  }

  /**
   * The squared volatility for a horizon of `ticks` over a buffer snapshot
   * `storage` taken in the buffer's storage order; `None` where the source
   * returns NaN.  A horizon beyond the sampling length, a negative horizon
   * (numpy's positive stride from the last element yields one subsample) and
   * fewer than two returns give no reading.  A zero horizon is refused by the
   * source unless the horizon check already returned.
   */
  function Variance(storage: seq<real>, samplingLength: int, ticks: int): (v: Option<real>)
    requires ticks != 0 || ticks > samplingLength
    requires AllPositive(storage)
    ensures ticks > samplingLength || ticks < 0 ==> v.None?
    ensures 1 <= ticks <= samplingLength ==> (v.Some? <==> |storage| >= 2 * ticks + 1)
    ensures v.Some? ==> 0.0 <= v.value
  {
    if ticks > samplingLength then None
    else if ticks < 0 then None
    else
      var rs := Returns(Subsamples(storage, ticks));
      SubsampleThreshold(|storage|, ticks);
      if |rs| < 2 then None else Some(SumSquares(rs) / (|rs| - 1) as real)
  }

  /** `root` is the non-negative square root of `x`. */
  predicate RootOf(root: real, x: real)
  {
    0.0 <= root && root * root == x
  }

  /** The property np.sqrt is taken to have on the reals. */
  ghost predicate IsSqrt(sqrt: real -> real)
  {
    forall x :: 0.0 <= x ==> RootOf(sqrt(x), x)
  }

  /** The volatility itself: the square root of the variance, when there is one. */
  function Reading(storage: seq<real>, samplingLength: int, ticks: int, sqrt: real -> real): (r: Option<real>)
    requires ticks != 0 || ticks > samplingLength
    requires AllPositive(storage)
    ensures r.Some? <==> Variance(storage, samplingLength, ticks).Some?
    ensures IsSqrt(sqrt) && r.Some? ==> RootOf(r.value, Variance(storage, samplingLength, ticks).value)
  {
    match Variance(storage, samplingLength, ticks)
    case None => None
    case Some(v) => Some(sqrt(v))
  }

  /** Every sample multiplied by `c`. */
  function Scale(s: seq<real>, c: real): (t: seq<real>)
    ensures |t| == |s|
    ensures forall i :: 0 <= i < |s| ==> t[i] == c * s[i]
  {
    if s == [] then [] else [c * s[0]] + Scale(s[1..], c)
  }

  /** Scaled positive prices stay positive. */
  lemma ScalePositive(ss: seq<real>, c: real)
    requires 0.0 < c && AllPositive(ss)
    ensures AllPositive(Scale(ss, c))
  {
    var ss' := Scale(ss, c);
    forall i | 0 <= i < |ss'|
      ensures 0.0 < ss'[i]
    {
      ReturnScaleFree(ss[i], ss[i], c);
    }
  }

  /** The first return of a scaled sequence is the first return of the original. */
  lemma FirstReturnScaleFree(ss: seq<real>, c: real)
    requires 0.0 < c && AllPositive(ss) && 2 <= |ss|
    ensures AllPositive(Scale(ss, c))
    ensures Returns(Scale(ss, c))[0] == Returns(ss)[0]
  {
    ScalePositive(ss, c);
    var ss' := Scale(ss, c);
    var a, b := ss[0], ss[1];
    ReturnScaleFree(a, b, c);
    assert ss'[0] == c * a;
    assert ss'[1] == c * b;
    assert Returns(ss')[0] == (ss'[0] - ss'[1]) / ss'[1];
  }

  /** Percentage returns do not depend on the price level. */
  lemma {:induction false} ReturnsScaleFree(ss: seq<real>, c: real)
    requires 0.0 < c && AllPositive(ss)
    ensures AllPositive(Scale(ss, c))
    ensures Returns(Scale(ss, c)) == Returns(ss)
  {
    ScalePositive(ss, c);
    if |ss| >= 2 {
      var ss', tail := Scale(ss, c), ss[1..];
      ReturnsScaleFree(tail, c);
      assert ss'[1..] == Scale(tail, c);
      FirstReturnScaleFree(ss, c);
      assert Returns(ss) == [Returns(ss)[0]] + Returns(tail);
      assert Returns(ss') == [Returns(ss')[0]] + Returns(ss'[1..]);
    }
  }

  /** One subsample of the scaled history is the scaled subsample. */
  lemma SubsampleScaleAt(storage: seq<real>, scaled: seq<real>, ticks: int, c: real, i: int)
    requires 1 <= ticks && 0 <= i < |Subsamples(storage, ticks)|
    requires |scaled| == |storage| && forall k :: 0 <= k < |storage| ==> scaled[k] == c * storage[k]
    ensures |Subsamples(scaled, ticks)| == |Subsamples(storage, ticks)|
    ensures Subsamples(scaled, ticks)[i] == c * Subsamples(storage, ticks)[i]
  {
    var j := |storage| - 1 - i * ticks;
    assert 0 <= j < |storage| && Subsamples(storage, ticks)[i] == storage[j];
    assert Subsamples(scaled, ticks)[i] == scaled[j];
  }

  /** Subsampling commutes with scaling. */
  lemma SubsamplesScale(storage: seq<real>, ticks: int, c: real)
    requires 1 <= ticks
    ensures Subsamples(Scale(storage, c), ticks) == Scale(Subsamples(storage, ticks), c)
  {
    var ss, ss' := Subsamples(storage, ticks), Subsamples(Scale(storage, c), ticks);
    var expected := Scale(ss, c);
    forall i | 0 <= i < |ss|
      ensures ss'[i] == expected[i]
    {
      SubsampleScaleAt(storage, Scale(storage, c), ticks, c, i);
    }
  }

  /** Scaling every sample by a positive constant leaves the estimate unchanged. */
  lemma ScaleInvariance(storage: seq<real>, samplingLength: int, ticks: int, c: real)
    requires 0.0 < c && AllPositive(storage)
    requires ticks != 0 || ticks > samplingLength
    ensures AllPositive(Scale(storage, c))
    ensures Variance(Scale(storage, c), samplingLength, ticks) == Variance(storage, samplingLength, ticks)
  {
    ScalePositive(storage, c);
    if 1 <= ticks <= samplingLength {
      var ss := Subsamples(storage, ticks);
      SubsamplesScale(storage, ticks, c);
      ReturnsScaleFree(ss, c);
      assert Returns(Subsamples(Scale(storage, c), ticks)) == Returns(ss);
    }
  }

  /** `t` is `s` with every sample multiplied by `c`. */
  predicate ScaledBy(t: seq<real>, s: seq<real>, c: real)
  {
    |t| == |s| && forall i :: 0 <= i < |s| ==> t[i] == c * s[i]
  }

  /** Scaling survives dropping the last sample, overwriting one, or appending one. */
  lemma ScaledByEdits(t: seq<real>, s: seq<real>, c: real, k: int, y: real, x: real)
    requires ScaledBy(t, s, c) && y == c * x
    ensures s != [] ==> ScaledBy(t[..|t| - 1], s[..|s| - 1], c)
    ensures 0 <= k < |s| ==> ScaledBy(t[k := y], s[k := x], c)
    ensures ScaledBy(t + [y], s + [x], c)
  {
  }

  /** A scaled history leaves the scaled storage: fullness and the cursor depend only on how many samples came. */
  lemma {:induction false} StorageScaledBy(scaled: seq<real>, history: seq<real>, max: int, c: real)
    requires ScaledBy(scaled, history, c)
    ensures ScaledBy(Storage(scaled, max), Storage(history, max), c)
    decreases |history|
  {
    if history != [] {
      var n := |history|;
      var prev, x := history[..n - 1], history[n - 1];
      var prev', x' := scaled[..n - 1], scaled[n - 1];
      ScaledByEdits(scaled, history, c, 0, x', x);
      StorageScaledBy(prev', prev, max, c);
      var s, s' := Storage(prev, max), Storage(prev', max);
      if Saturated(prev, max) {
        CursorInWindow(prev, max);
        var k := Cursor(prev, max);
        ScaledByEdits(s', s, c, k, x', x);
        assert Storage(scaled, max) == s'[k := x'];
      } else {
        ScaledByEdits(s', s, c, 0, x', x);
        assert Storage(scaled, max) == s' + [x'];
      }
    }
  }

  /** The buffer stores a scaled history exactly as it stores the history, scaled. */
  lemma StorageScale(history: seq<real>, max: int, c: real)
    ensures Storage(Scale(history, c), max) == Scale(Storage(history, max), c)
  {
    StorageScaledBy(Scale(history, c), history, max, c);
    var a, b := Storage(Scale(history, c), max), Scale(Storage(history, max), c);
    assert |a| == |b|;
    forall i | 0 <= i < |a|
      ensures a[i] == b[i]
    {
    }
  }

  /** Equal neighbours all the way along make every element equal to the first. */
  lemma {:induction false} ChainEqual(ss: seq<real>)
    requires forall i, j :: 0 <= i && j == i + 1 && j < |ss| ==> ss[i] == ss[j]
    ensures forall i :: 0 <= i < |ss| ==> ss[i] == ss[0]
  {
    if |ss| > 1 {
      var init := ss[..|ss| - 1];
      ChainEqual(init);
      assert ss[|ss| - 1] == ss[|ss| - 2] == init[|ss| - 2];
    }
  }

  /** Zero returns all the way along mean the subsamples are all equal. */
  lemma ZeroReturnsFlat(ss: seq<real>)
    requires AllPositive(ss)
    requires forall i :: 0 <= i < |Returns(ss)| ==> Returns(ss)[i] == 0.0
    ensures forall i :: 0 <= i < |ss| ==> ss[i] == ss[0]
  {
    var rs := Returns(ss);
    forall i, j | 0 <= i && j == i + 1 && j < |ss|
      ensures ss[i] == ss[j]
    {
      assert rs[i] == 0.0;
      ReturnZero(ss[i], ss[j]);
    }
    ChainEqual(ss);
  }

  /** Equal subsamples give zero returns all the way along. */
  lemma FlatZeroReturns(ss: seq<real>)
    requires AllPositive(ss)
    requires forall i :: 0 <= i < |ss| ==> ss[i] == ss[0]
    ensures forall i :: 0 <= i < |Returns(ss)| ==> Returns(ss)[i] == 0.0
  {
    var rs := Returns(ss);
    forall i | 0 <= i < |rs|
      ensures rs[i] == 0.0
    {
      ReturnZero(ss[i], ss[i + 1]);
    }
  }

  /** Flat subsampled prices give a zero variance. */
  lemma FlatGivesZero(storage: seq<real>, samplingLength: int, ticks: int)
    requires 1 <= ticks <= samplingLength && AllPositive(storage)
    requires |storage| >= 2 * ticks + 1
    requires var ss := Subsamples(storage, ticks); forall i :: 0 <= i < |ss| ==> ss[i] == ss[0]
    ensures Variance(storage, samplingLength, ticks) == Some(0.0)
  {
    var ss := Subsamples(storage, ticks);
    var rs := Returns(ss);
    FlatZeroReturns(ss);
    SumSquaresOfZeros(rs);
  }

  /**
   * The single-horizon indicator: a ring buffer of `samplingLength` prices
   * and an estimate computed on demand for any horizon.  Its square root is
   * the parameter `sqrt`.
   */
  class VolatilityIndicator {
    const samplingLength: int
    const buffer: RingBuffer
    const sqrt: real -> real

    ghost predicate Valid()
      reads this, buffer
    {
      && buffer.Valid()
      && buffer.max == samplingLength
      && AllPositive(buffer.data)
      && IsSqrt(sqrt)
    }

    constructor (samplingLength: int := DefaultSamplingLength, sqrt: real -> real)
      requires IsSqrt(sqrt)
      ensures Valid() && fresh(buffer)
      ensures this.samplingLength == samplingLength && this.sqrt == sqrt
      ensures buffer.History == []
    {
      this.samplingLength := samplingLength;
      this.sqrt := sqrt;
      buffer := new RingBuffer(samplingLength);
    }

    /** Records one price. */
    method AddSample(value: real)
      requires Valid() && 0.0 < value
      modifies buffer
      ensures Valid()
      ensures buffer.History == old(buffer.History) + [value]
    {
      ghost var before, at := buffer.data, buffer.cur;
      OverwritePositive(before, at, value);
      buffer.Append(value);
    }

    /**
     * The volatility over a horizon of `ticks` samples, computed over the
     * buffer's raw storage.  It exists exactly when the horizon is positive,
     * within the sampling length and the buffer holds at least
     * 2 * ticks + 1 samples, so a horizon of half the sampling length or more
     * never has one.  Only while the cursor is at 0 does it agree with the
     * estimate over the samples in time order.
     */
    function Value(ticks: int): (r: Option<real>)
      reads this, buffer
      requires Valid()
      requires ticks != 0 || ticks > samplingLength
      ensures r.Some? <==> 1 <= ticks <= samplingLength && |buffer.data| >= 2 * ticks + 1
      ensures 1 <= samplingLength <= 2 * ticks ==> r.None?
      ensures r.Some? ==> RootOf(r.value, Variance(buffer.data, samplingLength, ticks).value)
    {
      Reading(buffer.data, samplingLength, ticks, sqrt)
    }

    /** While the cursor is at 0 the storage is in time order, so the volatility is the estimate over the samples as they arrived. */
    lemma ValueInTimeOrder(ticks: int)
      requires Valid() && buffer.cur == 0
      requires ticks != 0 || ticks > samplingLength
      ensures AllPositive(buffer.Get())
      ensures Value(ticks) == Reading(buffer.Get(), samplingLength, ticks, sqrt)
    {
      StorageAtCursorZero(buffer.History, samplingLength);
    }

    /** Whether the buffer has wrapped into overwrite mode. */
    function IsFull(): (b: bool)
      reads this, buffer
      requires Valid()
      ensures b <==> 1 <= samplingLength <= |buffer.History|
    {
      buffer.IsFull()
    }

    /** The number of prices held, at most the sampling length. */
    function Len(): (n: int)
      reads this, buffer
      requires Valid()
      ensures n == |buffer.Get()|
      ensures 1 <= samplingLength ==> n <= samplingLength
    {
      buffer.Len()
    }
  }

  /**
   * Scale invariance at the level of the indicator: of two indicators with
   * the same sampling length, one fed the other's prices multiplied by a
   * positive constant, both report the same volatility at every horizon.
   */
  lemma ScaledIndicatorsAgree(a: VolatilityIndicator, b: VolatilityIndicator, c: real, ticks: int)
    requires a.Valid() && b.Valid()
    requires b.samplingLength == a.samplingLength && b.sqrt == a.sqrt
    requires 0.0 < c && b.buffer.History == Scale(a.buffer.History, c)
    requires ticks != 0 || ticks > a.samplingLength
    ensures b.Value(ticks) == a.Value(ticks)
  {
    StorageScale(a.buffer.History, a.samplingLength, c);
    ScaleInvariance(a.buffer.data, a.samplingLength, ticks, c);
  }
}
