/**
 * The scenarios of the indicator's unit tests, worked through the model: the
 * squared volatilities come out exactly; the square roots the tests compare
 * against are the roots of these values.
 */
module VolatilityExamples {

  import opened Wrappers
  import opened Arith
  import opened RingBuffers
  import opened Volatility
  import opened RollingVolatility

  /** With a horizon of 1 tick, three samples are subsampled newest first. */
  lemma SubsamplesOfThree(a: real, b: real, c: real)
    ensures Subsamples([a, b, c], 1) == [c, b, a]
  {
    var ss := Subsamples([a, b, c], 1);
    assert |ss| == 3 && ss[0] == c && ss[1] == b && ss[2] == a;
  }

  /** With a horizon of 1 tick, four samples are subsampled newest first. */
  lemma SubsamplesOfFour(a: real, b: real, c: real, d: real)
    ensures Subsamples([a, b, c, d], 1) == [d, c, b, a]
  {
    var ss := Subsamples([a, b, c, d], 1);
    assert |ss| == 4 && ss[0] == d && ss[1] == c && ss[2] == b && ss[3] == a;
  }

  /** Three positive prices. */
  lemma PositiveThree(a: real, b: real, c: real)
    requires 0.0 < a && 0.0 < b && 0.0 < c
    ensures AllPositive([a, b, c])
  {
    var s := [a, b, c];
    forall i | 0 <= i < 3
      ensures 0.0 < s[i]
    {
    }
  }

  /** Four positive prices. */
  lemma PositiveFour(a: real, b: real, c: real, d: real)
    requires 0.0 < a && 0.0 < b && 0.0 < c && 0.0 < d
    ensures AllPositive([a, b, c, d])
  {
    var s := [a, b, c, d];
    forall i | 0 <= i < 4
      ensures 0.0 < s[i]
    {
    }
  }

  /** A return whose price moved by `r` times the earlier price is `r`. */
  lemma ReturnValue(a: real, b: real, r: real)
    requires 0.0 < b && a - b == r * b
    ensures (a - b) / b == r
  {
    assert ((a - b) / b) * b == a - b;
  }

  /** The two returns of three positive subsamples, each the move relative to the next. */
  lemma ReturnsOfThree(x: real, y: real, z: real, r1: real, r2: real)
    requires 0.0 < x && 0.0 < y && 0.0 < z
    requires x - y == r1 * y && y - z == r2 * z
    ensures AllPositive([x, y, z])
    ensures Returns([x, y, z]) == [r1, r2]
  {
    PositiveThree(x, y, z);
    var ss := [x, y, z];
    var rs := Returns(ss);
    assert |rs| == 2;
    assert rs[0] == (ss[0] - ss[1]) / ss[1];
    assert rs[1] == (ss[1] - ss[2]) / ss[2];
    ReturnValue(x, y, r1);
    ReturnValue(y, z, r2);
  }

  /** The three returns of four positive subsamples, each the move relative to the next. */
  lemma ReturnsOfFour(w: real, x: real, y: real, z: real, r1: real, r2: real, r3: real)
    requires 0.0 < w && 0.0 < x && 0.0 < y && 0.0 < z
    requires w - x == r1 * x && x - y == r2 * y && y - z == r3 * z
    ensures AllPositive([w, x, y, z])
    ensures Returns([w, x, y, z]) == [r1, r2, r3]
  {
    PositiveFour(w, x, y, z);
    var ss := [w, x, y, z];
    var rs := Returns(ss);
    assert |rs| == 3;
    assert rs[0] == (ss[0] - ss[1]) / ss[1];
    assert rs[1] == (ss[1] - ss[2]) / ss[2];
    assert rs[2] == (ss[2] - ss[3]) / ss[3];
    ReturnValue(w, x, r1);
    ReturnValue(x, y, r2);
    ReturnValue(y, z, r3);
  }

  /** The sum of squares of two returns. */
  lemma SumSquaresOfTwo(a: real, b: real)
    ensures SumSquares([a, b]) == a * a + b * b
  {
    assert [a, b][1..] == [b];
    assert [b][1..] == [];
    assert SumSquares([b]) == b * b;
  }

  /** The sum of squares of three returns. */
  lemma SumSquaresOfThree(a: real, b: real, c: real)
    ensures SumSquares([a, b, c]) == a * a + b * b + c * c
  {
    assert [a, b, c][1..] == [b, c];
    SumSquaresOfTwo(b, c);
  }

  /** The squared volatility assembled from its subsamples, their `n + 1` returns and the sum of their squares. */
  lemma VarianceFromParts(s: seq<real>, samplingLength: int, ticks: int, ss: seq<real>, rs: seq<real>, total: real, n: nat)
    requires 1 <= ticks <= samplingLength && AllPositive(s)
    requires Subsamples(s, ticks) == ss && AllPositive(ss) && Returns(ss) == rs
    requires |rs| == n + 1 && 1 <= n && SumSquares(rs) == total
    ensures Variance(s, samplingLength, ticks) == Some(total / n as real)
  {
  }

  /**
   * Prices doubling twice, p, 2p, 4p, at any price level and any sampling
   * length: both returns are 100%, so the squared volatility is 2.  The
   * linear-trend test is p = 10; the time order 20, 40, 80 of
   * `StorageAfterWrap` is p = 20.
   */
  lemma DoublingVariance(p: real, samplingLength: int)
    requires 0.0 < p && 1 <= samplingLength
    ensures AllPositive([p, 2.0 * p, 4.0 * p])
    ensures Variance([p, 2.0 * p, 4.0 * p], samplingLength, 1) == Some(2.0)
  {
    var a, b, c := p, 2.0 * p, 4.0 * p;
    SubsamplesOfThree(a, b, c);
    PositiveThree(a, b, c);
    ReturnsOfThree(c, b, a, 1.0, 1.0);
    SumSquaresOfTwo(1.0, 1.0);
    VarianceFromParts([a, b, c], samplingLength, 1, [c, b, a], [1.0, 1.0], 2.0, 1);
  }

  /**
   * Prices 2p, 4p, 2p, p: returns -50%, -50% and +100%, squared volatility
   * 0.75.  The percentage test is p = 5.
   */
  lemma HalvingVariance(p: real, samplingLength: int)
    requires 0.0 < p && 1 <= samplingLength
    ensures AllPositive([2.0 * p, 4.0 * p, 2.0 * p, p])
    ensures Variance([2.0 * p, 4.0 * p, 2.0 * p, p], samplingLength, 1) == Some(0.75)
  {
    var a, b, c, d := 2.0 * p, 4.0 * p, 2.0 * p, p;
    var s, ss, rs := [a, b, c, d], [d, c, b, a], [-0.5, -0.5, 1.0];
    assert Subsamples(s, 1) == ss && AllPositive(s) by {
      SubsamplesOfFour(a, b, c, d);
      PositiveFour(a, b, c, d);
    }
    assert AllPositive(ss) && Returns(ss) == rs by {
      ReturnsOfFour(d, c, b, a, -0.5, -0.5, 1.0);
    }
    assert SumSquares(rs) == 1.5 by {
      SumSquaresOfThree(-0.5, -0.5, 1.0);
    }
    VarianceFromParts(s, samplingLength, 1, ss, rs, 1.5, 2);
  }

  /**
   * Prices 10, 20, 40, 80 on a buffer of 3: the fourth price overwrites slot
   * 0, so storage order is 80, 20, 40 while time order is 20, 40, 80.
   */
  lemma StorageAfterWrap()
    ensures Storage([10.0, 20.0, 40.0, 80.0], 3) == [80.0, 20.0, 40.0]
    ensures Window([10.0, 20.0, 40.0, 80.0], 3) == [20.0, 40.0, 80.0]
  {
    assert [10.0][..0] == [];
    assert Storage([10.0], 3) == [10.0];
    assert [10.0, 20.0][..1] == [10.0];
    assert Storage([10.0, 20.0], 3) == [10.0, 20.0];
    assert [10.0, 20.0, 40.0][..2] == [10.0, 20.0];
    assert Storage([10.0, 20.0, 40.0], 3) == [10.0, 20.0, 40.0];
    assert [10.0, 20.0, 40.0, 80.0][..3] == [10.0, 20.0, 40.0];
    assert [10.0, 20.0, 40.0, 80.0][1..] == [20.0, 40.0, 80.0];
  }

  /**
   * The estimator reads storage such as that of `StorageAfterWrap`, 8p, 2p,
   * 4p, as if it were in time order: returns +100% and -75%, squared
   * volatility 1.5625, where the same samples in time order give 2.
   */
  lemma WrappedStorageVariance(p: real, samplingLength: int)
    requires 0.0 < p && 1 <= samplingLength
    ensures AllPositive([8.0 * p, 2.0 * p, 4.0 * p])
    ensures Variance([8.0 * p, 2.0 * p, 4.0 * p], samplingLength, 1) == Some(1.5625)
  {
    var a, b, c := 8.0 * p, 2.0 * p, 4.0 * p;
    SubsamplesOfThree(a, b, c);
    PositiveThree(a, b, c);
    ReturnsOfThree(c, b, a, 1.0, -0.75);
    SumSquaresOfTwo(1.0, -0.75);
    VarianceFromParts([a, b, c], samplingLength, 1, [c, b, a], [1.0, -0.75], 1.5625, 1);
  }

  /** An indicator whose buffer holds p, 2p, 4p in time order reports the root of 2 at 1 tick. */
  lemma DoublingReading(indicator: VolatilityIndicator, p: real)
    requires indicator.Valid() && indicator.buffer.cur == 0 && 1 <= indicator.samplingLength && 0.0 < p
    requires indicator.buffer.Get() == [p, 2.0 * p, 4.0 * p]
    ensures indicator.Value(1).Some? && RootOf(indicator.Value(1).value, 2.0)
  {
    DoublingVariance(p, indicator.samplingLength);
    indicator.ValueInTimeOrder(1);
  }

  /** An indicator whose buffer holds 2p, 4p, 2p, p in time order reports the root of 0.75 at 1 tick. */
  lemma HalvingReading(indicator: VolatilityIndicator, p: real)
    requires indicator.Valid() && indicator.buffer.cur == 0 && 1 <= indicator.samplingLength && 0.0 < p
    requires indicator.buffer.Get() == [2.0 * p, 4.0 * p, 2.0 * p, p]
    ensures indicator.Value(1).Some? && RootOf(indicator.Value(1).value, 0.75)
  {
    HalvingVariance(p, indicator.samplingLength);
    indicator.ValueInTimeOrder(1);
  }

  /** Three prices 10, 20, 40 fed to an indicator of 3 samples: the root of 2 at 1 tick. */
  lemma LinearTrendReading(indicator: VolatilityIndicator)
    requires indicator.Valid() && indicator.samplingLength == 3
    requires indicator.buffer.History == [10.0, 20.0, 40.0]
    ensures indicator.Value(1).Some? && RootOf(indicator.Value(1).value, 2.0)
  {
    assert indicator.buffer.Get() == [10.0, 20.0, 40.0];
    DoublingReading(indicator, 10.0);
  }

  /** Four prices 10, 20, 10, 5 fed to an indicator of 4 samples: the root of 0.75 at 1 tick. */
  lemma PercentageReading(indicator: VolatilityIndicator)
    requires indicator.Valid() && indicator.samplingLength == 4
    requires indicator.buffer.History == [10.0, 20.0, 10.0, 5.0]
    ensures indicator.Value(1).Some? && RootOf(indicator.Value(1).value, 0.75)
  {
    assert indicator.buffer.Get() == [10.0, 20.0, 10.0, 5.0];
    HalvingReading(indicator, 5.0);
  }

  /**
   * The linear-trend test: an indicator of 3 samples fed 10, 20, 40 reports
   * the square root of 2 at a horizon of 1 tick.
   */
  method LinearTrendScenario(sqrt: real -> real) returns (r: Option<real>)
    requires IsSqrt(sqrt)
    ensures r.Some? && RootOf(r.value, 2.0)
  {
    var indicator := new VolatilityIndicator(3, sqrt);
    indicator.AddSample(10.0);
    indicator.AddSample(20.0);
    indicator.AddSample(40.0);
    assert indicator.buffer.History == [10.0, 20.0, 40.0];
    LinearTrendReading(indicator);
    r := indicator.Value(1);
  }

  /**
   * The percentage test: an indicator of 4 samples fed 10, 20, 10, 5 reports
   * the square root of 0.75 at a horizon of 1 tick.
   */
  method PercentageScenario(sqrt: real -> real) returns (r: Option<real>)
    requires IsSqrt(sqrt)
    ensures r.Some? && RootOf(r.value, 0.75)
  {
    var indicator := new VolatilityIndicator(4, sqrt);
    indicator.AddSample(10.0);
    indicator.AddSample(20.0);
    indicator.AddSample(10.0);
    indicator.AddSample(5.0);
    assert indicator.buffer.History == [10.0, 20.0, 10.0, 5.0];
    PercentageReading(indicator);
    r := indicator.Value(1);
  }

  /** The first `n` prices of the alternating series 1.01, 1/1.01, 1.01, ... */
  function Alternating(n: nat): (s: seq<real>)
    ensures |s| == n
    ensures forall k :: 0 <= k < n ==> s[k] == if k % 2 == 0 then 1.01 else 1.0 / 1.01
  {
    if n == 0 then [] else Alternating(n - 1) + [if (n - 1) % 2 == 0 then 1.01 else 1.0 / 1.01]
  }

  /**
   * An even number of alternating prices at a horizon of 2 ticks: walking
   * back from the last price, every subsample is 1/1.01, so the squared
   * volatility is 0.
   */
  lemma AlternatingFlatAtTwo(n: nat, samplingLength: int)
    requires n % 2 == 0 && 5 <= n && 2 <= samplingLength
    ensures AllPositive(Alternating(n))
    ensures Variance(Alternating(n), samplingLength, 2) == Some(0.0)
  {
    var s := Alternating(n);
    var ss := Subsamples(s, 2);
    forall k | 0 <= k < |ss|
      ensures ss[k] == 1.0 / 1.01
    {
      DivModUnique(n - 1 - 2 * k, 2, n / 2 - k - 1, 1);
    }
    FlatGivesZero(s, samplingLength, 2);
  }

  /** `s` takes the value `x` at even positions and `y` at odd ones. */
  predicate Alternates(s: seq<real>, x: real, y: real)
  {
    forall i :: 0 <= i < |s| ==> s[i] == if i % 2 == 0 then x else y
  }

  /** Consecutive positions have opposite parities. */
  lemma NextParity(i: int)
    requires 0 <= i
    ensures (i + 1) % 2 == 1 - i % 2
  {
    var q, p := i / 2, i % 2;
    if p == 0 {
      DivModUnique(i + 1, 2, q, 1);
    } else {
      DivModUnique(i + 1, 2, q + 1, 0);
    }
  }

  /**
   * Walking back from the last of an even number of prices by 1 or 3 ticks
   * at a time, the `i`-th price visited sits at a position of the opposite
   * parity to `i`.
   */
  lemma SubsampleParity(n: int, ticks: int, i: int)
    requires n % 2 == 0 && (ticks == 1 || ticks == 3) && 0 <= i
    ensures (n - 1 - i * ticks) % 2 == 1 - i % 2
  {
    var h, q, p := n / 2, i / 2, i % 2;
    assert n == 2 * h && i == 2 * q + p;
    var j := n - 1 - i * ticks;
    if ticks == 1 {
      assert j == 2 * (h - q - 1) + 1 - p;
      DivModUnique(j, 2, h - q - 1, 1 - p);
    } else if p == 0 {
      assert j == 2 * (h - 3 * q - 1) + 1;
      DivModUnique(j, 2, h - 3 * q - 1, 1);
    } else {
      assert j == 2 * (h - 3 * q - 2);
      DivModUnique(j, 2, h - 3 * q - 2, 0);
    }
  }

  /** One subsample of an even-length series alternating 1.01, 1/1.01, at 1 or 3 ticks. */
  lemma AlternatingSubsampleAt(s: seq<real>, ticks: int, i: int)
    requires |s| % 2 == 0 && (ticks == 1 || ticks == 3) && Alternates(s, 1.01, 1.0 / 1.01)
    requires 0 <= i < |Subsamples(s, ticks)|
    ensures Subsamples(s, ticks)[i] == if i % 2 == 0 then 1.0 / 1.01 else 1.01
  {
    var j := |s| - 1 - i * ticks;
    assert Subsamples(s, ticks)[i] == s[j];
    SubsampleParity(|s|, ticks, i);
  }

  /**
   * Every `ticks`-th price of an even-length alternating series, walked back
   * from its last one, for horizons of 1 and 3 ticks: 1/1.01, 1.01 and so on.
   */
  lemma AlternatingSubsamples(n: nat, ticks: int)
    requires n % 2 == 0 && (ticks == 1 || ticks == 3)
    ensures AllPositive(Alternating(n))
    ensures Alternates(Subsamples(Alternating(n), ticks), 1.0 / 1.01, 1.01)
  {
    var s := Alternating(n);
    assert Alternates(s, 1.01, 1.0 / 1.01);
    var ss := Subsamples(s, ticks);
    forall i | 0 <= i < |ss|
      ensures ss[i] == if i % 2 == 0 then 1.0 / 1.01 else 1.01
    {
      AlternatingSubsampleAt(s, ticks, i);
    }
  }

  /** The returns of alternating positive prices alternate as well. */
  lemma ReturnsAlternate(ss: seq<real>, x: real, y: real)
    requires 0.0 < x && 0.0 < y && Alternates(ss, x, y)
    ensures AllPositive(ss)
    ensures Alternates(Returns(ss), (x - y) / y, (y - x) / x)
  {
    forall i | 0 <= i < |ss|
      ensures 0.0 < ss[i]
    {
    }
    var rs := Returns(ss);
    forall i | 0 <= i < |rs|
      ensures rs[i] == if i % 2 == 0 then (x - y) / y else (y - x) / x
    {
      NextParity(i);
      var a, b := ss[i], ss[i + 1];
      assert rs[i] == (a - b) / b;
      assert (a, b) == if i % 2 == 0 then (x, y) else (y, x);
    }
  }

  /** Alternating returns: ceil(n/2) squares of the first kind and floor(n/2) of the second. */
  lemma {:induction false} SumSquaresAlternate(rs: seq<real>, x: real, y: real)
    requires Alternates(rs, x, y)
    ensures SumSquares(rs) == ((|rs| + 1) / 2) as real * (x * x) + (|rs| / 2) as real * (y * y)
    decreases |rs|
  {
    if rs != [] {
      var tail := rs[1..];
      forall i | 0 <= i < |tail|
        ensures tail[i] == if i % 2 == 0 then y else x
      {
        NextParity(i);
        assert tail[i] == rs[i + 1];
      }
      SumSquaresAlternate(tail, y, x);
      var n, xx, yy := |rs|, x * x, y * y;
      DivAddDivisor(n - 1, 2);
      var b := (n - 1) / 2;
      assert (n + 1) / 2 == b + 1;
      assert (b + 1) as real * xx == b as real * xx + xx;
      assert rs[0] == x;
      assert SumSquares(rs) == xx + SumSquares(tail);
    }
  }

  /**
   * The sum of squared returns of the alternating series when it yields m
   * subsamples: m/2 returns of -201/10201 and (m-1)/2 of 201/10000.
   */
  function AlternatingTotal(m: int): real
  {
    (m / 2) as real * ((-201.0 / 10201.0) * (-201.0 / 10201.0)) + ((m - 1) / 2) as real * ((201.0 / 10000.0) * (201.0 / 10000.0))
  }

  /** The squared returns of the alternating series at 1 and 3 ticks add up to AlternatingTotal. */
  lemma AlternatingSumSquares(n: nat, ticks: int)
    requires n % 2 == 0 && 2 <= n && (ticks == 1 || ticks == 3)
    ensures AllPositive(Alternating(n)) && AllPositive(Subsamples(Alternating(n), ticks))
    ensures SumSquares(Returns(Subsamples(Alternating(n), ticks))) == AlternatingTotal(|Subsamples(Alternating(n), ticks)|)
  {
    AlternatingSubsamples(n, ticks);
    var ss := Subsamples(Alternating(n), ticks);
    ReturnsAlternate(ss, 1.0 / 1.01, 1.01);
    assert (1.0 / 1.01 - 1.01) / 1.01 == -201.0 / 10201.0;
    assert (1.01 - 1.0 / 1.01) / (1.0 / 1.01) == 201.0 / 10000.0;
    var rs := Returns(ss);
    SumSquaresAlternate(rs, -201.0 / 10201.0, 201.0 / 10000.0);
    var m := |ss|;
    assert |rs| == m - 1;
    assert (|rs| + 1) / 2 == m / 2 && |rs| / 2 == (m - 1) / 2;
  }

  /**
   * The alternating series over an even number `n` of prices, at 1 and 3
   * ticks: with m subsamples, the squared volatility is AlternatingTotal(m)
   * over the m - 2 degrees of freedom of its m - 1 returns.
   */
  lemma AlternatingVariance(n: nat, samplingLength: int, ticks: int)
    requires n % 2 == 0 && (ticks == 1 || ticks == 3)
    requires ticks <= samplingLength && 2 * ticks + 1 <= n
    ensures AllPositive(Alternating(n))
    ensures var m := (n + ticks - 1) / ticks;
      Variance(Alternating(n), samplingLength, ticks) == Some(AlternatingTotal(m) / (m - 2) as real)
  {
    var s := Alternating(n);
    AlternatingSumSquares(n, ticks);
    var ss := Subsamples(s, ticks);
    SubsampleThreshold(n, ticks);
    var rs := Returns(ss);
    VarianceFromParts(s, samplingLength, ticks, ss, rs, SumSquares(rs), |ss| - 2);
  }

  /** Squaring is monotone on the non-negative reals. */
  lemma SquareAtMost(a: real, b: real)
    requires 0.0 <= a <= b
    ensures a * a <= b * b
  {
    var d := b - a;
    assert b * b == a * a + 2.0 * a * d + d * d;
    assert 0.0 <= a * d;
  }

  /** Squaring is strictly monotone on the non-negative reals. */
  lemma SquareBelow(a: real, b: real)
    requires 0.0 <= a < b
    ensures a * a < b * b
  {
    var d := b - a;
    assert b * b == a * a + 2.0 * a * d + d * d;
    assert 0.0 <= a * d;
    assert 0.0 < d * d;
  }

  /** A non-negative root of a value between two squares lies between their roots. */
  lemma RootBetween(r: real, v: real, lo: real, hi: real)
    requires 0.0 <= lo && 0.0 <= hi && RootOf(r, v) && lo * lo <= v < hi * hi
    ensures lo <= r < hi
  {
    if r < lo {
      SquareBelow(r, lo);
    } else if hi <= r {
      SquareAtMost(hi, r);
    }
  }

  /** Two more prices of the series: 1.01 at an even position, then 1/1.01. */
  lemma AlternatingPair(i: nat)
    ensures Alternating(2 * i + 2) == Alternating(2 * i) + [1.01, 1.0 / 1.01]
  {
    assert Alternating(2 * i + 2) == Alternating(2 * i + 1) + [1.0 / 1.01];
    assert Alternating(2 * i + 1) == Alternating(2 * i) + [1.01];
  }

  /** The set-up of the alternating test: 1.01 and 1/1.01 in turn, 30 times, into an indicator of 60 samples. */
  method AlternatingIndicator(sqrt: real -> real) returns (indicator: VolatilityIndicator)
    requires IsSqrt(sqrt)
    ensures fresh(indicator) && indicator.Valid() && indicator.samplingLength == 60
    ensures indicator.buffer.History == Alternating(60)
  {
    indicator := new VolatilityIndicator(60, sqrt);
    var i := 0;
    while i < 30
      invariant 0 <= i <= 30
      invariant indicator.Valid() && indicator.samplingLength == 60
      invariant indicator.buffer.History == Alternating(2 * i)
      modifies indicator.buffer
    {
      indicator.AddSample(1.01);
      indicator.AddSample(1.0 / 1.01);
      AlternatingPair(i);
      i := i + 1;
    }
  }

  /** The squared volatility of the alternating test at 1 tick: (30 r1² + 29 r2²) / 58, r1 = -201/10201, r2 = 201/10000. */
  const OneTickVariance: real := 243123183563229.0 / 603550325800000000.0

  /** The squared volatility of the alternating test at 3 ticks: (10 r1² + 9 r2²) / 18. */
  const ThreeTickVariance: real := 8693144260801.0 / 20812080200000000.0

  /**
   * The alternating test's sixty prices at 1 tick: 60 subsamples, so 30
   * squared returns of -201/10201 and 29 of 201/10000 over 58.
   */
  lemma AlternatingOneTick(n: nat)
    requires n == 60
    ensures AllPositive(Alternating(n))
    ensures Variance(Alternating(n), n, 1) == Some(OneTickVariance)
  {
    AlternatingVariance(n, n, 1);
    assert (n + 1 - 1) / 1 == 60;
    assert AlternatingTotal(60) / 58.0 == OneTickVariance;
  }

  /**
   * The alternating test's sixty prices at 3 ticks: 20 subsamples, so 10
   * squared returns of -201/10201 and 9 of 201/10000 over 18.
   */
  lemma AlternatingThreeTicks(n: nat)
    requires n == 60
    ensures AllPositive(Alternating(n))
    ensures Variance(Alternating(n), n, 3) == Some(ThreeTickVariance)
  {
    AlternatingVariance(n, n, 3);
    assert (n + 3 - 1) / 3 == 20;
    assert AlternatingTotal(20) / 18.0 == ThreeTickVariance;
  }

  /**
   * The alternating test's readings at 1, 2 and 3 ticks: at 1 and 3 the
   * roots of exact squared volatilities, lying within the intervals that
   * round to .02007 and .02044 at five places; at 2 the root of 0.
   */
  lemma AlternatingReadings(indicator: VolatilityIndicator)
    requires indicator.Valid() && indicator.samplingLength == 60
    requires indicator.buffer.History == Alternating(60)
    ensures indicator.Value(1).Some? && RootOf(indicator.Value(1).value, OneTickVariance)
    ensures 0.020065 <= indicator.Value(1).value < 0.020075
    ensures indicator.Value(2).Some? && RootOf(indicator.Value(2).value, 0.0)
    ensures indicator.Value(3).Some? && RootOf(indicator.Value(3).value, ThreeTickVariance)
    ensures 0.020435 <= indicator.Value(3).value < 0.020445
  {
    var history := indicator.buffer.History;
    assert Window(history, 60) == history;
    assert Cursor(history, 60) == 0;
    StorageAtCursorZero(history, 60);
    assert indicator.buffer.data == history;
    AlternatingOneTick(60);
    AlternatingFlatAtTwo(60, 60);
    AlternatingThreeTicks(60);
    RootBetween(indicator.Value(1).value, OneTickVariance, 0.020065, 0.020075);
    RootBetween(indicator.Value(3).value, ThreeTickVariance, 0.020435, 0.020445);
  }

  /**
   * The alternating test: the indicator is full; at 1 and 3 ticks it reports
   * the roots of exact squared volatilities that round to .02007 and .02044;
   * at a horizon of 2 ticks every subsample is the same price, so the
   * volatility is the root of 0; a horizon of 120 ticks is beyond the
   * sampling length and gives nothing.
   */
  method AlternatingScenario(sqrt: real -> real)
    returns (full: bool, atOne: Option<real>, atTwo: Option<real>, atThree: Option<real>, atHundredTwenty: Option<real>)
    requires IsSqrt(sqrt)
    ensures full
    ensures atOne.Some? && RootOf(atOne.value, OneTickVariance) && 0.020065 <= atOne.value < 0.020075
    ensures atTwo.Some? && RootOf(atTwo.value, 0.0)
    ensures atThree.Some? && RootOf(atThree.value, ThreeTickVariance) && 0.020435 <= atThree.value < 0.020445
    ensures atHundredTwenty == None
  {
    var indicator := AlternatingIndicator(sqrt);
    AlternatingReadings(indicator);
    full := indicator.IsFull();
    atOne := indicator.Value(1);
    atTwo := indicator.Value(2);
    atThree := indicator.Value(3);
    atHundredTwenty := indicator.Value(120);
  }

  /** The tracker over 3 samples fed 10 and 20: too few prices for any horizon to have a reading yet. */
  method WarmTracker(sqrt: real -> real) returns (tracker: RollingVolatilityIndicator)
    requires IsSqrt(sqrt)
    ensures fresh(tracker) && fresh(tracker.volatility.buffer)
    ensures forall b :: b in tracker.indicators.Values ==> fresh(b)
    ensures tracker.Valid() && tracker.samplingLength == 3
    ensures tracker.volatility.buffer.History == [10.0, 20.0]
    ensures forall h :: h in tracker.indicators ==> tracker.indicators[h].History == []
  {
    tracker := new RollingVolatilityIndicator(3, sqrt);
    tracker.AddSample(10.0);
    tracker.AddSample(20.0);
  }

  /**
   * The tracker over 3 samples fed 10, 20, 40: the 1-tick horizon receives
   * its first reading with the third price, so its smoothed volatility is that
   * reading, the square root of 2; the 600-tick horizon is beyond the
   * sampling length and never receives one; an untracked horizon has neither
   * a value nor an array.
   */
  method RollingScenario(sqrt: real -> real) returns (oneTick: Option<real>, longest: Option<real>, untracked: Option<seq<real>>)
    requires IsSqrt(sqrt)
    ensures oneTick.Some? && RootOf(oneTick.value, 2.0)
    ensures longest == None
    ensures untracked == None
  {
    var tracker := WarmTracker(sqrt);
    assert 7 !in Horizons;
    tracker.AddSample(40.0);
    var prices := tracker.volatility.buffer;
    assert prices.Get() == [10.0, 20.0, 40.0] && prices.cur == 0;
    DoublingVariance(10.0, 3);
    tracker.volatility.ValueInTimeOrder(1);
    var reading := tracker.volatility.Value(1);
    assert reading.Some? && RootOf(reading.value, 2.0);
    var readings := tracker.indicators[1];
    assert readings.History == [reading.value];
    assert readings.Get() == [reading.value];
    MeanOfOne(reading.value);
    oneTick := tracker.Value(1);
    longest := tracker.Value(600);
    untracked := tracker.Array(7);
  }
}
