/**
 * The smoothed, multi-horizon tracker: after every price it asks the
 * single-horizon indicator for its reading at each of a fixed set of
 * horizons and keeps the readings that exist in one ring buffer per horizon;
 * the smoothed volatility of a horizon is the mean of that buffer.
 */
module RollingVolatility {

  import opened Wrappers
  import opened RingBuffers
  import opened Volatility

  /** The horizons tracked: the keys of the tracker's dictionary, in the order they are listed. */
  const Horizons: seq<int> := [1, 5, 10, 20, 30, 40, 50, 60, 120, 180, 600]

  /** Every horizon is a positive number of ticks, so asking the indicator for it never divides by zero. */
  lemma HorizonsPositive()
    ensures forall h :: h in Horizons ==> 1 <= h
  {
  }

  /** The horizons are listed in increasing order, so each is listed once. */
  lemma HorizonsIncreasing()
    ensures forall j, k :: 0 <= j < k < |Horizons| ==> Horizons[j] < Horizons[k]
  {
  }

  /** Readings are never negative. */
  predicate AllNonNegative(s: seq<real>)
  {
    forall i :: 0 <= i < |s| ==> 0.0 <= s[i]
  }

  /** The sum of a sequence of readings. */
  function Sum(s: seq<real>): (t: real)
    ensures AllNonNegative(s) ==> 0.0 <= t
  {
    if s == [] then 0.0 else s[0] + Sum(s[1..])
  }

  /** Summing a concatenation sums the parts. */
  lemma {:induction false} SumConcat(a: seq<real>, b: seq<real>)
    ensures Sum(a + b) == Sum(a) + Sum(b)
  {
    if a != [] {
      var ab := a + b;
      assert ab[0] == a[0] && ab[1..] == a[1..] + b;
      SumConcat(a[1..], b);
      assert Sum(ab) == ab[0] + Sum(ab[1..]);
    } else {
      assert a + b == b;
    }
  }

  /** Summing does not depend on where a rotated sequence starts. */
  lemma SumRotation(s: seq<real>, c: int)
    requires 0 <= c <= |s|
    ensures Sum(s[c..] + s[..c]) == Sum(s)
  {
    SumConcat(s[c..], s[..c]);
    SumConcat(s[..c], s[c..]);
    assert s[..c] + s[c..] == s;
  }

  /** The arithmetic mean of a non-empty sequence of readings. */
  function Mean(s: seq<real>): (m: real)
    requires s != []
    ensures AllNonNegative(s) ==> 0.0 <= m
  {
    Sum(s) / (|s| as real)
  }

  /** The mean of a single reading is that reading. */
  lemma MeanOfOne(x: real)
    ensures Mean([x]) == x
  {
    assert [x][1..] == [];
    assert Sum([x]) == x;
  }

  /**
   * The tracker: an indicator over the raw prices and one buffer of its
   * readings per horizon, every buffer holding `samplingLength` entries.
   */
  class RollingVolatilityIndicator {
    const samplingLength: int
    const volatility: VolatilityIndicator
    const indicators: map<int, RingBuffer>

    /**
     * The fixed layout: one buffer per horizon, no two horizons sharing a
     * buffer, none of them the price buffer.
     */
    ghost predicate Layout()
    {
      && volatility.samplingLength == samplingLength
      && (forall h :: h in indicators <==> h in Horizons)
      && volatility.buffer !in indicators.Values
      && (forall h, k :: h in indicators && k in indicators && h != k ==> indicators[h] != indicators[k])
    }

    /** Every horizon's buffer is valid, of the tracker's capacity, and holds no negative reading. */
    ghost predicate AllTracked()
      reads indicators.Values
    {
      forall h :: h in indicators ==> Tracked(indicators[h], samplingLength)
    }

    ghost predicate Valid()
      reads this, volatility, volatility.buffer, indicators.Values
    {
      Layout() && volatility.Valid() && AllTracked()
    }

    constructor (samplingLength: int := DefaultSamplingLength, sqrt: real -> real)
      requires IsSqrt(sqrt)
      ensures this.samplingLength == samplingLength
      ensures Valid() && fresh(volatility) && fresh(volatility.buffer)
      ensures volatility.buffer.History == []
      ensures forall h :: h in indicators ==> indicators[h].History == []
      ensures forall b :: b in indicators.Values ==> fresh(b)
    {
      var buffers := NewIndicators(samplingLength);
      var v := new VolatilityIndicator(samplingLength, sqrt);
      this.samplingLength := samplingLength;
      indicators := buffers;
      volatility := v;
    }

    /** What the horizon `h` receives from the current state: the reading, if there is one. */
    function ReadingFor(h: int): (r: seq<real>)
      reads volatility, volatility.buffer
      requires volatility.Valid() && volatility.samplingLength == samplingLength && h in Horizons
      ensures |r| <= 1
      ensures r != [] <==> 1 <= h <= samplingLength && |volatility.buffer.data| >= 2 * h + 1
      ensures forall i :: 0 <= i < |r| ==> 0.0 <= r[i]
    {
      HorizonsPositive();
      match volatility.Value(h)
      case None => []
      case Some(x) => [x]
    }

    /**
     * Records one price, then offers each horizon the reading computed over
     * the new price history; a horizon without a reading gets nothing.
     */
    method AddSample(value: real)
      requires Valid() && 0.0 < value
      modifies volatility.buffer, indicators.Values
      ensures Valid()
      ensures volatility.buffer.History == old(volatility.buffer.History) + [value]
      ensures forall h :: h in indicators ==>
        indicators[h].History == old(indicators[h].History) + ReadingFor(h)
    {
      volatility.AddSample(value);
      RecordReadings();
    }

    /**
     * The second half of `AddSample`: the horizons are visited in the order
     * they are listed, and each receives the reading over the current price
     * history, if there is one.
     */
    method RecordReadings()
      requires Layout() && volatility.Valid() && AllTracked()
      modifies indicators.Values
      ensures AllTracked()
      ensures forall h :: h in indicators ==>
        indicators[h].History == old(indicators[h].History) + ReadingFor(h)
    {
      HorizonsIncreasing();
      var pending := Horizons;
      while pending != []
        invariant forall h :: h in pending ==> h in indicators
        invariant forall j, k :: 0 <= j < k < |pending| ==> pending[j] < pending[k]
        invariant AllTracked()
        invariant forall h :: h in indicators ==>
          indicators[h].History == old(indicators[h].History) + (if h in pending then [] else ReadingFor(h))
      {
        var key := pending[0];
        Offer(key);
        pending := pending[1..];
      }
    }

    /** One pass of the loop in `AddSample`: the horizon `key` receives its reading, if there is one. */
    method Offer(key: int)
      requires Layout() && volatility.Valid() && AllTracked() && key in indicators
      modifies indicators[key]
      ensures AllTracked()
      ensures indicators[key].History == old(indicators[key].History) + ReadingFor(key)
    {
      var reading := volatility.Value(key);
      ghost var offered := ReadingFor(key);
      assert offered == if reading.Some? then [reading.value] else [];
      if reading.Some? {
        var target := indicators[key];
        AppendNonNegative(target.data, target.cur, reading.value);
        target.Append(reading.value);
        forall h | h in indicators
          ensures Tracked(indicators[h], samplingLength)
        {
          if indicators[h] != target {
            assert old(Tracked(indicators[h], samplingLength));
          }
        }
      }
      assert ReadingFor(key) == offered;
    }

    /**
     * The smoothed volatility of a horizon: nothing for a horizon that is not
     * tracked or has no readings yet, otherwise the mean of its readings,
     * which is the mean of the readings in time order and never negative.
     */
    function Value(period: int): (r: Option<real>)
      reads this, volatility, volatility.buffer, indicators.Values
      requires Valid()
      ensures r.None? <==> period !in Horizons || indicators[period].History == []
      ensures r.Some? ==> indicators[period].Get() != [] && r.value == Mean(indicators[period].Get())
      ensures r.Some? ==> 0.0 <= r.value
    {
      if period !in indicators then None
      else
        var buffer := indicators[period];
        var readings := buffer.Raw();
        if |readings| == 0 then None
        else
          SumRotation(readings, buffer.cur);
          Some(Mean(readings))
    }

    /**
     * The raw readings of a horizon, in storage order: nothing for a horizon
     * that is not tracked; rotated by the buffer's cursor they are the
     * readings in time order.
     */
    function Array(period: int): (r: Option<seq<real>>)
      reads this, volatility, volatility.buffer, indicators.Values
      requires Valid()
      ensures r.None? <==> period !in Horizons
      ensures r.Some? ==> var b := indicators[period];
        0 <= b.cur <= |r.value| && r.value[b.cur..] + r.value[..b.cur] == b.Get()
      ensures r.Some? ==> AllNonNegative(r.value) && |r.value| == indicators[period].Len()
    {
      if period !in indicators then None else Some(indicators[period].Raw())
    }
  }

  /** The tracker's dictionary: a fresh, empty buffer of `samplingLength` entries for every horizon. */
  method NewIndicators(samplingLength: int) returns (m: map<int, RingBuffer>)
    ensures forall h :: h in m <==> h in Horizons
    ensures forall h, k :: h in m && k in m && h != k ==> m[h] != m[k]
    ensures forall h :: h in m ==> Tracked(m[h], samplingLength) && m[h].History == []
    ensures forall b :: b in m.Values ==> fresh(b)
  {
    var b1 := NewBuffer(samplingLength);
    var b5 := NewBuffer(samplingLength);
    var b10 := NewBuffer(samplingLength);
    var b20 := NewBuffer(samplingLength);
    var b30 := NewBuffer(samplingLength);
    var b40 := NewBuffer(samplingLength);
    var b50 := NewBuffer(samplingLength);
    var b60 := NewBuffer(samplingLength);
    var b120 := NewBuffer(samplingLength);
    var b180 := NewBuffer(samplingLength);
    var b600 := NewBuffer(samplingLength);
    m := IndicatorMap(b1, b5, b10, b20, b30, b40, b50, b60, b120, b180, b600);
    EmptyBuffers(samplingLength, b1, b5, b10, b20, b30, b40, b50, b60, b120, b180, b600);
    DistinctBuffers(b1, b5, b10, b20, b30, b40, b50, b60, b120, b180, b600);
    BuffersListed(b1, b5, b10, b20, b30, b40, b50, b60, b120, b180, b600);
  }

  /** One entry of the dictionary: a new buffer of `samplingLength` readings, as its constructor leaves it. */
  method NewBuffer(samplingLength: int) returns (b: RingBuffer)
    ensures fresh(b) && EmptyBuffer(b, samplingLength)
  {
    b := new RingBuffer(samplingLength);
  }

  /** The horizon-to-buffer dictionary the tracker starts with. */
  function IndicatorMap(b1: RingBuffer, b5: RingBuffer, b10: RingBuffer, b20: RingBuffer, b30: RingBuffer,
                        b40: RingBuffer, b50: RingBuffer, b60: RingBuffer, b120: RingBuffer, b180: RingBuffer,
                        b600: RingBuffer): (m: map<int, RingBuffer>)
    ensures forall h :: h in m <==> h in Horizons
  {
    map[1 := b1, 5 := b5, 10 := b10, 20 := b20, 30 := b30, 40 := b40,
        50 := b50, 60 := b60, 120 := b120, 180 := b180, 600 := b600]
  }

  /** A valid buffer of `samplingLength` readings, none of them negative. */
  ghost predicate Tracked(b: RingBuffer, samplingLength: int)
    reads b
  {
    b.Valid() && b.max == samplingLength && AllNonNegative(b.data)
  }

  /** A buffer of `samplingLength` entries in the state its constructor leaves it in. */
  ghost predicate EmptyBuffer(b: RingBuffer, samplingLength: int)
    reads b
  {
    b.max == samplingLength && b.History == [] && b.data == [] && b.cur == 0 && !b.full
  }

  /** Fresh buffers of the sampling length make every entry of the dictionary an empty, valid buffer. */
  lemma EmptyBuffers(samplingLength: int, b1: RingBuffer, b5: RingBuffer, b10: RingBuffer, b20: RingBuffer,
                     b30: RingBuffer, b40: RingBuffer, b50: RingBuffer, b60: RingBuffer, b120: RingBuffer,
                     b180: RingBuffer, b600: RingBuffer)
    requires EmptyBuffer(b1, samplingLength) && EmptyBuffer(b5, samplingLength) && EmptyBuffer(b10, samplingLength)
    requires EmptyBuffer(b20, samplingLength) && EmptyBuffer(b30, samplingLength) && EmptyBuffer(b40, samplingLength)
    requires EmptyBuffer(b50, samplingLength) && EmptyBuffer(b60, samplingLength) && EmptyBuffer(b120, samplingLength)
    requires EmptyBuffer(b180, samplingLength) && EmptyBuffer(b600, samplingLength)
    ensures var m := IndicatorMap(b1, b5, b10, b20, b30, b40, b50, b60, b120, b180, b600);
      forall h :: h in m ==> Tracked(m[h], samplingLength) && m[h].History == []
  {
  }

  /** Every entry of the dictionary is one of the buffers it was built from. */
  lemma BuffersListed(b1: RingBuffer, b5: RingBuffer, b10: RingBuffer, b20: RingBuffer,
                      b30: RingBuffer, b40: RingBuffer, b50: RingBuffer, b60: RingBuffer, b120: RingBuffer,
                      b180: RingBuffer, b600: RingBuffer)
    ensures var m := IndicatorMap(b1, b5, b10, b20, b30, b40, b50, b60, b120, b180, b600);
      forall b :: b in m.Values ==> b in {b1, b5, b10, b20, b30, b40, b50, b60, b120, b180, b600}
  {
  }

  /** Buffers allocated one after another are distinct entries of the dictionary. */
  lemma DistinctBuffers(b1: RingBuffer, b5: RingBuffer, b10: RingBuffer, b20: RingBuffer,
                        b30: RingBuffer, b40: RingBuffer, b50: RingBuffer, b60: RingBuffer, b120: RingBuffer,
                        b180: RingBuffer, b600: RingBuffer)
    requires b5 != b1
    requires b10 != b1 && b10 != b5
    requires b20 != b1 && b20 != b5 && b20 != b10
    requires b30 != b1 && b30 != b5 && b30 != b10 && b30 != b20
    requires b40 != b1 && b40 != b5 && b40 != b10 && b40 != b20 && b40 != b30
    requires b50 != b1 && b50 != b5 && b50 != b10 && b50 != b20 && b50 != b30 && b50 != b40
    requires b60 != b1 && b60 != b5 && b60 != b10 && b60 != b20 && b60 != b30 && b60 != b40 && b60 != b50
    requires b120 != b1 && b120 != b5 && b120 != b10 && b120 != b20 && b120 != b30 && b120 != b40 && b120 != b50 && b120 != b60
    requires b180 != b1 && b180 != b5 && b180 != b10 && b180 != b20 && b180 != b30 && b180 != b40 && b180 != b50 && b180 != b60 && b180 != b120
    requires b600 != b1 && b600 != b5 && b600 != b10 && b600 != b20 && b600 != b30 && b600 != b40 && b600 != b50 && b600 != b60 && b600 != b120 && b600 != b180
    ensures var m := IndicatorMap(b1, b5, b10, b20, b30, b40, b50, b60, b120, b180, b600);
      forall h, k :: h in m && k in m && h != k ==> m[h] != m[k]
  {
    var m := IndicatorMap(b1, b5, b10, b20, b30, b40, b50, b60, b120, b180, b600);
    forall h, k | h in m && k in m && h != k
      ensures m[h] != m[k]
    {
      if h < k {
        assert m[h] in {b1, b5, b10, b20, b30, b40, b50, b60, b120, b180};
      }
    }
  }

  /** Writing or appending a non-negative reading keeps every reading non-negative. */
  lemma AppendNonNegative(s: seq<real>, i: int, x: real)
    requires AllNonNegative(s) && 0.0 <= x
    ensures 0 <= i < |s| ==> AllNonNegative(s[i := x])
    ensures AllNonNegative(s + [x])
  {
  }
}
