/**
 * The state quantizer of the quantized Q-table: per-dimension "pin" grids built
 * like numpy's linspace, and the bucket search numpy's digitize performs on them,
 * followed by a clip into the valid index range.
 */
module Quantizer {

  /** The level count as configured: one count for every dimension, or a count per dimension. */
  datatype Levels = Uniform(count: int) | PerDimension(counts: seq<int>)

  /** The per-dimension level counts: a single count is replicated to every dimension. */
  function BroadcastLevels(levels: Levels, stateLength: nat): (r: seq<int>)
    ensures levels.Uniform? ==> |r| == stateLength
    ensures levels.Uniform? ==> forall i :: 0 <= i < stateLength ==> r[i] == levels.count
    ensures levels.PerDimension? ==> r == levels.counts
  {
    match levels
    case Uniform(n) => seq(stateLength, _ => n)
    case PerDimension(v) => v
  }

  /** The k-th of n evenly spaced values from lo to hi (the only value is lo when n == 1). */
  function Pin(lo: real, hi: real, n: nat, k: nat): real
  {
    if n <= 1 then lo else lo + (k as real) * ((hi - lo) / ((n - 1) as real))
  }

  /** n evenly spaced values from lo to hi, both ends included, as numpy's linspace. */
  function Linspace(lo: real, hi: real, n: nat): (pins: seq<real>)
    ensures |pins| == n
    ensures n >= 1 ==> pins[0] == lo
    ensures n >= 2 ==> pins[n - 1] == hi
  {
    PinLast(lo, hi, n);
    seq(n, k requires 0 <= k < n => Pin(lo, hi, n, k))
  }

  lemma PinLast(lo: real, hi: real, n: nat)
    ensures n >= 2 ==> Pin(lo, hi, n, n - 1) == hi
  {
  }

  ghost predicate StrictlyIncreasing(pins: seq<real>)
  {
    forall i, j :: 0 <= i < j < |pins| ==> pins[i] < pins[j]
  }

  predicate NonDecreasing(pins: seq<real>)
  {
    forall i, j :: 0 <= i <= j < |pins| ==> pins[i] <= pins[j]
  }

  predicate NonIncreasing(pins: seq<real>)
  {
    forall i, j :: 0 <= i <= j < |pins| ==> pins[i] >= pins[j]
  }

  /** Pins from lo to hi rise (strictly when lo < hi) and fall when lo > hi. */
  lemma LinspaceMonotone(lo: real, hi: real, n: nat)
    ensures lo <= hi ==> NonDecreasing(Linspace(lo, hi, n))
    ensures lo < hi ==> StrictlyIncreasing(Linspace(lo, hi, n))
    ensures hi <= lo ==> NonIncreasing(Linspace(lo, hi, n))
  {
    var pins := Linspace(lo, hi, n);
    if n >= 2 {
      var step := (hi - lo) / ((n - 1) as real);
      assert lo <= hi ==> step >= 0.0;
      assert lo < hi ==> step > 0.0;
      assert hi <= lo ==> step <= 0.0;
      forall i, j | 0 <= i < j < n
        ensures lo <= hi ==> pins[i] <= pins[j]
        ensures lo < hi ==> pins[i] < pins[j]
        ensures hi <= lo ==> pins[i] >= pins[j]
      {
        PinGap(lo, n, step, i, j);
        ProductSign((j - i) as real, step);
      }
    }
  }

  /** Two pins lie the number of steps between them times the step apart. */
  lemma PinGap(lo: real, n: nat, step: real, i: nat, j: nat)
    requires i < j
    ensures (lo + (j as real) * step) - (lo + (i as real) * step) == ((j - i) as real) * step
  {
  }

  lemma ProductSign(a: real, b: real)
    requires a > 0.0
    ensures b >= 0.0 ==> a * b >= 0.0
    ensures b > 0.0 ==> a * b > 0.0
    ensures b <= 0.0 ==> a * b <= 0.0
  {
  }

  /** How many pins are at most x: numpy's digitize for non-decreasing bins. */
  function CountAtMost(pins: seq<real>, x: real): (c: nat)
    ensures c <= |pins|
  {
    if pins == [] then 0 else (if pins[0] <= x then 1 else 0) + CountAtMost(pins[1..], x)
  }

  /** How many pins are above x: numpy's digitize for non-increasing bins. */
  function CountAbove(pins: seq<real>, x: real): (c: nat)
    ensures c <= |pins|
  {
    if pins == [] then 0 else (if pins[0] > x then 1 else 0) + CountAbove(pins[1..], x)
  }

  /**
   * The insertion position numpy's digitize reports (right-open buckets): the pins
   * at most x when the pins rise, the pins above x when they fall.
   */
  function Digitize(x: real, pins: seq<real>): (c: nat)
    requires NonDecreasing(pins) || NonIncreasing(pins)
    ensures c <= |pins|
  {
    if NonDecreasing(pins) then CountAtMost(pins, x) else CountAbove(pins, x)
  }

  /** On rising pins, the pins at most x form a prefix and all later pins exceed x. */
  lemma {:induction false} CountAtMostSplits(pins: seq<real>, x: real)
    requires NonDecreasing(pins)
    ensures forall i :: 0 <= i < CountAtMost(pins, x) ==> pins[i] <= x
    ensures forall i :: CountAtMost(pins, x) <= i < |pins| ==> x < pins[i]
  {
    if pins != [] {
      var rest := pins[1..];
      assert NonDecreasing(rest) by {
        forall i, j | 0 <= i <= j < |rest| ensures rest[i] <= rest[j] {
          assert rest[i] == pins[i + 1] && rest[j] == pins[j + 1];
        }
      }
      CountAtMostSplits(rest, x);
      var c' := CountAtMost(rest, x);
      if pins[0] <= x {
        forall i | 0 <= i < 1 + c' ensures pins[i] <= x {
          if i > 0 { assert pins[i] == rest[i - 1]; }
        }
        forall i | 1 + c' <= i < |pins| ensures x < pins[i] {
          assert pins[i] == rest[i - 1];
        }
      } else {
        assert c' == 0;
        forall i | 0 <= i < |pins| ensures x < pins[i] {
          assert pins[0] <= pins[i];
        }
      }
    }
  }

  /** On falling pins, the pins above x form a prefix and all later pins are at most x. */
  lemma {:induction false} CountAboveSplits(pins: seq<real>, x: real)
    requires NonIncreasing(pins)
    ensures forall i :: 0 <= i < CountAbove(pins, x) ==> x < pins[i]
    ensures forall i :: CountAbove(pins, x) <= i < |pins| ==> pins[i] <= x
  {
    if pins != [] {
      var rest := pins[1..];
      assert NonIncreasing(rest) by {
        forall i, j | 0 <= i <= j < |rest| ensures rest[i] >= rest[j] {
          assert rest[i] == pins[i + 1] && rest[j] == pins[j + 1];
        }
      }
      CountAboveSplits(rest, x);
      var c' := CountAbove(rest, x);
      if pins[0] > x {
        forall i | 0 <= i < 1 + c' ensures x < pins[i] {
          if i > 0 { assert pins[i] == rest[i - 1]; }
        }
        forall i | 1 + c' <= i < |pins| ensures pins[i] <= x {
          assert pins[i] == rest[i - 1];
        }
      } else {
        assert c' == 0;
        forall i | 0 <= i < |pins| ensures pins[i] <= x {
          assert pins[i] <= pins[0];
        }
      }
    }
  }

  /** numpy's clip with lo <= hi: the value moved into [lo, hi]. */
  function Clip(v: int, lo: int, hi: int): (r: int)
    requires lo <= hi
    ensures lo <= r <= hi
    ensures lo <= v <= hi ==> r == v
    ensures v < lo ==> r == lo
    ensures hi < v ==> r == hi
  {
    if v < lo then lo else if v > hi then hi else v
  }

  /** One dimension's pins are well formed: `level` of them (at least one), rising or falling. */
  predicate PinsValid(pins: seq<real>, level: int)
  {
    1 <= level == |pins| && (NonDecreasing(pins) || NonIncreasing(pins))
  }

  /** The bucket of x: digitize minus one, clipped to [0, level - 1]. */
  function BucketIndex(x: real, pins: seq<real>, level: int): (k: nat)
    requires PinsValid(pins, level)
    ensures k < level
  {
    Clip(Digitize(x, pins) as int - 1, 0, level - 1)
  }

  /** Below the first of rising pins, a value falls into bucket 0. */
  lemma BucketClampsBelow(x: real, pins: seq<real>, level: int)
    requires PinsValid(pins, level) && NonDecreasing(pins)
    requires x < pins[0]
    ensures BucketIndex(x, pins, level) == 0
  {
    CountAtMostSplits(pins, x);
    assert CountAtMost(pins, x) == 0;
  }

  /** At or above the last of rising pins, a value falls into the last bucket. */
  lemma BucketClampsAbove(x: real, pins: seq<real>, level: int)
    requires PinsValid(pins, level) && NonDecreasing(pins)
    requires pins[level - 1] <= x
    ensures BucketIndex(x, pins, level) == level - 1
  {
    CountAtMostSplits(pins, x);
    assert CountAtMost(pins, x) == |pins|;
  }

  /**
   * Right-open bucketing on rising pins: a value from the first pin on lies at or
   * above its bucket's pin and below the next pin, if there is one.
   */
  lemma BucketRightOpen(x: real, pins: seq<real>, level: int)
    requires PinsValid(pins, level) && NonDecreasing(pins)
    requires pins[0] <= x
    ensures var k := BucketIndex(x, pins, level);
      pins[k] <= x && (k + 1 < level ==> x < pins[k + 1])
  {
    CountAtMostSplits(pins, x);
    assert CountAtMost(pins, x) >= 1;
  }

  /** On strictly rising pins, each pin value lands in its own bucket. */
  lemma BucketOfPin(pins: seq<real>, level: int, k: nat)
    requires PinsValid(pins, level) && StrictlyIncreasing(pins)
    requires k < level
    ensures BucketIndex(pins[k], pins, level) == k
  {
    assert NonDecreasing(pins);
    CountAtMostSplits(pins, pins[k]);
    var c := CountAtMost(pins, pins[k]);
    if c <= k {
      assert false;
    }
    if k + 1 < level {
      assert pins[k] < pins[k + 1];
    }
    if c > k + 1 {
      assert false;
    }
  }

  /**
   * The grid is well formed for a state of |pins| dimensions: every dimension has
   * a level count of at least one and exactly that many monotone pins.
   */
  predicate GridValid(levels: seq<int>, pins: seq<seq<real>>)
  {
    |levels| >= |pins| && forall i :: 0 <= i < |pins| ==> PinsValid(pins[i], levels[i])
  }

  /** The bucket index of every dimension of a state. */
  function QuantizeIndices(levels: seq<int>, pins: seq<seq<real>>, state: seq<real>): (idx: seq<nat>)
    requires GridValid(levels, pins) && |state| >= |pins|
    ensures |idx| == |pins|
    ensures forall i :: 0 <= i < |pins| ==> idx[i] < levels[i]
  {
    seq(|pins|, i requires 0 <= i < |pins| => BucketIndex(state[i], pins[i], levels[i]))
  }

  /** The pin value each dimension of a state snaps to. */
  function QuantizeValues(levels: seq<int>, pins: seq<seq<real>>, state: seq<real>): (v: seq<real>)
    requires GridValid(levels, pins) && |state| >= |pins|
    ensures |v| == |pins|
  {
    var idx := QuantizeIndices(levels, pins, state);
    seq(|pins|, i requires 0 <= i < |pins| => pins[i][idx[i]])
  }

  /**
   * Quantizing is idempotent on strictly rising grids: a state already snapped to
   * pin values keeps its indices and its values.
   */
  lemma QuantizeIdempotent(levels: seq<int>, pins: seq<seq<real>>, state: seq<real>)
    requires GridValid(levels, pins) && |state| >= |pins|
    requires forall i :: 0 <= i < |pins| ==> StrictlyIncreasing(pins[i])
    ensures QuantizeIndices(levels, pins, QuantizeValues(levels, pins, state))
         == QuantizeIndices(levels, pins, state)
    ensures QuantizeValues(levels, pins, QuantizeValues(levels, pins, state))
         == QuantizeValues(levels, pins, state)
  {
    var idx := QuantizeIndices(levels, pins, state);
    var snapped := QuantizeValues(levels, pins, state);
    forall i | 0 <= i < |pins|
      ensures QuantizeIndices(levels, pins, snapped)[i] == idx[i]
    {
      BucketOfPin(pins[i], levels[i], idx[i]);
    }
  }

  /**
   * Why idempotence needs strictly rising pins: on flat pins a value below them
   * lands in bucket 0 but its snapped value 1.0 lands in bucket 2, and on
   * falling pins 2.0 lands in bucket 1 but its snapped value 3.0 in bucket 0.
   */
  lemma QuantizeNotIdempotentOffRising()
    ensures BucketIndex(0.0, [1.0, 1.0, 1.0], 3) == 0
    ensures BucketIndex([1.0, 1.0, 1.0][0], [1.0, 1.0, 1.0], 3) == 2
    ensures BucketIndex(2.0, [5.0, 3.0, 1.0], 3) == 1
    ensures BucketIndex([5.0, 3.0, 1.0][1], [5.0, 3.0, 1.0], 3) == 0
  {
  }
}
