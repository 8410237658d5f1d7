/** The clock synchroniser's ring of round-trip samples, as a value.

    The ring has six slots and an index of the slot the next sample goes to.
    Reading it backwards from the slot before that index gives the samples
    most recent first; the k-th of those is weighted by `Weights[k]`, slots
    holding a value <= 0 count as empty, and the weighted sum is divided by
    the weights actually used. The `NetworkTime` class in module ClockSync
    is proved against these functions. */
module PingSmoothing {

  /** Number of slots in the ring (PING_SMOOTHING_SAMPLES). */
  const SampleCount: int := 6

  /** Weights applied to the samples, most recent first (PING_SMOOTHING_WEIGHTS). */
  const Weights: seq<real> := [0.35, 0.25, 0.20, 0.1, 0.05, 0.05]

  /** A C# float as far as this model needs one: a number, or the NaN that 0f / 0f gives. */
  datatype FloatValue = Real(value: real) | NaN

  /** The slots of the ring and the index of the slot the next sample is written to. */
  datatype Ring = Ring(samples: seq<real>, next: int) {
    predicate Valid() {
      |samples| == SampleCount && 0 <= next < SampleCount
    }
  }

  /** The slot holding the sample recorded `k` writes ago: one step back from
      `next`, then `k` more, wrapping below 0 to the last slot. */
  function Slot(next: int, k: int): (i: int)
    ensures 0 <= i < SampleCount
  {
    (next - 1 - k) % SampleCount
  }

  /** All slots zeroed; the write index is kept. */
  function Reset(ring: Ring): (r: Ring)
    requires ring.Valid()
    ensures r.Valid() && r.next == ring.next
    ensures forall i :: 0 <= i < SampleCount ==> r.samples[i] == 0.0
  {
    Ring(seq(SampleCount, _ => 0.0), ring.next)
  }

  /** `x` written at the write index, which then advances modulo the ring size. */
  function Record(ring: Ring, x: real): (r: Ring)
    requires ring.Valid()
    ensures r.Valid()
    ensures r.samples[ring.next] == x
    ensures forall i :: 0 <= i < SampleCount && i != ring.next ==> r.samples[i] == ring.samples[i]
  {
    Ring(ring.samples[ring.next := x], (ring.next + 1) % SampleCount)
  }

  /** Samples recorded in the order given by `history`, oldest first. */
  function RecordAll(ring: Ring, history: seq<real>): (r: Ring)
    requires ring.Valid()
    ensures r.Valid()
  {
    if history == [] then ring
    else Record(RecordAll(ring, history[..|history| - 1]), history[|history| - 1])
  }

  /** The slots in the order the smoothing visits them: most recent first. */
  function Recent(ring: Ring): (r: seq<real>)
    requires ring.Valid()
  {
    seq(SampleCount, k requires 0 <= k < SampleCount => ring.samples[Slot(ring.next, k)])
  }

  function Reversed(s: seq<real>): (r: seq<real>)
  {
    if s == [] then [] else [s[|s| - 1]] + Reversed(s[..|s| - 1])
  }

  /** Weighted contribution of the k-th most recent sample; empty (<= 0) slots give 0. */
  function Term(recent: seq<real>, k: nat): (t: real)
    requires k < |recent| && k < SampleCount
  {
    if recent[k] > 0.0 then recent[k] * Weights[k] else 0.0
  }

  /** Weight of the k-th most recent sample when it is used, else 0. */
  function WeightUsed(recent: seq<real>, k: nat): (w: real)
    requires k < |recent| && k < SampleCount
  {
    if recent[k] > 0.0 then Weights[k] else 0.0
  }

  /** Sum of the first `n` terms, in the order the loop adds them. */
  function WeightedSum(recent: seq<real>, n: nat): (sum: real)
    requires n <= |recent| && n <= SampleCount
  {
    if n == 0 then 0.0 else WeightedSum(recent, n - 1) + Term(recent, n - 1)
  }

  /** Sum of the weights used by the first `n` terms. */
  function TotalWeight(recent: seq<real>, n: nat): (total: real)
    requires n <= |recent| && n <= SampleCount
  {
    if n == 0 then 0.0 else TotalWeight(recent, n - 1) + WeightUsed(recent, n - 1)
  }

  /** The normalised weighted mean of six samples taken most recent first; NaN
      when no weight was used, as the unguarded float division gives. */
  function Mean(recent: seq<real>): (r: FloatValue)
    requires |recent| == SampleCount
  {
    var total := TotalWeight(recent, SampleCount);
    if total == 0.0 then NaN else Real(WeightedSum(recent, SampleCount) / total)
  }

  /** The smoothed ping of a ring. */
  function Average(ring: Ring): (r: FloatValue)
    requires ring.Valid()
  {
    Mean(Recent(ring))
  }

  /** Some slot holds a sample > 0. */
  predicate HasSample(ring: Ring)
    requires ring.Valid()
  {
    exists i :: 0 <= i < SampleCount && ring.samples[i] > 0.0
  }

  // ---------------------------------------------------------------------------
  // Traversal order

  /** Stepping back one more write from a slot is the previous slot, wrapping to the last. */
  lemma SlotStep(next: int, k: int)
    requires 0 <= next < SampleCount && 0 <= k
    ensures Slot(next, k + 1) == if Slot(next, k) == 0 then SampleCount - 1 else Slot(next, k) - 1
  {
  }

  /** The slot written `k` writes ago, without the modulus. */
  lemma SlotClosedForm(next: int, k: int)
    requires 0 <= next < SampleCount && 0 <= k < SampleCount
    ensures Slot(next, k) == if k < next then next - 1 - k else next + SampleCount - 1 - k
  {
  }

  /** The backward walk from `next` visits every slot, and no slot twice: slot
      `i` is reached after `Slot(next, i)` steps, since the walk is its own inverse. */
  lemma SlotVisitsEachOnce(next: int)
    requires 0 <= next < SampleCount
    ensures forall i :: 0 <= i < SampleCount ==> Slot(next, Slot(next, i)) == i
    ensures forall k, j :: 0 <= k < j < SampleCount ==> Slot(next, k) != Slot(next, j)
  {
    forall i | 0 <= i < SampleCount
      ensures Slot(next, Slot(next, i)) == i
    {
      SlotClosedForm(next, i);
      SlotClosedForm(next, Slot(next, i));
    }
    forall k, j | 0 <= k < j < SampleCount
      ensures Slot(next, k) != Slot(next, j)
    {
      SlotClosedForm(next, k);
      SlotClosedForm(next, j);
    }
  }

  /** After a write, the slot `k` writes back is the one that was `k - 1`
      writes back before it, and never the slot just written. */
  lemma SlotAfterRecord(next: int, k: int)
    requires 0 <= next < SampleCount && 1 <= k < SampleCount
    ensures Slot((next + 1) % SampleCount, k) == Slot(next, k - 1) != next
  {
    var after := if next == SampleCount - 1 then 0 else next + 1;
    assert (next + 1) % SampleCount == after;
    SlotClosedForm(after, k);
    SlotClosedForm(next, k - 1);
  }

  /** Recording a sample puts it first in the most-recent-first order and pushes
      the older samples back one place; the oldest drops out. */
  lemma RecordPushesFront(ring: Ring, x: real)
    requires ring.Valid()
    ensures Recent(Record(ring, x)) == [x] + Recent(ring)[..SampleCount - 1]
  {
    var r := Record(ring, x);
    forall k | 0 <= k < SampleCount
      ensures Recent(r)[k] == ([x] + Recent(ring)[..SampleCount - 1])[k]
    {
      if k == 0 {
        SlotClosedForm(r.next, 0);
        assert Slot(r.next, 0) == ring.next;
      } else {
        SlotAfterRecord(ring.next, k);
      }
    }
  }

  lemma {:induction false} ReversedAt(s: seq<real>, k: nat)
    requires k < |s|
    ensures |Reversed(s)| == |s| && Reversed(s)[k] == s[|s| - 1 - k]
  {
    if k > 0 {
      ReversedAt(s[..|s| - 1], k - 1);
    }
    if |s| > 1 {
      ReversedAt(s[..|s| - 1], 0);
    }
  }

  lemma {:induction false} ReversedLength(s: seq<real>)
    ensures |Reversed(s)| == |s|
  {
    if s != [] {
      ReversedLength(s[..|s| - 1]);
    }
  }

  /** After recording `history`, the walk sees the history newest first,
      followed by what the ring held before. */
  lemma {:induction false} RecordAllRecent(ring: Ring, history: seq<real>)
    requires ring.Valid()
    ensures Recent(RecordAll(ring, history)) == (Reversed(history) + Recent(ring))[..SampleCount]
  {
    if history != [] {
      var h := history[..|history| - 1];
      var x := history[|history| - 1];
      RecordAllRecent(ring, h);
      RecordPushesFront(RecordAll(ring, h), x);
      ReversedLength(h);
      assert Reversed(history) == [x] + Reversed(h);
      assert Recent(RecordAll(ring, history))
          == [x] + (Reversed(h) + Recent(ring))[..SampleCount][..SampleCount - 1];
      assert (Reversed(h) + Recent(ring))[..SampleCount][..SampleCount - 1]
          == (Reversed(h) + Recent(ring))[..SampleCount - 1];
      assert [x] + (Reversed(h) + Recent(ring))[..SampleCount - 1]
          == ([x] + Reversed(h) + Recent(ring))[..SampleCount];
    }
  }

  /** The sample recorded `k` writes ago is the one weighted by `Weights[k]`. */
  lemma KthMostRecentSample(ring: Ring, history: seq<real>, k: nat)
    requires ring.Valid() && k < |history| && k < SampleCount
    ensures Recent(RecordAll(ring, history))[k] == history[|history| - 1 - k]
  {
    RecordAllRecent(ring, history);
    ReversedAt(history, k);
  }

  // ---------------------------------------------------------------------------
  // Which samples count

  /** The weights used are never negative, and some weight is used exactly
      when some of the first `n` samples is > 0. */
  lemma {:induction false} TotalWeightPositive(recent: seq<real>, n: nat)
    requires n <= |recent| && n <= SampleCount
    ensures TotalWeight(recent, n) >= 0.0
    ensures TotalWeight(recent, n) > 0.0 <==> exists k :: 0 <= k < n && recent[k] > 0.0
  {
    if n > 0 {
      TotalWeightPositive(recent, n - 1);
    }
  }

  /** Two sample sequences that agree wherever either is > 0 have the same sum
      and weight: a value <= 0 is the same as no sample. */
  lemma {:induction false} EmptySlotsIgnored(a: seq<real>, b: seq<real>, n: nat)
    requires |a| == |b| == SampleCount && n <= SampleCount
    requires forall k :: 0 <= k < SampleCount && (a[k] > 0.0 || b[k] > 0.0) ==> a[k] == b[k]
    ensures WeightedSum(a, n) == WeightedSum(b, n) && TotalWeight(a, n) == TotalWeight(b, n)
  {
    if n > 0 {
      EmptySlotsIgnored(a, b, n - 1);
    }
  }

  /** Recording a value <= 0 smooths to the same result as recording 0. */
  lemma NonPositiveSampleIsNoSample(ring: Ring, x: real)
    requires ring.Valid() && x <= 0.0
    ensures Average(Record(ring, x)) == Average(Record(ring, 0.0))
  {
    RecordPushesFront(ring, x);
    RecordPushesFront(ring, 0.0);
    EmptySlotsIgnored(Recent(Record(ring, x)), Recent(Record(ring, 0.0)), SampleCount);
  }

  /** The smoothed ping is a number exactly when some slot holds a sample > 0;
      otherwise the division by zero yields NaN. */
  lemma AverageDefinedIff(ring: Ring)
    requires ring.Valid()
    ensures Average(ring).Real? <==> HasSample(ring)
  {
    var recent := Recent(ring);
    TotalWeightPositive(recent, SampleCount);
    SlotVisitsEachOnce(ring.next);
    if HasSample(ring) {
      var i :| 0 <= i < SampleCount && ring.samples[i] > 0.0;
      assert recent[Slot(ring.next, i)] > 0.0;
    }
  }

  /** A zeroed ring holds no sample, so smoothing it would divide zero by zero. */
  lemma AverageAfterReset(ring: Ring)
    requires ring.Valid()
    ensures Average(Reset(ring)) == NaN
  {
    AverageDefinedIff(Reset(ring));
  }

  /** A recorded round trip smooths to NaN exactly when it is <= 0 and no
      other slot holds a sample > 0: the ring held none, or the write
      overwrote the last one. */
  lemma PongSmoothsToNaNIff(ring: Ring, x: real)
    requires ring.Valid()
    ensures Average(Record(ring, x)).NaN? <==>
              x <= 0.0 && forall i :: 0 <= i < SampleCount && i != ring.next ==> ring.samples[i] <= 0.0
  {
    var r := Record(ring, x);
    AverageDefinedIff(r);
    if x > 0.0 {
      assert r.samples[ring.next] > 0.0;
    }
    if exists i :: 0 <= i < SampleCount && i != ring.next && ring.samples[i] > 0.0 {
      var i :| 0 <= i < SampleCount && i != ring.next && ring.samples[i] > 0.0;
      assert r.samples[i] > 0.0;
    }
  }

  /** The first pong after a reset smooths to NaN exactly when its round trip is <= 0. */
  lemma FirstPongAfterReset(ring: Ring, x: real)
    requires ring.Valid()
    ensures Average(Record(Reset(ring), x)).NaN? <==> x <= 0.0
  {
    PongSmoothsToNaNIff(Reset(ring), x);
  }

  /** Six round trips of 0 after a single 5 ms one overwrite it, and the smoothing
      is back to NaN although the ring held a sample just before the last write. */
  lemma NaNAfterOverwrite()
    ensures Average(Ring([0.0, 0.0, 0.0, 0.0, 0.0, 0.005], 5)).Real?
    ensures Average(Record(Ring([0.0, 0.0, 0.0, 0.0, 0.0, 0.005], 5), 0.0)) == NaN
  {
    var ring := Ring([0.0, 0.0, 0.0, 0.0, 0.0, 0.005], 5);
    AverageDefinedIff(ring);
    assert HasSample(ring) by { assert ring.samples[5] > 0.0; }
    PongSmoothsToNaNIff(ring, 0.0);
  }

  // ---------------------------------------------------------------------------
  // The weighted-mean bound

  lemma ScaleMonotone(a: real, b: real, w: real)
    requires a <= b && w >= 0.0
    ensures a * w <= b * w
  {
  }

  lemma WeightPositive(k: nat)
    requires k < SampleCount
    ensures Weights[k] > 0.0
  {
  }

  /** A single term is at least `lo` times the weight it uses. */
  lemma TermAbove(recent: seq<real>, k: nat, lo: real)
    requires k < |recent| && k < SampleCount
    requires recent[k] > 0.0 ==> lo <= recent[k]
    ensures lo * WeightUsed(recent, k) <= Term(recent, k)
  {
    WeightPositive(k);
    if recent[k] > 0.0 {
      ScaleMonotone(lo, recent[k], Weights[k]);
    }
  }

  /** A single term is at most `hi` times the weight it uses. */
  lemma TermBelow(recent: seq<real>, k: nat, hi: real)
    requires k < |recent| && k < SampleCount
    requires recent[k] > 0.0 ==> recent[k] <= hi
    ensures Term(recent, k) <= hi * WeightUsed(recent, k)
  {
    WeightPositive(k);
    if recent[k] > 0.0 {
      ScaleMonotone(recent[k], hi, Weights[k]);
    }
  }

  /** Multiplying out a sum of two weights. */
  lemma Distribute(c: real, t: real, w: real)
    ensures c * (t + w) == c * t + c * w
  {
  }

  /** If every sample > 0 among the first `n` is at least `lo`, the weighted
      sum is at least `lo` times the weight used. */
  lemma {:induction false} WeightedSumAbove(recent: seq<real>, n: nat, lo: real)
    requires n <= |recent| && n <= SampleCount
    requires forall k :: 0 <= k < n && recent[k] > 0.0 ==> lo <= recent[k]
    ensures lo * TotalWeight(recent, n) <= WeightedSum(recent, n)
  {
    if n > 0 {
      var k := n - 1;
      WeightedSumAbove(recent, k, lo);
      TermAbove(recent, k, lo);
      Distribute(lo, TotalWeight(recent, k), WeightUsed(recent, k));
    }
  }

  /** If every sample > 0 among the first `n` is at most `hi`, the weighted
      sum is at most `hi` times the weight used. */
  lemma {:induction false} WeightedSumBelow(recent: seq<real>, n: nat, hi: real)
    requires n <= |recent| && n <= SampleCount
    requires forall k :: 0 <= k < n && recent[k] > 0.0 ==> recent[k] <= hi
    ensures WeightedSum(recent, n) <= hi * TotalWeight(recent, n)
  {
    if n > 0 {
      var k := n - 1;
      WeightedSumBelow(recent, k, hi);
      TermBelow(recent, k, hi);
      Distribute(hi, TotalWeight(recent, k), WeightUsed(recent, k));
    }
  }

  lemma DivideBounds(lo: real, hi: real, sum: real, total: real)
    requires total > 0.0 && lo * total <= sum <= hi * total
    ensures lo <= sum / total <= hi
  {
    assert sum / total * total == sum;
    if sum / total < lo {
      ScaleMonotone(sum / total, lo, total);
    }
    if sum / total > hi {
      ScaleMonotone(hi, sum / total, total);
    }
  }

  /** With some sample > 0, all of them in [lo, hi], the mean is a number in [lo, hi]. */
  lemma MeanWithin(recent: seq<real>, lo: real, hi: real)
    requires |recent| == SampleCount
    requires exists k :: 0 <= k < SampleCount && recent[k] > 0.0
    requires forall k :: 0 <= k < SampleCount && recent[k] > 0.0 ==> lo <= recent[k] <= hi
    ensures Mean(recent).Real? && lo <= Mean(recent).value <= hi
  {
    TotalWeightPositive(recent, SampleCount);
    var sum, total := WeightedSum(recent, SampleCount), TotalWeight(recent, SampleCount);
    WeightedSumAbove(recent, SampleCount, lo);
    WeightedSumBelow(recent, SampleCount, hi);
    DivideBounds(lo, hi, sum, total);
  }

  /** When some slot holds a sample > 0, the smoothed ping is a number that
      lies between any bounds of the samples > 0. */
  lemma AverageWithinSamples(ring: Ring, lo: real, hi: real)
    requires ring.Valid() && HasSample(ring)
    requires forall i :: 0 <= i < SampleCount && ring.samples[i] > 0.0 ==> lo <= ring.samples[i] <= hi
    ensures Average(ring).Real? && lo <= Average(ring).value <= hi
  {
    var recent := Recent(ring);
    SlotVisitsEachOnce(ring.next);
    var i :| 0 <= i < SampleCount && ring.samples[i] > 0.0;
    assert recent[Slot(ring.next, i)] > 0.0;
    forall k | 0 <= k < SampleCount && recent[k] > 0.0
      ensures lo <= recent[k] <= hi
    {
      assert recent[k] == ring.samples[Slot(ring.next, k)];
    }
    MeanWithin(recent, lo, hi);
  }

  /** With a single sample > 0 in the ring, the smoothed ping is that sample. */
  lemma AverageOfSingleSample(ring: Ring, j: int)
    requires ring.Valid() && 0 <= j < SampleCount && ring.samples[j] > 0.0
    requires forall i :: 0 <= i < SampleCount && i != j ==> ring.samples[i] <= 0.0
    ensures Average(ring) == Real(ring.samples[j])
  {
    AverageWithinSamples(ring, ring.samples[j], ring.samples[j]);
  }

  /** When every sample > 0 equals `c`, the smoothed ping is `c`. */
  lemma AverageOfSteadySamples(ring: Ring, c: real)
    requires ring.Valid() && HasSample(ring)
    requires forall i :: 0 <= i < SampleCount && ring.samples[i] > 0.0 ==> ring.samples[i] == c
    ensures Average(ring) == Real(c)
  {
    AverageWithinSamples(ring, c, c);
  }

  /** The weighted mean of round trips 20 (newest) and 22 with four empty slots. */
  lemma MeanOfTwoSamples()
    ensures Mean([20.0, 22.0, 0.0, 0.0, 0.0, 0.0]) == Real(125.0 / 6.0)
  {
    var recent := [20.0, 22.0, 0.0, 0.0, 0.0, 0.0];
    assert Term(recent, 0) == 7.0 && WeightUsed(recent, 0) == 0.35;
    assert Term(recent, 1) == 5.5 && WeightUsed(recent, 1) == 0.25;
    assert WeightedSum(recent, 2) == 12.5 && TotalWeight(recent, 2) == 0.6;
    assert WeightedSum(recent, 3) == 12.5 && TotalWeight(recent, 3) == 0.6;
    assert WeightedSum(recent, 4) == 12.5 && TotalWeight(recent, 4) == 0.6;
    assert WeightedSum(recent, 5) == 12.5 && TotalWeight(recent, 5) == 0.6;
    assert WeightedSum(recent, 6) == 12.5 && TotalWeight(recent, 6) == 0.6;
  }

  /** Two round trips, 22 then 20, recorded into a freshly reset ring: weights
      0.35 and 0.25 renormalised by 0.6 give 125/6 (about 20.83). */
  lemma TwoSamplesAfterReset(ring: Ring)
    requires ring.Valid()
    ensures Average(RecordAll(Reset(ring), [22.0, 20.0])) == Real(125.0 / 6.0)
  {
    var start := Reset(ring);
    RecordAllRecent(start, [22.0, 20.0]);
    assert Reversed([22.0, 20.0]) == [20.0, 22.0] by {
      assert [22.0, 20.0][..1] == [22.0];
      assert Reversed([22.0]) == [22.0] + Reversed([]);
    }
    assert Recent(start) == [0.0, 0.0, 0.0, 0.0, 0.0, 0.0];
    assert Recent(RecordAll(start, [22.0, 20.0])) == [20.0, 22.0, 0.0, 0.0, 0.0, 0.0];
    MeanOfTwoSamples();
  }
}
