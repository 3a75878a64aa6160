/**
 The windowed best-three filter used for windowed maximum bandwidth and
 windowed minimum RTT.

 The filter keeps the best, second-best and third-best `(value, time)`
 samples seen inside a sliding window. In max mode "at least as good" is
 `>=`, in min mode `<=`, so ties favour the newer sample. Times are
 nanosecond counts; only their differences matter.
 */
module WindowFilter {
  import opened Durations

  datatype Sample = Sample(value: int, time: int)

  datatype Filter = Filter(
    maxOrMinFilter: bool,       // true: track maxima, false: track minima
    windowLength: Duration,
    best: Sample,
    second: Sample,
    third: Sample)

  /** A filter that has never been updated: all three slots zero. */
  function ZeroFilter(maxOrMinFilter: bool, windowLength: Duration): Filter {
    Filter(maxOrMinFilter, windowLength, Sample(0, 0), Sample(0, 0), Sample(0, 0))
  }

  /** `a` is at least as good as `b` in the given mode. */
  predicate Better(maxOrMinFilter: bool, a: int, b: int) {
    if maxOrMinFilter then a >= b else a <= b
  }

  function GetBest(f: Filter): int { f.best.value }
  function GetSecondBest(f: Filter): int { f.second.value }
  function GetThirdBest(f: Filter): int { f.third.value }

  /** The slots are ranked: best at least as good as second, second at least
      as good as third. */
  predicate Ranked(f: Filter) {
    Better(f.maxOrMinFilter, f.best.value, f.second.value) &&
    Better(f.maxOrMinFilter, f.second.value, f.third.value)
  }

  /** The slots were recorded oldest first. */
  predicate TimeOrdered(f: Filter) {
    f.best.time <= f.second.time <= f.third.time
  }

  /** The sample `s` was already in a slot of `f`, or is the new sample `n`. */
  predicate FromFilterOrNew(s: Sample, f: Filter, n: Sample) {
    s == f.best || s == f.second || s == f.third || s == n
  }

  /**
   `Update(value, time)`. Unless the filter restarts from the sample (it is
   empty, the sample is a new best, or even the third-best has left the
   window), the sample is ranked into the second or third slot, then an
   expired best is replaced by promoting the lower slots (twice if the
   promoted one has expired too), and otherwise a second-best equal to the
   best is refreshed after a quarter window and a third-best equal to the
   second after half a window.
   */
  function Update(f: Filter, v: int, t: int): (r: Filter)
    ensures r.maxOrMinFilter == f.maxOrMinFilter && r.windowLength == f.windowLength
    // no value is invented: every slot is an old slot or the new sample
    ensures FromFilterOrNew(r.best, f, Sample(v, t))
    ensures FromFilterOrNew(r.second, f, Sample(v, t))
    ensures FromFilterOrNew(r.third, f, Sample(v, t))
    // every slot is at least as good as the newest sample
    ensures Better(f.maxOrMinFilter, r.best.value, v)
    ensures Better(f.maxOrMinFilter, r.second.value, v)
    ensures Better(f.maxOrMinFilter, r.third.value, v)
    // an empty filter, a new best, or a stale third slot restarts the filter
    ensures f.best.value == 0 || Better(f.maxOrMinFilter, v, f.best.value) || t - f.third.time > f.windowLength
      ==> r.best == r.second == r.third == Sample(v, t)
    ensures Ranked(f) ==> Ranked(r)
  {
    var mode, window, s := f.maxOrMinFilter, f.windowLength, Sample(v, t);
    if f.best.value == 0 || Better(mode, v, f.best.value) || t - f.third.time > window then
      f.(best := s, second := s, third := s)
    else
      // rank the sample below the best
      var g :=
        if Better(mode, v, f.second.value) then f.(second := s, third := s)
        else if Better(mode, v, f.third.value) then f.(third := s)
        else f;
      if t - g.best.time > window then
        // the best has left the window: promote the lower slots
        var h := g.(best := g.second, second := g.third, third := s);
        if t - h.best.time > window then h.(best := h.second, second := h.third) else h
      else if g.second.value == g.best.value && t - g.second.time > Quot(window, 4) then
        g.(second := s, third := s)
      else if g.third.value == g.second.value && t - g.third.time > Quot(window, 2) then
        g.(third := s)
      else
        g
  }

  /** Feeding samples to the filter in order. */
  function Feed(f: Filter, samples: seq<Sample>): Filter
    decreases |samples|
  {
    if |samples| == 0 then f
    else Feed(Update(f, samples[0].value, samples[0].time), samples[1..])
  }

  predicate NonDecreasingTimes(samples: seq<Sample>) {
    forall i, j | 0 <= i < j < |samples| :: samples[i].time <= samples[j].time
  }

  /** A never-updated filter reads zero in every slot. */
  lemma ZeroFilterReadsZero(maxOrMinFilter: bool, windowLength: Duration)
    ensures var f := ZeroFilter(maxOrMinFilter, windowLength);
      GetBest(f) == 0 && GetSecondBest(f) == 0 && GetThirdBest(f) == 0
  {
  }

  /**
   With a non-negative window and a clock that does not go backwards, every
   update leaves the slots oldest first, none recorded after the update's
   time, and the best recorded within one window of it.
   */
  lemma UpdateKeepsSlotsInWindow(f: Filter, v: int, t: int)
    requires f.windowLength >= 0
    requires f.best.value == 0 || (TimeOrdered(f) && f.third.time <= t)
    ensures var r := Update(f, v, t);
      TimeOrdered(r) && r.third.time <= t && t - r.best.time <= r.windowLength
  {
  }

  /**
   Over any run of samples with non-decreasing times, starting from the empty
   filter or from a ranked, time-ordered one, the slots stay ranked and
   time-ordered, and the best is never older than one window before the
   latest sample.
   */
  lemma {:induction false} FeedKeepsInvariant(f: Filter, samples: seq<Sample>)
    requires f.windowLength >= 0 && Ranked(f)
    requires NonDecreasingTimes(samples)
    requires f.best.value == 0 || (TimeOrdered(f) && (|samples| > 0 ==> f.third.time <= samples[0].time))
    ensures Ranked(Feed(f, samples))
    ensures |samples| > 0 ==>
      var r, t := Feed(f, samples), samples[|samples| - 1].time;
      TimeOrdered(r) && r.third.time <= t && t - r.best.time <= r.windowLength
    decreases |samples|
  {
    if |samples| > 0 {
      var f1 := Update(f, samples[0].value, samples[0].time);
      UpdateKeepsSlotsInWindow(f, samples[0].value, samples[0].time);
      var rest := samples[1..];
      assert NonDecreasingTimes(rest) by {
        forall i, j | 0 <= i < j < |rest| ensures rest[i].time <= rest[j].time {
          assert rest[i] == samples[i + 1] && rest[j] == samples[j + 1];
        }
      }
      if |rest| > 0 {
        assert rest[0] == samples[1];
      }
      FeedKeepsInvariant(f1, rest);
      if |rest| == 0 {
        assert Feed(f1, rest) == f1;
      } else {
        assert samples[|samples| - 1] == rest[|rest| - 1];
      }
    }
  }

  /** A sample at least as good as the best restarts all three slots. */
  lemma NewBestResetsAll(f: Filter, v: int, t: int)
    requires Better(f.maxOrMinFilter, v, f.best.value)
    ensures var r := Update(f, v, t);
      GetBest(r) == GetSecondBest(r) == GetThirdBest(r) == v
  {
  }

  /** Once even the third-best has left the window, any sample restarts all
      three slots. */
  lemma StaleThirdResetsAll(f: Filter, v: int, t: int)
    requires t - f.third.time > f.windowLength
    ensures var r := Update(f, v, t);
      GetBest(r) == GetSecondBest(r) == GetThirdBest(r) == v
  {
  }

  /** Within the window, a sample better than the second-best but not the best
      takes the second and third slots and leaves the best alone. */
  lemma SampleTakesSecondAndThird(f: Filter, v: int, t: int)
    requires f.windowLength >= 0 && f.best.value != 0
    requires !Better(f.maxOrMinFilter, v, f.best.value) && Better(f.maxOrMinFilter, v, f.second.value)
    requires t - f.best.time <= f.windowLength && t - f.third.time <= f.windowLength
    ensures Update(f, v, t) == f.(second := Sample(v, t), third := Sample(v, t))
  {
  }

  /** Within the window, a sample better than the third-best but not the
      second-best takes only the third slot (unless the second-best equals the
      best and a quarter window has passed, which refreshes both lower slots). */
  lemma SampleTakesThird(f: Filter, v: int, t: int)
    requires f.best.value != 0
    requires !Better(f.maxOrMinFilter, v, f.second.value) && Better(f.maxOrMinFilter, v, f.third.value)
    requires !Better(f.maxOrMinFilter, v, f.best.value)
    requires t - f.best.time <= f.windowLength && t - f.third.time <= f.windowLength
    requires f.second.value != f.best.value || t - f.second.time <= Quot(f.windowLength, 4)
    ensures Update(f, v, t) == f.(third := Sample(v, t))
  {
  }

  /** An expired best is replaced by the second-best, which is replaced by the
      third-best; the new sample fills the third slot. */
  lemma ExpiredBestPromotesOnce(f: Filter, v: int, t: int)
    requires f.best.value != 0
    requires !Better(f.maxOrMinFilter, v, f.third.value)
    requires !Better(f.maxOrMinFilter, v, f.second.value)
    requires !Better(f.maxOrMinFilter, v, f.best.value)
    requires t - f.third.time <= f.windowLength
    requires t - f.best.time > f.windowLength && t - f.second.time <= f.windowLength
    ensures Update(f, v, t) == f.(best := f.second, second := f.third, third := Sample(v, t))
  {
  }

  /** When best and second-best have both expired, the third-best becomes
      best and the new sample fills both lower slots. */
  lemma ExpiredBestAndSecondPromoteTwice(f: Filter, v: int, t: int)
    requires f.best.value != 0
    requires !Better(f.maxOrMinFilter, v, f.third.value)
    requires !Better(f.maxOrMinFilter, v, f.second.value)
    requires !Better(f.maxOrMinFilter, v, f.best.value)
    requires t - f.third.time <= f.windowLength
    requires t - f.best.time > f.windowLength && t - f.second.time > f.windowLength
    ensures Update(f, v, t) == f.(best := f.third, second := Sample(v, t), third := Sample(v, t))
  {
  }

  /** A sample that ranks into the second slot in the same update that
      expires the best fills all three slots: the promotion that follows the
      insertion carries the sample itself up to best. */
  lemma RankedIntoSecondWhenBestExpired(f: Filter, v: int, t: int)
    requires f.best.value != 0
    requires !Better(f.maxOrMinFilter, v, f.best.value) && Better(f.maxOrMinFilter, v, f.second.value)
    requires t - f.third.time <= f.windowLength && t - f.best.time > f.windowLength
    ensures Update(f, v, t) == f.(best := Sample(v, t), second := Sample(v, t), third := Sample(v, t))
  {
  }

  /** A sample that ranks only into the third slot in the same update that
      expires the best moves up behind the old second-best, or all the way to
      best when the second-best has expired too. */
  lemma RankedIntoThirdWhenBestExpired(f: Filter, v: int, t: int)
    requires f.best.value != 0
    requires !Better(f.maxOrMinFilter, v, f.best.value) && !Better(f.maxOrMinFilter, v, f.second.value)
    requires Better(f.maxOrMinFilter, v, f.third.value)
    requires t - f.third.time <= f.windowLength && t - f.best.time > f.windowLength
    ensures t - f.second.time <= f.windowLength ==>
      Update(f, v, t) == f.(best := f.second, second := Sample(v, t), third := Sample(v, t))
    ensures t - f.second.time > f.windowLength ==>
      Update(f, v, t) == f.(best := Sample(v, t), second := Sample(v, t), third := Sample(v, t))
  {
  }

  /** Within the window, when the second-best still equals the best and more
      than a quarter window has passed since it was recorded, a sample that
      ranks nowhere refreshes both lower slots and leaves the best alone. */
  lemma QuarterWindowRefreshesSecond(f: Filter, v: int, t: int)
    requires f.best.value != 0
    requires !Better(f.maxOrMinFilter, v, f.best.value)
    requires !Better(f.maxOrMinFilter, v, f.second.value)
    requires !Better(f.maxOrMinFilter, v, f.third.value)
    requires t - f.best.time <= f.windowLength && t - f.third.time <= f.windowLength
    requires f.second.value == f.best.value && t - f.second.time > Quot(f.windowLength, 4)
    ensures Update(f, v, t) == f.(second := Sample(v, t), third := Sample(v, t))
  {
  }

  /** Within the window, when no quarter-window refresh is due but the
      third-best still equals the second and more than half a window has
      passed since it was recorded, a sample that ranks nowhere refreshes the
      third slot only. */
  lemma HalfWindowRefreshesThird(f: Filter, v: int, t: int)
    requires f.best.value != 0
    requires !Better(f.maxOrMinFilter, v, f.best.value)
    requires !Better(f.maxOrMinFilter, v, f.second.value)
    requires !Better(f.maxOrMinFilter, v, f.third.value)
    requires t - f.best.time <= f.windowLength && t - f.third.time <= f.windowLength
    requires f.second.value != f.best.value || t - f.second.time <= Quot(f.windowLength, 4)
    requires f.third.value == f.second.value && t - f.third.time > Quot(f.windowLength, 2)
    ensures Update(f, v, t) == f.(third := Sample(v, t))
  {
  }

  /** The conditions under which an update changes nothing at all: the sample
      ranks nowhere, nothing expires and no refresh is due. */
  lemma UpdateIsNoOp(f: Filter, v: int, t: int)
    requires f.best.value != 0
    requires !Better(f.maxOrMinFilter, v, f.best.value)
    requires !Better(f.maxOrMinFilter, v, f.second.value)
    requires !Better(f.maxOrMinFilter, v, f.third.value)
    requires t - f.best.time <= f.windowLength && t - f.third.time <= f.windowLength
    requires f.second.value != f.best.value || t - f.second.time <= Quot(f.windowLength, 4)
    requires f.third.value != f.second.value || t - f.third.time <= Quot(f.windowLength, 2)
    ensures Update(f, v, t) == f
  {
  }

  /** `updateWithIrrelevantSamples`: the values `i % maxValue` for
      `i = 0 .. 999`, all at time `t`. Go's `%` and Dafny's agree for the
      non-negative `i`; a zero `maxValue` would panic in the Go test. */
  function UpdateWithIrrelevantSamples(f: Filter, maxValue: int, t: int): Filter
    requires maxValue != 0
  {
    IrrelevantFrom(f, maxValue, t, 0)
  }

  function IrrelevantFrom(f: Filter, maxValue: int, t: int, i: nat): Filter
    requires maxValue != 0
    decreases 1000 - i
  {
    if i >= 1000 then f else IrrelevantFrom(Update(f, i % maxValue, t), maxValue, t, i + 1)
  }

  /** `|m|`: the values `i % maxValue` of a burst range over `0 .. |maxValue| - 1`. */
  function Magnitude(m: int): nat {
    if m < 0 then -m else m
  }

  /** Every value an irrelevant sample can take (`0 <= k < |maxValue|`) is
      strictly worse than `x`. */
  predicate AllWorseThan(maxOrMinFilter: bool, maxValue: int, x: int) {
    forall k | 0 <= k < Magnitude(maxValue) :: !Better(maxOrMinFilter, k, x)
  }

  predicate WorseThanBest(f: Filter, maxValue: int) {
    AllWorseThan(f.maxOrMinFilter, maxValue, f.best.value)
  }

  /** One sample strictly worse than the best, within the window, keeps the
      best and keeps the third slot within the window. */
  lemma WorseSampleKeepsBest(f: Filter, v: int, t: int)
    requires f.windowLength >= 0 && f.best.value != 0
    requires !Better(f.maxOrMinFilter, v, f.best.value)
    requires t - f.best.time <= f.windowLength && t - f.third.time <= f.windowLength
    ensures var r := Update(f, v, t);
      r.best == f.best && t - r.third.time <= r.windowLength
  {
  }

  /**
   A burst of samples all worse than a best that is still inside the window
   never changes the best, however the lower slots churn.
   */
  lemma {:induction false} IrrelevantSamplesKeepBest(f: Filter, maxValue: int, t: int, i: nat)
    requires maxValue != 0 && f.windowLength >= 0 && f.best.value != 0
    requires WorseThanBest(f, maxValue)
    requires t - f.best.time <= f.windowLength && t - f.third.time <= f.windowLength
    ensures IrrelevantFrom(f, maxValue, t, i).best == f.best
    decreases 1000 - i
  {
    if i < 1000 {
      var k := i % maxValue;
      assert !Better(f.maxOrMinFilter, k, f.best.value);
      WorseSampleKeepsBest(f, k, t);
      var f1 := Update(f, k, t);
      assert WorseThanBest(f1, maxValue);
      IrrelevantSamplesKeepBest(f1, maxValue, t, i + 1);
    }
  }

  /** If no irrelevant value changes the filter, the whole burst leaves it
      exactly as it was. */
  lemma {:induction false} IrrelevantSamplesNoOp(f: Filter, maxValue: int, t: int, i: nat)
    requires maxValue != 0
    requires forall k | 0 <= k < Magnitude(maxValue) :: Update(f, k, t) == f
    ensures IrrelevantFrom(f, maxValue, t, i) == f
    decreases 1000 - i
  {
    if i < 1000 {
      assert Update(f, i % maxValue, t) == f;
      IrrelevantSamplesNoOp(f, maxValue, t, i + 1);
    }
  }

  /** A burst of irrelevant samples that rank nowhere, at a time when nothing
      expires and no refresh is due, leaves the filter exactly as it was. */
  lemma IrrelevantSamplesUnchanged(f: Filter, maxValue: int, t: int)
    requires maxValue != 0 && f.best.value != 0
    requires AllWorseThan(f.maxOrMinFilter, maxValue, f.best.value)
    requires AllWorseThan(f.maxOrMinFilter, maxValue, f.second.value)
    requires AllWorseThan(f.maxOrMinFilter, maxValue, f.third.value)
    requires t - f.best.time <= f.windowLength && t - f.third.time <= f.windowLength
    requires f.second.value != f.best.value || t - f.second.time <= Quot(f.windowLength, 4)
    requires f.third.value != f.second.value || t - f.third.time <= Quot(f.windowLength, 2)
    ensures UpdateWithIrrelevantSamples(f, maxValue, t) == f
  {
    forall k | 0 <= k < Magnitude(maxValue)
      ensures Update(f, k, t) == f
    {
      UpdateIsNoOp(f, k, t);
    }
    IrrelevantSamplesNoOp(f, maxValue, t, 0);
  }
}
