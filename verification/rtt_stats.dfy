/**
 The round-trip-time estimator of the congestion controller.

 The estimator keeps four durations. quic-go stores each one in its own
 atomically accessed word so that readers on the send path never block the
 ack path; every access touches one field only, so a sequential record with
 pure transition functions is an exact account of each field's history.
 A field is stored as the `uint64` bit pattern of a `time.Duration` and read
 back through the inverse conversion, so storing and loading is the identity
 on durations.
 */
module RttStats {
  import opened Durations

  /** The default RTT reported before any sample has been taken (100 ms). */
  const DefaultInitialRTT: Duration := 100 * Millisecond

  datatype RTTStats = RTTStats(
    minRTT: Duration,
    latestRTT: Duration,
    smoothedRTT: Duration,
    meanDeviation: Duration)

  /**
   The exponentially weighted moving-average step, which the Go code computes
   in 32-bit floating point on microsecond counts. Each function takes the old
   estimate and the new observation, both already truncated to whole
   microseconds, and yields the new estimate in whole microseconds:
   `deviation` weights them 3/4 and 1/4, `average` weights them 7/8 and 1/8.
   Their values are left uninterpreted.
   */
  datatype Ewma = Ewma(
    deviation: (Duration, Duration) -> Duration,
    average: (Duration, Duration) -> Duration)

  /** One RTT observation handed to `UpdateRTT`. */
  datatype RttSample = RttSample(sendDelta: Duration, ackDelay: Duration)

  /** `NewRTTStats()`: the zero value of the record. */
  function NewRTTStats(): (r: RTTStats)
    ensures MinRTT(r) == 0 && LatestRTT(r) == 0
    ensures SmoothedRTT(r) == 0 && MeanDeviation(r) == 0
    ensures SmoothedOrInitialRTT(r) == DefaultInitialRTT
  {
    RTTStats(0, 0, 0, 0)
  }

  function MinRTT(r: RTTStats): Duration { r.minRTT }
  function LatestRTT(r: RTTStats): Duration { r.latestRTT }
  function SmoothedRTT(r: RTTStats): Duration { r.smoothedRTT }
  function MeanDeviation(r: RTTStats): Duration { r.meanDeviation }

  /** The smoothed RTT, or the 100 ms default while it is still zero. */
  function SmoothedOrInitialRTT(r: RTTStats): (d: Duration)
    ensures r.smoothedRTT != 0 ==> d == r.smoothedRTT
    ensures r.smoothedRTT == 0 ==> d == 100_000_000
    ensures r.smoothedRTT >= 0 ==> d > 0
  {
    if r.smoothedRTT != 0 then r.smoothedRTT else DefaultInitialRTT
  }

  /** Every field non-negative, as in every estimator that has only seen
      non-negative ack delays. */
  predicate NonNegative(r: RTTStats) {
    r.minRTT >= 0 && r.latestRTT >= 0 && r.smoothedRTT >= 0 && r.meanDeviation >= 0
  }

  /** A send delta the estimator accepts: positive and not the infinite sentinel. */
  predicate IsValidSendDelta(sendDelta: Duration) {
    sendDelta > 0 && sendDelta != InfDuration
  }

  /** The minimum after one accepted sample: the raw send delta replaces an
      unset (zero) or larger minimum. */
  function NextMinRTT(minRTT: Duration, sendDelta: Duration): Duration {
    if minRTT == 0 || minRTT > sendDelta then sendDelta else minRTT
  }

  /** The sample after ack-delay correction against the updated minimum. */
  function CorrectedSample(sendDelta: Duration, minRTT: Duration, ackDelay: Duration): Duration {
    if Sub(sendDelta, minRTT) >= ackDelay then Sub(sendDelta, ackDelay) else sendDelta
  }

  /**
   `UpdateRTT(sendDelta, ackDelay, now)`; the Go code never reads `now`, so it
   is not a parameter here. Invalid send deltas leave the estimator alone.
   Otherwise the minimum follows the raw send delta, the latest sample is the
   send delta corrected for ack delay only when the correction cannot take it
   below the minimum, and the smoothed values are either seeded from the
   sample (first sample) or advanced by the moving-average step.
   */
  function UpdateRTT(r: RTTStats, sendDelta: Duration, ackDelay: Duration, ewma: Ewma): (r': RTTStats)
    // invalid samples are ignored
    ensures !IsValidSendDelta(sendDelta) ==> r' == r
    // the minimum tracks the raw send delta
    ensures IsValidSendDelta(sendDelta) && r.minRTT == 0 ==> r'.minRTT == sendDelta
    ensures IsValidSendDelta(sendDelta) && r.minRTT > 0 ==>
      r'.minRTT <= r.minRTT && r'.minRTT <= sendDelta && (r'.minRTT == r.minRTT || r'.minRTT == sendDelta)
    // the latest sample is the send delta, with or without the ack delay taken off
    ensures IsValidSendDelta(sendDelta) ==>
      r'.latestRTT == sendDelta || r'.latestRTT == Sub(sendDelta, ackDelay)
    ensures IsValidSendDelta(sendDelta) && r.minRTT >= 0 && sendDelta - ackDelay <= MaxDuration ==>
      r'.latestRTT == (if sendDelta - ackDelay >= r'.minRTT then sendDelta - ackDelay else sendDelta)
    ensures IsValidSendDelta(sendDelta) && r.minRTT >= 0 && ackDelay >= 0 ==>
      0 < r'.minRTT <= r'.latestRTT <= sendDelta
    // the first sample seeds the smoothed values
    ensures IsValidSendDelta(sendDelta) && r.smoothedRTT == 0 ==>
      r'.smoothedRTT == r'.latestRTT && r'.meanDeviation == Quot(r'.latestRTT, 2)
  {
    if !IsValidSendDelta(sendDelta) then r
    else
      var minRTT := NextMinRTT(r.minRTT, sendDelta);
      var sample := CorrectedSample(sendDelta, minRTT, ackDelay);
      if r.smoothedRTT == 0 then
        RTTStats(minRTT, sample, sample, Quot(sample, 2))
      else
        var deviationUs := ewma.deviation(Quot(r.meanDeviation, Microsecond),
                                          Quot(Abs(Sub(r.smoothedRTT, sample)), Microsecond));
        var averageUs := ewma.average(Quot(r.smoothedRTT, Microsecond), Quot(sample, Microsecond));
        RTTStats(minRTT, sample, Mul(averageUs, Microsecond), Mul(deviationUs, Microsecond))
  }

  /** `OnConnectionMigration()`: all history is discarded. */
  function OnConnectionMigration(r: RTTStats): (r': RTTStats)
    ensures MinRTT(r') == 0 && LatestRTT(r') == 0
    ensures SmoothedRTT(r') == 0 && MeanDeviation(r') == 0
  {
    RTTStats(0, 0, 0, 0)
  }

  /**
   `ExpireSmoothedMetrics()`: the smoothed RTT is raised to the latest RTT if
   that is larger, and the mean deviation to the latest deviation (taken
   against the smoothed RTT from before the call) if that is larger.
   */
  function ExpireSmoothedMetrics(r: RTTStats): (r': RTTStats)
    ensures r'.minRTT == r.minRTT && r'.latestRTT == r.latestRTT
    ensures r'.smoothedRTT >= r.smoothedRTT && r'.smoothedRTT >= r.latestRTT
    ensures r'.smoothedRTT == r.smoothedRTT || r'.smoothedRTT == r.latestRTT
    ensures r'.meanDeviation >= r.meanDeviation
    ensures r'.meanDeviation >= Abs(Sub(r.smoothedRTT, r.latestRTT))
    ensures r'.meanDeviation == r.meanDeviation || r'.meanDeviation == Abs(Sub(r.smoothedRTT, r.latestRTT))
    ensures NonNegative(r) ==>
      NonNegative(r') &&
      r'.meanDeviation >= r.smoothedRTT - r.latestRTT &&
      r'.meanDeviation >= r.latestRTT - r.smoothedRTT
  {
    var meanDeviation := Max(r.meanDeviation, Abs(Sub(r.smoothedRTT, r.latestRTT)));
    var smoothedRTT := Max(r.smoothedRTT, r.latestRTT);
    r.(meanDeviation := meanDeviation, smoothedRTT := smoothedRTT)
  }

  /** Expiring twice is expiring once, for any non-negative mean deviation. */
  lemma ExpireSmoothedMetricsIdempotent(r: RTTStats)
    requires r.meanDeviation >= 0
    ensures ExpireSmoothedMetrics(ExpireSmoothedMetrics(r)) == ExpireSmoothedMetrics(r)
  {
    var e := ExpireSmoothedMetrics(r);
    if r.smoothedRTT < r.latestRTT {
      assert e.smoothedRTT == e.latestRTT;
      assert Abs(Sub(e.smoothedRTT, e.latestRTT)) == 0;
    }
  }

  /**
   The latest RTT stays at or above the minimum exactly when taking the ack
   delay off the send delta does not overflow 64 bits; only an ack delay below
   `sendDelta - 2^63` (a huge negative one) can overflow, and then the stored
   latest RTT is negative.
   */
  lemma LatestAtLeastMinUnlessOverflow(r: RTTStats, sendDelta: Duration, ackDelay: Duration, ewma: Ewma)
    requires IsValidSendDelta(sendDelta) && r.minRTT >= 0
    ensures var r' := UpdateRTT(r, sendDelta, ackDelay, ewma);
      r'.latestRTT >= r'.minRTT <==> sendDelta - ackDelay <= MaxDuration
  {
    var r' := UpdateRTT(r, sendDelta, ackDelay, ewma);
    var m := NextMinRTT(r.minRTT, sendDelta);
    assert 0 < m <= sendDelta;
    assert Sub(sendDelta, m) == sendDelta - m;
    if sendDelta - ackDelay > MaxDuration {
      assert sendDelta - m >= ackDelay;
      assert r'.latestRTT == sendDelta - ackDelay - Modulus < 0;
    }
  }

  /** An overflowing ack-delay correction, concretely: the latest RTT wraps
      negative and falls below the minimum. */
  lemma OverflowingAckDelayExample(ewma: Ewma)
    ensures var r' := UpdateRTT(NewRTTStats(), 1, -MaxDuration, ewma);
      r'.minRTT == 1 && r'.latestRTT == MinDuration && r'.latestRTT < r'.minRTT
  {
    assert Sub(1, -MaxDuration) == MinDuration;
  }

  /**
   After a migration the next accepted sample is a first sample again: the
   result is the one a brand-new estimator would give, whatever history the
   estimator had; a positive ack delay is not subtracted from it, because the
   minimum has just been set to the send delta itself.
   */
  lemma MigrationRestartsFirstSample(r: RTTStats, sendDelta: Duration, ackDelay: Duration, ewma: Ewma)
    requires IsValidSendDelta(sendDelta)
    ensures var r' := UpdateRTT(OnConnectionMigration(r), sendDelta, ackDelay, ewma);
      && r' == UpdateRTT(NewRTTStats(), sendDelta, ackDelay, ewma)
      && r'.minRTT == sendDelta
      && r'.smoothedRTT == r'.latestRTT
      && r'.meanDeviation == Quot(r'.latestRTT, 2)
      && (ackDelay > 0 ==> r'.latestRTT == sendDelta)
      && (ackDelay <= 0 && sendDelta - ackDelay <= MaxDuration ==> r'.latestRTT == sendDelta - ackDelay)
  {
  }

  /**
   Only the smoothed RTT and mean deviation depend on the moving-average step:
   the minimum and latest RTT are the same whatever the step computes, and a
   first sample does not consult it at all.
   */
  lemma EwmaOnlyAffectsSmoothedValues(r: RTTStats, sendDelta: Duration, ackDelay: Duration, e1: Ewma, e2: Ewma)
    ensures UpdateRTT(r, sendDelta, ackDelay, e1).minRTT == UpdateRTT(r, sendDelta, ackDelay, e2).minRTT
    ensures UpdateRTT(r, sendDelta, ackDelay, e1).latestRTT == UpdateRTT(r, sendDelta, ackDelay, e2).latestRTT
    ensures r.smoothedRTT == 0 ==> UpdateRTT(r, sendDelta, ackDelay, e1) == UpdateRTT(r, sendDelta, ackDelay, e2)
  {
  }

  /**
   The smoothed RTT can fall back to zero after two accepted samples: both
   inputs of the averaging step truncate to zero microseconds for a 500 ns
   sample, and any weighted average of zeros is zero. The next sample is then
   treated as a first sample although samples have been taken.
   */
  lemma SubMicrosecondSamplesResetSmoothing(ewma: Ewma)
    requires ewma.average(0, 0) == 0
    ensures var r := UpdateRTT(UpdateRTT(NewRTTStats(), 500, 0, ewma), 500, 0, ewma);
      r.minRTT == 500 && r.latestRTT == 500 && r.smoothedRTT == 0
  {
    var r1 := UpdateRTT(NewRTTStats(), 500, 0, ewma);
    assert r1 == RTTStats(500, 500, 500, 250);
    assert Quot(500, Microsecond) == 0;
  }

  /** Feeding a sequence of observations to the estimator, in order. */
  function Replay(r: RTTStats, samples: seq<RttSample>, ewma: Ewma): RTTStats
    decreases |samples|
  {
    if |samples| == 0 then r
    else Replay(UpdateRTT(r, samples[0].sendDelta, samples[0].ackDelay, ewma), samples[1..], ewma)
  }

  /** The send deltas among `samples` that the estimator accepts. */
  function AcceptedDeltas(samples: seq<RttSample>): set<Duration> {
    set i | 0 <= i < |samples| && IsValidSendDelta(samples[i].sendDelta) :: samples[i].sendDelta
  }

  lemma AcceptedDeltasCons(samples: seq<RttSample>)
    requires |samples| > 0
    ensures AcceptedDeltas(samples) ==
      (if IsValidSendDelta(samples[0].sendDelta) then {samples[0].sendDelta} else {}) + AcceptedDeltas(samples[1..])
  {
    var rest := samples[1..];
    forall d | d in AcceptedDeltas(samples)
      ensures d in (if IsValidSendDelta(samples[0].sendDelta) then {samples[0].sendDelta} else {}) + AcceptedDeltas(rest)
    {
      var i :| 0 <= i < |samples| && IsValidSendDelta(samples[i].sendDelta) && samples[i].sendDelta == d;
      if i > 0 {
        assert rest[i - 1] == samples[i];
      }
    }
    forall d | d in AcceptedDeltas(rest) ensures d in AcceptedDeltas(samples) {
      var j :| 0 <= j < |rest| && IsValidSendDelta(rest[j].sendDelta) && rest[j].sendDelta == d;
      assert samples[j + 1] == rest[j];
    }
  }

  /**
   Across any run of observations, the minimum RTT is the smallest accepted
   send delta seen so far (counting the starting minimum unless it is the
   unset value zero). It is zero only while nothing has been accepted, and it
   never grows.
   */
  lemma {:induction false} MinRTTIsMinimumOfAccepted(r: RTTStats, samples: seq<RttSample>, ewma: Ewma)
    requires r.minRTT >= 0
    ensures var m := Replay(r, samples, ewma).minRTT;
      && m >= 0
      && (m == 0 <==> r.minRTT == 0 && AcceptedDeltas(samples) == {})
      && (m != 0 ==> m == r.minRTT || m in AcceptedDeltas(samples))
      && (r.minRTT != 0 ==> m <= r.minRTT)
      && (forall d | d in AcceptedDeltas(samples) :: m <= d)
    decreases |samples|
  {
    if |samples| > 0 {
      var r1 := UpdateRTT(r, samples[0].sendDelta, samples[0].ackDelay, ewma);
      MinRTTIsMinimumOfAccepted(r1, samples[1..], ewma);
      AcceptedDeltasCons(samples);
    }
  }

  /** From a fresh estimator, or right after a migration, the minimum is the
      smallest accepted send delta, and zero when none was accepted. */
  lemma MinRTTSinceMigration(r: RTTStats, samples: seq<RttSample>, ewma: Ewma)
    ensures var m := Replay(OnConnectionMigration(r), samples, ewma).minRTT;
      && (AcceptedDeltas(samples) == {} <==> m == 0)
      && (AcceptedDeltas(samples) != {} ==>
            m in AcceptedDeltas(samples) && forall d | d in AcceptedDeltas(samples) :: m <= d)
  {
    MinRTTIsMinimumOfAccepted(OnConnectionMigration(r), samples, ewma);
  }
}
