# Congestion-control estimators of quic-go, in Dafny

This project models the two sequential estimators of the `congestion`
package of getlantern/quic-go and proves properties about them.

- **RTT estimator** (`RTTStats`, `internal/congestion/rtt_stats.go`). It keeps
  four durations: minimum RTT, latest RTT, smoothed RTT and mean deviation.
  `UpdateRTT` drops invalid samples. It tracks the minimum from the raw send
  delta, and it subtracts the peer's ack delay only when that cannot push the
  sample below the minimum. The first sample seeds the smoothed values. Later
  samples go through a moving-average step. `OnConnectionMigration` clears all
  four fields. `ExpireSmoothedMetrics` raises the smoothed values to the
  latest observation.
- **Windowed best-three filter** (`windowFilter`). It keeps the best,
  second-best and third-best `(value, time)` samples of a sliding window, in
  max mode or min mode. Its implementation file is not part of this model.
  The model uses the update rule of QUICHE's `WindowedFilter`. Its tests in
  `internal/congestion/windowfilter_test.go` are reproduced case by case.

Files:

- `durations.dfy` (module `Durations`): Go's `time.Duration` arithmetic over
  unbounded integers. It covers 64-bit wrap-around for `-` and `*`, `/`
  truncating toward zero, and `utils.AbsDuration` / `utils.MaxDuration`. Those
  two helpers and `utils.InfDuration` (the largest duration) are not part of
  the Go files this model covers. They are written with their usual definitions.
- `rtt_stats.dfy` (module `RttStats`): the estimator as an immutable record,
  with pure transition functions and lemmas.
- `window_filter.dfy` (module `WindowFilter`): the filter as an immutable
  record, with `Update`, its invariants, and the test helper
  `updateWithIrrelevantSamples`.
- `window_filter_scenarios.dfy` (module `WindowFilterScenarios`): the
  fixtures `mkMinFilter` / `mkMaxFilter` and every test case, as lemmas. Each
  lemma holds for any start time `t0`.

The filter's update rule is the update of the three-slot `WindowedFilter` of
QUICHE (Chromium's QUIC library), and it agrees with every test case:

1. Restart all three slots from the sample when the best value is 0, when the
   sample is at least as good as the best, or when the third slot is more than
   a window old.
2. Otherwise rank the sample into the second and third slots, or into the
   third slot only.
3. If the best has expired, promote the lower slots. Promote once more if the
   promoted best has expired too.
4. Otherwise refresh a second-best equal to the best after a quarter window,
   and a third-best equal to the second after half a window.

"At least as good" means `>=` in max mode and `<=` in min mode.

Three behaviours of the code are worth knowing, because they are easy to
assume otherwise:

- The comments on `MinRTT`, `LatestRTT` and `SmoothedRTT` (rtt_stats.go:33,
  37, 41) and the fallback in `SmoothedOrInitialRTT` (rtt_stats.go:46-54)
  suggest that a zero smoothed RTT means no valid update has happened. In the
  code, two accepted samples of 500 ns each both truncate to 0 µs before the
  averaging step at rtt_stats.go:93. The smoothed RTT then returns to zero,
  and the next sample takes the first-sample branch at rtt_stats.go:87-89
  again (`SubMicrosecondSamplesResetSmoothing`).
- The fields are durations stored as `uint64` (rtt_stats.go:20-25), which
  suggests they never go negative. In the code, a huge negative ack delay
  makes `sample -= ackDelay` (rtt_stats.go:82) overflow 64 bits, so the
  latest RTT becomes negative and falls below the minimum
  (`OverflowingAckDelayExample`). The model keeps the wrap-around.
  `LatestAtLeastMinUnlessOverflow` states "latest RTT at least the minimum"
  as an if-and-only-if with "no overflow".
- The filter's implementation file is not among the modelled files. The
  update rule above is QUICHE's, and it reproduces every fixture and test case
  in windowfilter_test.go. The tests do not fix the order of its steps,
  though: no test sends a sample that ranks into a slot in the same update
  that expires the best. There the model ranks the sample first and then
  promotes, so the sample can reach the best slot
  (`RankedIntoSecondWhenBestExpired`, `RankedIntoThirdWhenBestExpired`).

## Model

| member | source | states |
|---|---|---|
| RttStats.NewRTTStats | internal/congestion/rtt_stats.go:27-59 | A new estimator reports zero from all four accessors, and the 100 ms default from `SmoothedOrInitialRTT`. |
| RttStats.SmoothedOrInitialRTT | internal/congestion/rtt_stats.go:46-54 | Returns the smoothed RTT when it is non-zero, and exactly 100 ms otherwise. The result is positive for a non-negative smoothed RTT. |
| RttStats.UpdateRTT | internal/congestion/rtt_stats.go:61-95 | A non-positive or infinite send delta changes nothing. Otherwise the minimum becomes the send delta when it was unset, and never grows or exceeds the send delta. The latest RTT is the send delta with or without the ack delay taken off. When `sendDelta - ackDelay` does not overflow 64 bits, and the old minimum is non-negative, the ack delay is taken off exactly when that leaves the sample at or above the minimum. With a non-negative ack delay and a non-negative old minimum (every reachable state), 0 < min <= latest <= sendDelta. A first sample sets smoothed = latest and meanDeviation = latest/2, halved with truncation. |
| RttStats.LatestAtLeastMinUnlessOverflow | internal/congestion/rtt_stats.go:77-84 | After a valid update, latest >= min holds if and only if `sendDelta - ackDelay` fits in 64 bits. |
| RttStats.OverflowingAckDelayExample | internal/congestion/rtt_stats.go:80-84 | A concrete input, send delta 1 ns with ack delay -(2^63-1), where the corrected sample wraps to the most negative duration, below the minimum. |
| RttStats.EwmaOnlyAffectsSmoothedValues | internal/congestion/rtt_stats.go:90-94 | The minimum and latest RTT do not depend on the moving-average step. A first sample does not consult the step at all. |
| RttStats.SubMicrosecondSamplesResetSmoothing | internal/congestion/rtt_stats.go:86-93 | Two 500 ns samples leave the smoothed RTT at zero, for any averaging step that maps (0, 0) to 0. |
| RttStats.OnConnectionMigration | internal/congestion/rtt_stats.go:97-103 | All four accessors read zero after a migration. |
| RttStats.MigrationRestartsFirstSample | internal/congestion/rtt_stats.go:85-89 | After a migration, the next valid sample behaves exactly like the first sample of a new estimator, whatever the history was. min = sendDelta and smoothed = latest. A positive ack delay is not subtracted. |
| RttStats.MinRTTIsMinimumOfAccepted | internal/congestion/rtt_stats.go:67-75 | Over any run of samples, the minimum is the smallest accepted send delta, counting a set starting minimum. It is zero only if nothing was ever accepted, and it never grows. |
| RttStats.MinRTTSinceMigration | internal/congestion/rtt_stats.go:71-75 | Since a migration, the minimum is the least accepted send delta, or zero when none was accepted. |
| RttStats.ExpireSmoothedMetrics | internal/congestion/rtt_stats.go:105-114 | The smoothed RTT becomes the larger of the smoothed and latest RTT. The mean deviation becomes the larger of itself and the old smoothed-vs-latest deviation `AbsDuration(smoothed - latest)`, taken with 64-bit wrap-around, for every state. Neither decreases. The minimum and latest RTT are untouched. Non-negative fields stay non-negative. |
| RttStats.ExpireSmoothedMetricsIdempotent | internal/congestion/rtt_stats.go:108-114 | Applying it twice gives the same result as applying it once, for a non-negative mean deviation. |
| WindowFilter.Update | internal/congestion/windowfilter_test.go:131-281 | Every slot after an update is an old slot or the new sample. Every slot is at least as good as the new sample. An empty filter, a new best, or a stale third slot resets all three slots to the sample. Ranked slots stay ranked. |
| WindowFilter.ZeroFilterReadsZero | internal/congestion/windowfilter_test.go:61-67 | A never-updated filter returns 0 from all three getters, in either mode. |
| WindowFilter.UpdateKeepsSlotsInWindow | internal/congestion/windowfilter_test.go:203-281 | With a clock that does not go backwards, each update leaves the slots oldest first and not later than the update. The best, and so every slot, is within one window of it. |
| WindowFilter.FeedKeepsInvariant | internal/congestion/windowfilter_test.go:69-129 | Over any run of samples with non-decreasing times, the slots stay ranked best >= second >= third in the mode's order, stay time-ordered, and stay within one window of the latest sample. |
| WindowFilter.NewBestResetsAll | internal/congestion/windowfilter_test.go:179-201 | A sample at least as good as the best becomes all three slots. |
| WindowFilter.StaleThirdResetsAll | internal/congestion/windowfilter_test.go:257-281 | Any sample becomes all three slots once the third slot is more than a window old. |
| WindowFilter.SampleTakesSecondAndThird | internal/congestion/windowfilter_test.go:155-177 | Within the window, a sample better than the second but not the best takes the second and third slots and leaves the best. |
| WindowFilter.SampleTakesThird | internal/congestion/windowfilter_test.go:131-153 | Within the window, a sample better than the third but not the second replaces only the third slot, unless a quarter-window refresh is due. |
| WindowFilter.QuarterWindowRefreshesSecond | internal/congestion/windowfilter_test.go:315-321 | Within the window, when a sample ranks into no slot, the second-best equals the best, and more than a quarter window has passed since the second was recorded, the second and third slots both become the sample and the best is kept. This is what the first low sample (value 0) after 20000 at t = 4 ms does. |
| WindowFilter.HalfWindowRefreshesThird | internal/congestion/windowfilter_test.go:18-31 | Within the window, when a sample ranks into no slot, no quarter-window refresh is due, the third-best equals the second, and more than half a window has passed since the third was recorded, only the third slot becomes the sample. This is how 40 ms at +75 ms enters the `mkMinFilter` fixture. |
| WindowFilter.ExpiredBestPromotesOnce | internal/congestion/windowfilter_test.go:203-229 | When the sample ranks into no slot (worse than best, second and third), the third slot is inside the window, and only the best has expired: best gets the old second, second gets the old third, and third gets the sample. |
| WindowFilter.ExpiredBestAndSecondPromoteTwice | internal/congestion/windowfilter_test.go:231-255 | When the sample ranks into no slot (worse than best, second and third), the third slot is inside the window, and the best and second have both expired: best gets the old third, and second and third get the sample. |
| WindowFilter.RankedIntoSecondWhenBestExpired | internal/congestion/windowfilter_test.go:203-229 | The other case of the expiry step that ExpireBest exercises, which no test reaches: when the sample ranks into the second slot, the third slot is inside the window, and the best has expired, all three slots become the sample. |
| WindowFilter.RankedIntoThirdWhenBestExpired | internal/congestion/windowfilter_test.go:203-255 | The other case of the expiry steps that ExpireBest and ExpireSecondBest exercise, which no test reaches: when the sample ranks only into the third slot and the best has expired, the slots become (old second, sample, sample). If the second has expired too, all three slots become the sample. |
| WindowFilter.UpdateIsNoOp | internal/congestion/windowfilter_test.go:292-313 | A sample that ranks nowhere changes nothing, provided nothing has expired and no refresh is due. |
| WindowFilter.WorseSampleKeepsBest | internal/congestion/windowfilter_test.go:315-321 | A sample worse than an unexpired best keeps the best, and keeps the third slot inside the window. |
| WindowFilter.IrrelevantSamplesKeepBest | internal/congestion/windowfilter_test.go:12-16 | A burst of `i % maxValue` samples, all worse than an unexpired best, never changes the best. |
| WindowFilter.IrrelevantSamplesNoOp | internal/congestion/windowfilter_test.go:12-16 | If no burst value changes the filter, the whole 1000-sample burst leaves it unchanged. |
| WindowFilter.IrrelevantSamplesUnchanged | internal/congestion/windowfilter_test.go:296-313 | A burst that ranks nowhere, arriving when nothing expires and no refresh is due, leaves the filter exactly as it was. |
| WindowFilterScenarios.MkMinFilter | internal/congestion/windowfilter_test.go:18-31 | After 10..50 ms every 25 ms in min mode with a 99 ms window, the slots are 20 ms @25, 40 ms @75 and 50 ms @100. |
| WindowFilterScenarios.MkMaxFilter | internal/congestion/windowfilter_test.go:33-58 | After 1000..600 every 25 ms in max mode, the slots are 900 @25, 700 @75 and 600 @100. |
| WindowFilterScenarios.MonotonicallyIncreasingMin | internal/congestion/windowfilter_test.go:69-97 | The best is 10 ms through the third follow-up sample, 20 ms at the fourth, and 40 ms at the fifth and sixth. |
| WindowFilterScenarios.MonotonicallyDecreasingMax | internal/congestion/windowfilter_test.go:99-129 | The best is 1000 through the third follow-up sample, 900 at the fourth, and 700 at the fifth and sixth. |
| WindowFilterScenarios.SampleChangesThirdBest | internal/congestion/windowfilter_test.go:131-153 | At +101 ms, a sample just better than the third replaces only the third, in both modes. |
| WindowFilterScenarios.SampleChangesSecondBest | internal/congestion/windowfilter_test.go:155-177 | At +101 ms, a sample just better than the second takes the second and third slots, and the best stays. |
| WindowFilterScenarios.SampleChangesAll | internal/congestion/windowfilter_test.go:179-201 | At +101 ms, a sample better than the best takes all three slots. |
| WindowFilterScenarios.ExpireBest | internal/congestion/windowfilter_test.go:203-229 | At +125 ms: best = old second, second = old third, third = sample. |
| WindowFilterScenarios.ExpireSecondBest | internal/congestion/windowfilter_test.go:231-255 | At +175 ms: best = old third, and second = third = sample. |
| WindowFilterScenarios.ExpireAll | internal/congestion/windowfilter_test.go:257-281 | At +200 ms, any sample takes all three slots. |
| WindowFilterScenarios.ExpireCounterBasedMax | internal/congestion/windowfilter_test.go:283-322 | With a 2 ms window, 50000/40000/30000 at 1/2/3 ms keep the best at 50000 through every low-value burst. 20000 at 4 ms makes the best 40000, and the best stays 40000 through the next burst. |

## Left out

- RttStats.UpdateRTT: the moving-average step at rtt_stats.go:92-93 is 32-bit floating point. It is the uninterpreted parameter `Ewma`, which receives the microsecond-truncated inputs the Go code passes. Its values (weights 1/8 and 1/4) are not stated, so nothing is proved about the smoothed RTT or mean deviation after a non-first sample.
- RttStats.ExpireSmoothedMetricsIdempotent: stated for a non-negative mean deviation. With a negative one and a wrapping deviation, a second call can change it.
- Atomic loads and stores in rtt_stats.go: they give per-field visibility to concurrent readers. The model is sequential. Each access touches one field, so the sequence of values of each field is the same.
- The `now` argument of `UpdateRTT`: quic-go never reads it.
- windowFilter's implementation file is not part of this model. The update rule is QUICHE's `WindowedFilter` update, which agrees with every test. No test sends a sample that ranks into a slot in the same update that expires the best, so the step order on that path (insert, then promote) follows QUICHE and is not fixed by the tests.
- Window filter times are unbounded nanosecond integers. Go's `time.Time.Sub` saturating at the duration limits is not modelled. Sample values are unbounded integers, which the filter only compares.
- The window filter's quarter and half window use `/` truncating toward zero. For the non-negative windows in use this equals a right shift.
- conn.go and send_conn.go: datagram I/O, remote-address locking, and the envelope-size capability probe are plumbing over `net.PacketConn`.
- internal/congestion/interface.go: an interface with no implementation among these files, so it has no behaviour to state.
- packet_handler_map_deadlock_test.go: a goroutine deadlock test about concurrency.
- internal/congestion/bbr/bandwidth_sample.go and internal/congestion/stats.go: plain structs with no operations.
- The exact EWMA arithmetic for a second sample (100 ms then 200 ms): floating point, as above.
