# A verified model of AsyncViz's core logic

AsyncViz watches asyncio programs and serves a dashboard. This project models the parts of it whose correctness is a
matter of logic rather than of plumbing, and proves what they promise. Each Dafny module stands for one component:

- **Asset cache** (`AssetCache.dfy`): the ordered dictionary behind the dashboard's static files, as a class with an
  eviction loop. Two caches of different capacity are compared over whole runs (LRU inclusion), and the dictionary is
  shown to refine a map of time stamps.
- **Configuration** (`PythonText.dfy`, `Decimals.dfy`, `RuntimeOptions.dfy`, `Environment*.dfy`, `Provenance.dfy`,
  `Layers.dfy`, `RuntimeOverrides.dfy`, `RuntimeResolution.dfy`, `ResolutionAgreement.dfy`, `ResolutionInputs.dfy`,
  `OptionsDiff.dfy`): the table of environment variables, the loader, the applier, the exporter, the layered resolver
  with its provenance map, and the difference of two option trees. Options are a map from field to value; what a step
  does to an option and to its provenance is an event, and loading, applying, recording and resolving are runs of
  events.
- **Benchmark statistics** (`BenchmarkStatistics.dfy`): medians, nearest-rank percentiles, the MAD and Tukey filters
  and the aggregate, over integers with exact rational means and truncation towards zero.
- **Browser launch** (`BrowserGuards.dfy`, `LaunchProtocol.dfy`, `LaunchOutcomes.dfy`, `LaunchResets.dfy`,
  `BrowserLauncher.dfy`, `Readiness.dfy`): the guards and counters as classes, every interleaving of launch calls as a
  state machine with one place per call, what decides each outcome, the resets that keep opens apart, the launcher's
  methods as runs of that machine, and the polling loop with its termination measure.
- **Frontend publishing** (`AssetManifest.dfy`, `AssetFiles.dfy`, `AssetPaths.dfy`, `AssetValidation.dfy`,
  `AssetPublisher.dfy`): wipe, copy, collect, write the manifest, validate, on a directory that is a map from path to
  bytes.
- **Sample workload** (`SampleRuntime.dfy`): producers and consumers on one bounded queue, stop, cancellation at any
  await, drain; one step is what one task does between two awaits.
- **Stress scoring** (`Stress.dfy`) and the **synthetic recording** (`RecordingWorkload.dfy`).

`Prelude.dfy` holds result types, sequence lemmas, arithmetic and sorting used by the others.

The clock, the detector's verdict, the backend's success, hashes, content types, path expansion, path spelling and
the text of a list or an object are parameters. Floats in statistics and times are reals; floats in options are exact
decimals with Python's positional text. JSON is a codec that gives back what was written.

## What the code does where its own text says otherwise

- The table's comment says its order matters only for diagnostics. It matters exactly for BROWSER and NO_BROWSER:
  `CoreTable.CoreOrderIndependence` and `EnvironmentRoundTrip.OrderMatters` are the two halves.
- The exporter's docstring says its result reproduces the options. `EnvironmentRoundTrip.RoundTripExact` says for
  which values it does: not for policy `always` (it comes back as `never`), not for lag thresholds in milliseconds
  (they come back a thousand times as large), not for an empty include list (it comes back as `None`), and not for
  blank hosts, unclean list elements, paths that expansion changes or values over 16 KiB.
- The resolver's provenance is meant to name what supplied a value. `ProvenanceAgreement.AgreementExact` gives the two
  exceptions.
- A secret variable is recorded as a placeholder, but a secret output path still shows its text under
  `recording.enabled`: `EnvironmentRecords.SecretsHidden` and `EnvironmentRecords.EnabledShowsPath`. No row of the
  table is secret.
- The session guard admits a session once between resets, but a reset between one call's admission and its open lets
  two opens follow each other without a reset between them: `LaunchProtocol.OpensWithoutResetBetween`. The exact
  condition is on each reset when it is taken: no call of a session it covers is past the guard and can still come to
  call `backend.open`; a call already inside it does no harm. If all resets meet it, opens of a session have a reset
  between them (`LaunchResets.SafeResetsSeparateOpens`); any reset that does not meet it has a continuation in which
  they have none (`LaunchResets.UnsafeResetSplits`). In every run a reset lies between two opens or between one of
  them and its admission (`LaunchResets.OpensMeetReset`).
- `attempted = opened + failed + in progress` needs a fourth class, calls cut short by an exception after the attempt
  was recorded: `LaunchProtocol.PlainAttemptsExact` gives the exact condition on the run and
  `LaunchProtocol.AttemptCutShort` a run that breaks the equation.
- A slot leaks when a thread fails to start after `acquire`: `LaunchProtocol.SlotLeaks` is such a run,
  `LaunchProtocol.SlotsReturnedExact` the exact condition, and `LaunchProtocol.LeaksThrottleForGood` the consequence.
- The validator passes a directory without a manifest if it has an index: it only warns.
- `publish(skip_clean=True)` on a published directory lists the old `build.json` and then overwrites it, so it always
  fails its own validation (`AssetPublishing.RepublishFails`). When a publish validates is
  `AssetPublishing.PublishSucceedsExactly`, where the bundle id is new (`asyncviz/dashboard/assets/asset_manifest.py`
  draws it) and the hash has no collisions; `AssetPublishing.PublishExact` needs neither.

## Model

| member | source | states |
|---|---|---|
| `AssetCaching.AssetCache.Create` | asyncviz/dashboard/assets/asset_cache.py:37-43 | A capacity below one is the source's ValueError; any other gives an empty, well-formed cache with the given limits |
| `AssetCaching.AssetCache.Get` | asyncviz/dashboard/assets/asset_cache.py:45-50 | A hit returns the stored asset and moves it to the most recent end; a miss changes nothing |
| `AssetCaching.AssetCache.Put` | asyncviz/dashboard/assets/asset_cache.py:52-67 | An oversized or unreadable payload changes nothing; another replaces its key, becomes most recent, and evicts the oldest entries down to the capacity |
| `AssetCaching.AssetCache.Invalidate` | asyncviz/dashboard/assets/asset_cache.py:69-74 | Without a key everything goes, with a key exactly that entry |
| `AssetCaching.ApplyKeeps` | asyncviz/dashboard/assets/asset_cache.py:37-74 | Every call keeps keys distinct, payloads within the cap and the size within the capacity |
| `AssetCaching.LruInclusion` | asyncviz/dashboard/assets/asset_cache.py:45-74 | LRU inclusion over any run of calls: the smaller cache's entries stay a subsequence of the larger's, and each of its hits is the larger's hit with the same payload |
| `AssetCaching.LruInclusionFromEmpty` | asyncviz/dashboard/assets/asset_cache.py:45-74 | The same for two caches that start empty, whatever the calls |
| `AssetCaching.StepKeepsInclusion` | asyncviz/dashboard/assets/asset_cache.py:45-74 | One call keeps the inclusion and the gap in size between two caches of different capacity |
| `AssetCaching.EvictionKeepsInclusion` | asyncviz/dashboard/assets/asset_cache.py:65-66 | Evicting from both caches keeps the inclusion, although the larger may evict what the smaller does not hold |
| `AssetCaching.OldestIsFirst` | asyncviz/dashboard/assets/asset_cache.py:65-66 | In a map stamped in the cache's order the strictly oldest key is the cache's first entry |
| `AssetCaching.StepRefinesStamps` | asyncviz/dashboard/assets/asset_cache.py:45-74 | One call of the cache does, and answers, what a map that evicts its oldest stamp does and answers |
| `AssetCaching.StampedRunExists` | asyncviz/dashboard/assets/asset_cache.py:45-74 | Every list of calls has a run of the stamped map, so the refinement is never empty |
| `AssetCaching.LruRefinesTimestamps` | asyncviz/dashboard/assets/asset_cache.py:45-74 | Over whole runs the dictionary order refines a map of time stamps: every answer is the stamped map's, and order in the dictionary is order of last use |
| `BenchmarkStatistics.ApplyOutlierPolicy` | asyncviz/benchmarks/benchmark_statistics.py:65-98 | Kept and dropped samples add up to the input, whatever the policy |
| `BenchmarkStatistics.MedianBounds` | asyncviz/benchmarks/benchmark_statistics.py:48-55 | The floored even median lies between the two middle samples |
| `BenchmarkStatistics.HalvesAtMedian` | asyncviz/benchmarks/benchmark_statistics.py:48-55 | Half of any list is at most its floored median, and half at least |
| `BenchmarkStatistics.MedianHolds` | asyncviz/benchmarks/benchmark_statistics.py:48-55 | Changing fewer than half of the samples keeps the median between two samples that were not changed, whatever the others become |
| `BenchmarkStatistics.MedianBreakdown` | asyncviz/benchmarks/benchmark_statistics.py:48-55 | The breakdown point of the median: it stays between unchanged samples under every change of up to k of n samples exactly when 2 * k < n |
| `BenchmarkStatistics.MeanBounds` | asyncviz/benchmarks/benchmark_statistics.py:131 | The mean lies in every range that holds the samples |
| `BenchmarkStatistics.VarianceBound` | asyncviz/benchmarks/benchmark_statistics.py:132 | Popoviciu's inequality over the population variance of integers in a range |
| `BenchmarkStatistics.FloorSqrtTruncatesRoot` | asyncviz/benchmarks/benchmark_statistics.py:132 | The integer root of the floored variance is int() of its real square root |
| `BenchmarkStatistics.AggregateBounds` | asyncviz/benchmarks/benchmark_statistics.py:101-149 | min <= median <= p95 <= p99 <= max, min <= mean <= max, 2 * stdev <= max - min, and count plus excluded is the input length |
| `BenchmarkStatistics.AggregateMean` | asyncviz/benchmarks/benchmark_statistics.py:130-132 | mean * count and the sum of the kept samples differ by less than the count, the mean being the smaller in size |
| `BenchmarkStatistics.AggregateDeviation` | asyncviz/benchmarks/benchmark_statistics.py:130-132 | The deviation r of n kept samples is the greatest with (r * n) squared at most n times the sum of squares less the square of the sum |
| `BenchmarkStatistics.AggregatePercentiles` | asyncviz/benchmarks/benchmark_statistics.py:30-45 | p95 and p99 are kept samples such that at least that share of the kept samples is no greater and a smaller share is less |
| `BenchmarkStatistics.AggregateExtremes` | asyncviz/benchmarks/benchmark_statistics.py:101-149 | min and max are the least and the greatest kept sample |
| `BenchmarkStatistics.AggregateVariation` | asyncviz/benchmarks/benchmark_statistics.py:133 | variation * mean is the deviation for a positive mean, and zero otherwise |
| `BenchmarkStatistics.AggregateAllocations` | asyncviz/benchmarks/benchmark_statistics.py:134-135 | The allocations are summed over all samples, also the excluded ones, and their greatest is reported |
| `BenchmarkStatistics.MadExact` | asyncviz/benchmarks/benchmark_statistics.py:65-89 | What the MAD filter keeps: the samples whose distance from the median is within the deviations allowed, or those on the median when the deviation is zero |
| `BenchmarkStatistics.IqrExact` | asyncviz/benchmarks/benchmark_statistics.py:90-98 | What Tukey's fence keeps: the samples between the truncated fences around the quartiles |
| `BenchmarkStatistics.AggregateNeverEmpty` | asyncviz/benchmarks/benchmark_statistics.py:101-149 | An aggregate of some samples counts at least half of them with a MAD threshold of at least one, a majority with a fence factor of at least zero, and all of them without a policy |
| `BenchmarkStatistics.AggregatePermutation` | asyncviz/benchmarks/benchmark_statistics.py:101-149 | The whole aggregate depends only on the multiset of samples |
| `BenchmarkStatistics.PolicyPermutation` | asyncviz/benchmarks/benchmark_statistics.py:65-98 | The filters keep the same multiset whatever the order of the input |
| `BenchmarkStatistics.MadKeepsHalf` | asyncviz/benchmarks/benchmark_statistics.py:58-89 | With a threshold of at least one, the MAD filter keeps half of any list, also with a zero deviation and with floored medians |
| `BenchmarkStatistics.MadBreakdown` | asyncviz/benchmarks/benchmark_statistics.py:65-98 | The MAD filter keeps half of every list exactly when its threshold is at least one |
| `BenchmarkStatistics.MadDropsAll` | asyncviz/benchmarks/benchmark_statistics.py:65-98 | Below one, the samples 0 and 2 are both dropped |
| `BenchmarkStatistics.IqrKeepsMajority` | asyncviz/benchmarks/benchmark_statistics.py:90-98 | With a factor of at least zero, Tukey's fence keeps more than half of any list in spite of truncation |
| `BenchmarkStatistics.IqrBreakdown` | asyncviz/benchmarks/benchmark_statistics.py:65-98 | Tukey's fence keeps a majority of every non-empty list exactly when its factor is not negative |
| `BenchmarkStatistics.IqrDropsAll` | asyncviz/benchmarks/benchmark_statistics.py:65-98 | With a negative factor, two samples far enough apart are both dropped |
| `BenchmarkStatistics.FilterMonotone` | asyncviz/benchmarks/benchmark_statistics.py:65-98 | Raising either tolerance never drops a sample that was kept |
| `RecordingWorkload.BuildSyntheticRecording` | asyncviz/benchmarks/synthetic/recording_workload.py:38-121 | Every chunk, the snapshots, the totals and the stop time of a recording, for any counts including zero and negative ones |
| `RecordingWorkload.ChunksPartition` | asyncviz/benchmarks/synthetic/recording_workload.py:53-75 | The sequence numbers 1 to chunks * f lie in exactly one chunk each, and no other number in any |
| `RecordingWorkload.SnapshotIndices` | asyncviz/benchmarks/synthetic/recording_workload.py:77-103 | Snapshots are numbered from one without gaps and sit at exactly the chunk ends the period divides; a later one has the greater sequence number exactly when chunks have frames |
| `RecordingWorkload.SnapshotPeriod` | asyncviz/benchmarks/synthetic/recording_workload.py:77-103 | A chunk end is due for a snapshot exactly when its index is a multiple of s / gcd(f, s) |
| `RecordingWorkload.Bezout` | asyncviz/benchmarks/synthetic/recording_workload.py:77-103 | The greatest common divisor is an integer combination of its arguments and divides both |
| `RecordingWorkload.SnapshotCount` | asyncviz/benchmarks/synthetic/recording_workload.py:77-116 | The number of snapshots in closed form: chunks / (s / gcd(f, s)) |
| `StressOutcomes.ScoreBounds` | asyncviz/stress/stress_thresholds.py:134-161 | The score lies in [0, 1] and is 1 exactly when nothing failed, overloaded, escalated or disconnected |
| `StressOutcomes.ScoreMonotone` | asyncviz/stress/stress_thresholds.py:134-161 | More trouble of any kind, or fewer completions, never raises the score |
| `StressOutcomes.PassedIffWithinLimits` | asyncviz/stress/stress_thresholds.py:19-131 | A scenario passes exactly when it did not error and met every configured limit, and no violation lacks a metric |
| `StressOutcomes.ViolationsListed` | asyncviz/stress/stress_thresholds.py:19-111 | The violations are exactly the configured limits that are exceeded, each with what was observed |
| `StressOutcomes.OutcomeCounts` | asyncviz/stress/stress_runner.py:224-233 | Each counter of an outcome is the number of signals of its kind |
| `StressOutcomes.ObservedExactly` | asyncviz/stress/stress_runner.py:232-241 | The dropped frames and the last backlog peak that are held against the limits |
| `StressOutcomes.RatesExactly` | asyncviz/stress/stress_runner.py:242-254 | The frame rate times the duration is the number of frames, and there is none without frames or time; the other figures are held against the limits as they are |
| `StressOutcomes.VerdictExactly` | asyncviz/stress/stress_runner.py:254-268 | Errored exactly when the scenario timed out or raised, passed exactly within the limits, and otherwise warned or failed as asked |
| `StressOutcomes.SingleLosses` | asyncviz/stress/stress_thresholds.py:134-161 | What each kind of trouble costs by itself, up to its cap |
| `StressOutcomes.LossesAddUp` | asyncviz/stress/stress_thresholds.py:134-161 | The losses add up, to a whole at most |
| `StressOutcomes.CheckOutcome` | asyncviz/stress/stress_integrity.py:34-83 | Each kind of finding is reported exactly when its invariant is broken, and none exactly for a clean outcome |
| `StressOutcomes.RunnerOutcomesAreClean` | asyncviz/stress/stress_runner.py:122-279 | Whatever the signals, thresholds and ending, the outcome the runner builds is clean |
| `Readiness.Wait` | asyncviz/cli/browser/browser_readiness.py:69-111 | The attempt at which it stops is the first that succeeds or passes the deadline; within ceil(timeout / interval) + 1 attempts; a timeout means elapsed >= timeout; and it is prompt: elapsed is at most the probes, the oversleeps and an interval between attempts, and with exact sleeps and instant probes exactly the lesser of the timeout and attempts - 1 intervals |
| `Readiness.EndWithin` | asyncviz/cli/browser/browser_readiness.py:98-111 | Attempt k ends after its probes and oversleeps, and at most k - 1 intervals more |
| `Readiness.StartSharp` | asyncviz/cli/browser/browser_readiness.py:98-111 | With exact sleeps and instant probes attempt k comes k - 1 intervals in, or at the deadline |
| `Readiness.StartLowerBound` | asyncviz/cli/browser/browser_readiness.py:69-111 | Until the deadline, each attempt starts at least one interval after the one before |
| `Readiness.UnstoppedAttempt` | asyncviz/cli/browser/browser_readiness.py:69-111 | An attempt that does not stop leaves room for another within the bound: the loop's termination measure |
| `Readiness.StartUpperBound` | asyncviz/cli/browser/browser_readiness.py:69-111 | With exact sleeps no attempt starts after the deadline |
| `Readiness.ElapsedNonNegative` | asyncviz/cli/browser/browser_readiness.py:69-111 | An attempt never ends before it starts, so the clamp of the elapsed time at zero never acts |
| `Readiness.ZeroIntervalSpins` | asyncviz/cli/browser/browser_readiness.py:98-111 | With a zero interval and probes that fail at once no attempt is ever the last |
| `BrowserPolicy.CaseIgnored` | asyncviz/cli/browser/browser_policy.py:46-59 | Policy names are read without regard to case |
| `BrowserPolicy.NamesExactly` | asyncviz/cli/browser/browser_policy.py:46-59 | A text is read as a policy exactly when it is the policy's name up to case |
| `BrowserGuards.BackpressureGuard.Create` | asyncviz/cli/browser/browser_backpressure.py:30-35 | A cap below one is the source's ValueError |
| `BrowserGuards.BackpressureGuard.Acquire` | asyncviz/cli/browser/browser_backpressure.py:37-46 | A full guard refuses and counts the denial; another takes a slot and raises the peak |
| `BrowserGuards.BackpressureGuard.Release` | asyncviz/cli/browser/browser_backpressure.py:48-51 | A slot is given back, not below zero |
| `BrowserGuards.SessionGuard.ShouldOpen` | asyncviz/cli/browser/browser_sessions.py:25-38 | No session id is always admitted; another exactly once until it is reset |
| `BrowserGuards.SessionGuard.Reset` | asyncviz/cli/browser/browser_sessions.py:40-46 | One session, or all of them, may be admitted again |
| `BrowserGuards.BrowserMetrics.RecordAttempt` | asyncviz/cli/browser/browser_metrics.py:42-43 | Attempts count up, the other counters stay |
| `BrowserGuards.BrowserMetrics.RecordStatus` | asyncviz/cli/browser/browser_metrics.py:45-58 | Each result counts up its own counter and no other |
| `BrowserGuards.BrowserMetrics.RecordPeakInFlight` | asyncviz/cli/browser/browser_metrics.py:68-70 | The reported peak never goes down |
| `LaunchProtocol.InvStep` | asyncviz/cli/browser/browser_launcher.py:132-257 | Every step of every interleaving of calls, resets and thread failures keeps the invariant |
| `LaunchProtocol.ReachableInv` | asyncviz/cli/browser/browser_launcher.py:132-257 | The invariant holds in every reachable state |
| `LaunchProtocol.SlotSafety` | asyncviz/cli/browser/browser_backpressure.py:37-51 | in_flight is the number of calls holding a slot, and in_flight <= peak <= max_concurrent, in every interleaving |
| `LaunchProtocol.ReleaseNeverClamps` | asyncviz/cli/browser/browser_backpressure.py:48-51 | Every release finds a slot to give back: the clamp at zero never fires |
| `LaunchProtocol.ThrottledIffFull` | asyncviz/cli/browser/browser_launcher.py:175-178 | A call is throttled exactly when the cap is full of calls holding slots |
| `LaunchOutcomes.SkippedExactly` | asyncviz/cli/browser/browser_launcher.py:217-230 | In every run a decided call is skipped exactly when it is opted out, its effective policy is never, or that is auto and no browser is available |
| `LaunchOutcomes.UnwantedNeverOpens` | asyncviz/cli/browser/browser_policy.py:62-108 | Such a call never holds a slot, never reaches the backend and logs no open |
| `LaunchOutcomes.AlwaysNeverSkipped` | asyncviz/cli/browser/browser_policy.py:62-108 | Under always, without the opt-out, no call is ever skipped |
| `LaunchOutcomes.DedupedExactly` | asyncviz/cli/browser/browser_sessions.py:25-46 | At the guard a call is deduped exactly when its session was admitted and not reset since |
| `LaunchOutcomes.AnswerDecides` | asyncviz/cli/browser/browser_launcher.py:276-309 | Once the backend has answered, a call that finishes is opened after a yes and failed after a no, in every continuation |
| `LaunchProtocol.AttemptsConserved` | asyncviz/cli/browser/browser_launcher.py:259-309 | attempted = opened + failed + in progress + cut short by an exception |
| `LaunchProtocol.PlainAttemptsExact` | asyncviz/cli/browser/browser_launcher.py:259-309 | attempted = opened + failed + in progress holds after a run exactly when no exception of the run came after its call's attempt was recorded |
| `LaunchProtocol.AttemptCutShort` | asyncviz/cli/browser/browser_launcher.py:245-268 | A run that ends with one attempt, no result and no call in progress |
| `LaunchProtocol.CallsConserved` | asyncviz/cli/browser/browser_launcher.py:140-257 | Every call is in exactly one of the counted or uncounted classes, so the counters and the classes add up to all calls |
| `LaunchProtocol.SessionOpensBounded` | asyncviz/cli/browser/browser_sessions.py:25-46 | A session reaches the backend at most once more than it was reset, throttled and failed calls included |
| `LaunchProtocol.AdmissionsSeparated` | asyncviz/cli/browser/browser_sessions.py:25-38 | Between two admissions of one session there is a reset of it |
| `LaunchProtocol.OpensSeparated` | asyncviz/cli/browser/browser_launcher.py:170-196 | Two opens of one session belong to different calls whose admissions a reset separates, in every run |
| `LaunchProtocol.OpensWithoutResetBetween` | asyncviz/cli/browser/browser_launcher.py:170-196 | A run in which the reset lies before both opens: opens themselves need not have a reset between them |
| `LaunchResets.OpensMeetReset` | asyncviz/cli/browser/browser_launcher.py:170-196 | In every run, two opens of one session have a reset of it between them or between one of them and its admission |
| `LaunchResets.SafeResetsSeparateOpens` | asyncviz/cli/browser/browser_sessions.py:25-46 | When no reset is taken while a call of a session it covers is past the guard and can still come to call backend.open, any two of these calls for one session have a reset of it between them |
| `LaunchResets.UnsafeResetSplits` | asyncviz/cli/browser/browser_sessions.py:40-46 | From any reachable state in which such a call exists, the reset has a continuation in which backend.open is called twice for a covered session with no reset of it between the calls |
| `LaunchProtocol.SlotsReturned` | asyncviz/cli/browser/browser_launcher.py:187-203 | When every call has finished, the slots still taken are those of calls whose thread failed to start |
| `LaunchProtocol.SlotsReturnedExact` | asyncviz/cli/browser/browser_launcher.py:187-203 | When every call of a run has finished, all slots are back exactly when no thread failed to start in the run |
| `LaunchProtocol.SlotLeaks` | asyncviz/cli/browser/browser_launcher.py:175-204 | A run that ends with every call finished and the only slot still taken |
| `LaunchProtocol.LeaksNeverShrink` | asyncviz/cli/browser/browser_launcher.py:175-204 | A slot lost to a thread that failed to start stays lost in every continuation |
| `LaunchProtocol.LeaksThrottleForGood` | asyncviz/cli/browser/browser_launcher.py:175-204 | Once as many threads have failed to start as there are slots, every later call that reaches the slot is throttled |
| `LaunchProtocol.AllDone` | asyncviz/cli/browser/browser_launcher.py:132-257 | When every call has returned, no slot is taken, every attempt has a result, and the five results add up to the calls |
| `LaunchProtocol.NeverStuck` | asyncviz/cli/browser/browser_launcher.py:132-257 | Until it has finished, a call has an enabled step |
| `LaunchProtocol.CallsTerminate` | asyncviz/cli/browser/browser_launcher.py:132-257 | No call takes more than eleven steps, whatever the others do |
| `BrowserLaunching.BrowserLauncher.Launch` | asyncviz/cli/browser/browser_launcher.py:217-257 | The synchronous call runs the protocol to its end: skipped exactly when opt-out, policy or detector say so, otherwise refused by a known session or a full guard, otherwise with the backend's answer, after a prompt wait; it raises exactly when it was not refused and the wait or the backend was cut short, and the slot is back either way |
| `BrowserLaunching.BrowserLauncher.LaunchAsync` | asyncviz/cli/browser/browser_launcher.py:140-204 | The calling thread runs the protocol up to the refusal or the started worker; skipped exactly when opt-out, policy or detector say so; a provisional result means a slot is held, and comes exactly when nothing refuses the call |
| `BrowserLaunching.BrowserLauncher.Worker` | asyncviz/cli/browser/browser_launcher.py:187-196 | The worker waits, opens, records the peak and releases, as the protocol's remaining steps, with the status of the backend's answer |
| `BrowserLaunching.BrowserLauncher.Decide` | asyncviz/cli/browser/browser_launcher.py:212-243 | Opt-out or policy, a session already known, a full guard, in this order, decide the refusal; the first of them exactly by the call's own preferences, policy and detector |
| `BrowserLaunching.BrowserLauncher.Await` | asyncviz/cli/browser/browser_launcher.py:270-274 | The wait fails exactly for a negative interval after a first failed probe; it ends at the first probe that answers or after the timeout, with no more than an interval between probes, or after the delay when there is no readiness URL |
| `BrowserLaunching.BrowserLauncher.OpenBackend` | asyncviz/cli/browser/browser_launcher.py:276-309 | The result recorded is the backend's answer, an exception of it is a failure, and only an interrupt leaves without a result |
| `BrowserLaunching.BrowserLauncher.WaitThenOpen` | asyncviz/cli/browser/browser_launcher.py:259-309 | One attempt is recorded before the wait and one result after the backend; a timeout does not keep the backend from being called, an exception of the backend is a failure, and only the wait's own exception or an interrupt leaves without a result |
| `SampleRuntime.InvStep` | sample_runtime.py:139-241 | Every step of every producer, consumer, signal, cancellation and drain keeps the invariant |
| `SampleRuntime.ReachableInv` | sample_runtime.py:372-449 | The invariant holds in every reachable state |
| `SampleRuntime.QueueAccounting` | sample_runtime.py:197-241 | unfinished = queued + being processed, task_done is never called at zero, and the queue never exceeds its size |
| `SampleRuntime.FirstInFirstOut` | sample_runtime.py:139-241 | What was taken, then drained, then is queued, is what entered, in order |
| `SampleRuntime.SequenceNumbersDistinct` | sample_runtime.py:139-194 | No two items that entered the queue carry the same sequence number |
| `SampleRuntime.DroppedNeverEntered` | sample_runtime.py:139-194 | An item lost to a cancelled put never entered the queue |
| `SampleRuntime.ProducerOrderKept` | sample_runtime.py:139-194 | Each producer's items are consumed in increasing sequence |
| `SampleRuntime.ItemsConserved` | sample_runtime.py:139-194 | counter = consumed + drained + queued + held by suspended puts + dropped, with at most one drop for each cancelled producer |
| `SampleRuntime.ShutdownIsClean` | sample_runtime.py:358-449 | After cancel-all and drain the queue is empty, nothing is unfinished, and every item produced was consumed, drained or dropped, once |
| `SampleRuntime.CancellationStep` | sample_runtime.py:358-369 | While tasks are cancelled nothing is produced or consumed, and each step ends one task or the shutdown |
| `SampleRuntime.NoTaskEndsEarly` | sample_runtime.py:160-241 | Until the stop flag is set every producer and consumer is still there |
| `SampleRuntime.WorkNeverStuck` | sample_runtime.py:160-241 | Until the stop flag is set every consumer can step, and every producer except exactly one that waits to put into a full queue |
| `SampleRuntime.FullQueueDrains` | sample_runtime.py:162-241 | A full queue does not deadlock: one step of any consumer makes room, and every waiting producer can then finish its put |
| `SampleRuntime.CancellationNeverStuck` | sample_runtime.py:358-369 | Until it has finished, the shutdown has an enabled step |
| `SampleRuntime.ShutdownTerminates` | sample_runtime.py:358-449 | The shutdown takes one step for each live task and the drain, in any order, and is finished exactly then |
| `SampleRuntime.BurstFills` | sample_runtime.py:162-194 | A burst stops early only at a full queue: it produces all its items if there is room, and one more than the room otherwise |
| `SampleRuntime.ProducedExactly` | sample_runtime.py:158-194 | Until the stop flag is set, a producer that has come to tick t has made t + (t / 8) * (burst_size - 1) items, less what a waiting burst still has to start, and the counter is the sum over the producers |
| `SampleRuntime.NothingMoreProduced` | sample_runtime.py:160-170 | In every run from the stop flag on the counter stands still |
| `SampleRuntime.StoppedStep` | sample_runtime.py:160-241 | With the flag set a producer that wakes stops, a put under way goes in and its burst ends, and a consumer that comes back to its loop returns |
| `SampleRuntime.PhaseStep` | sample_runtime.py:372-449 | What sets the flag, what starts the cancellations and what ends the shutdown, and nothing else does |
| `SampleRuntime.PutBurst` | sample_runtime.py:162-194 | The producer's burst loop up to the put that suspends |
| `SampleRuntime.DrainEmpties` | sample_runtime.py:436-449 | Draining takes the queued items in order and acknowledges each once |
| `SampleRuntime.DrainAll` | sample_runtime.py:436-449 | The drain loop empties the queue, keeps the order, and acknowledges every item |
| `PythonText.SplitJoin` | asyncviz/configuration/environment/environment_serialization.py:113-115 | Splitting undoes joining for parts without the separator |
| `PythonText.JoinSplit` | asyncviz/configuration/environment/environment_parser.py:154-163 | Joining undoes splitting, and no part holds the separator |
| `PythonText.StripProps` | asyncviz/configuration/environment/environment_parser.py:154-163 | A stripped text is trimmed, made of characters of the original, and empty only for a text of spaces |
| `Decimals.DecimalRoundTrip` | asyncviz/configuration/environment/environment_parser.py:59-65 | Reading a printed number gives the number back |
| `Decimals.TimesThousandFixed` | asyncviz/configuration/environment/environment_parser.py:103-116 | A thousand times a number is that number only for zero |
| `EnvironmentParsing.IntRoundTrip` | asyncviz/configuration/environment/environment_parser.py:50-56 | A printed integer reads back as itself and is never blank |
| `EnvironmentParsing.SecondsRoundTrip` | asyncviz/configuration/environment/environment_parser.py:75-100 | A printed duration carries no unit and reads back, as seconds, as the number printed |
| `EnvironmentParsing.MillisecondsScaled` | asyncviz/configuration/environment/environment_parser.py:103-116 | Read as milliseconds it is a thousand times the number printed |
| `EnvironmentParsing.UnitsScale` | asyncviz/configuration/environment/environment_parser.py:25-88 | With a unit a printed number is itself in seconds, a thousandth in milliseconds, sixty times in minutes, sixty times sixty in hours |
| `EnvironmentParsing.MillisecondsWithUnit` | asyncviz/configuration/environment/environment_parser.py:103-116 | Printed with its unit, a number of milliseconds would come back as itself |
| `EnvironmentParsing.PartsAreClean` | asyncviz/configuration/environment/environment_parser.py:154-163 | Whatever is parsed, the parts of a list are trimmed, not empty and free of the separator |
| `EnvironmentParsing.ListRoundTrip` | asyncviz/configuration/environment/environment_parser.py:154-163 | A printed list reads back as itself exactly when its elements are clean |
| `EnvironmentReading.CaseIgnored` | asyncviz/configuration/environment/environment_parser.py:34-47 | Texts that differ only in case are read as the same truth value and the same choice |
| `EnvironmentReading.PaddingIgnored` | asyncviz/configuration/environment/environment_parser.py:34-100 | Spaces around a number, a duration, a truth value or a choice do not change how it is read |
| `EnvironmentReading.BoolWords` | asyncviz/configuration/environment/environment_parser.py:34-47 | The six words for true and the six for false, up to case and space; nothing else is either |
| `EnvironmentReading.SignsRead` | asyncviz/configuration/environment/environment_parser.py:50-56 | A sign in front of digits makes the number negative or is dropped |
| `EnvironmentReading.UnderscoreDropped` | asyncviz/configuration/environment/environment_parser.py:50-56 | A single underscore between digits is dropped |
| `EnvironmentReading.UnderscoreInFraction` | asyncviz/configuration/environment/environment_parser.py:59-65 | Nor does it count as a decimal place |
| `EnvironmentReading.TextsKept` | asyncviz/configuration/environment/environment_parser.py:68-126 | A text or a path is kept with its own spaces, and only a blank one is none |
| `EnvironmentReading.PlainExactly` | asyncviz/configuration/environment/environment_parser.py:25-88 | Before a unit exactly a sign, digits, and perhaps a point and digits are read |
| `EnvironmentReading.ListPartsExactly` | asyncviz/configuration/environment/environment_parser.py:154-163 | A list is its stripped parts that are not empty, also of a blank text |
| `EnvironmentReading.SpacedLists` | asyncviz/configuration/environment/environment_parser.py:154-163 | Spaces around the separators of a list do not change it |
| `EnvironmentReading.Utf8Exactly` | asyncviz/configuration/environment/environment_loader.py:90-102 | The size held against the cap: one byte for each character and one more from each of three places on |
| `EnvironmentLoading.PickValue` | asyncviz/configuration/environment/environment_loader.py:130-149 | The first set name wins, canonical before aliases; blank values count as unset |
| `EnvironmentLoading.Load` | asyncviz/configuration/environment/environment_loader.py:76-126 | Every row is parsed, skipped or failed, each counted once; oversized and unparseable values are diagnosed; results keep the order of the table |
| `EnvironmentApplying.ApplyOne` | asyncviz/configuration/environment/environment_resolution.py:88-179 | The change one variable makes to options and provenance; a false NO_BROWSER makes none; an output path also turns recording on |
| `EnvironmentApplying.ApplyLoaderResult` | asyncviz/configuration/environment/environment_resolution.py:40-66 | Successes are folded in order, failures change nothing, and the applied count is the number of variables that changed something |
| `EnvironmentOrder.LoadAndApply` | asyncviz/configuration/environment/environment_resolution.py:69-82 | Load and apply in one call: what the rows of the table do, one after the other |
| `EnvironmentOrder.OrderIndependence` | asyncviz/configuration/environment/environment_resolution.py:40-66 | Two tables that agree on the order of the rows touching each option give the same options and provenance in every environment |
| `EnvironmentOrder.AppliedCountOrderFree` | asyncviz/configuration/environment/environment_resolution.py:51-66 | The applied count does not depend on the order of the table |
| `EnvironmentOrder.UnreadVariablesChangeNothing` | asyncviz/configuration/environment/environment_loader.py:85-117 | Absent, blank, oversized and unparseable variables leave options and provenance as they were |
| `EnvironmentOrder.TouchingRowsDecide` | asyncviz/configuration/environment/environment_resolution.py:88-160 | Rows that do not touch an option may be left out of the table |
| `CoreTable.CoreIsCoreLike` | asyncviz/configuration/environment/environment_mapping.py:67-233 | The 27 rows: distinct names without aliases, their kinds and choices, one row for each option except the policy |
| `CoreTable.TouchingRows` | asyncviz/configuration/environment/environment_mapping.py:67-233 | Which rows touch an option: one, none, or BROWSER and then NO_BROWSER |
| `CoreTable.CoreOrderIndependence` | asyncviz/configuration/environment/environment_mapping.py:67-68 | Any order of the table that keeps BROWSER before NO_BROWSER gives the same options, provenance and count in every environment |
| `EnvironmentSerialization.ExportOptionsToEnv` | asyncviz/configuration/environment/environment_serialization.py:58-82 | Exactly the rows whose option is not secret and not at its default are exported |
| `EnvironmentSerialization.ExportAt` | asyncviz/configuration/environment/environment_serialization.py:73-82 | With distinct names each variable holds what its own row exports |
| `EnvironmentRoundTrip.RoundTripExact` | asyncviz/configuration/environment/environment_serialization.py:58-119 | For every well-typed option tree and every option of the table: the reloaded value is the exported one exactly when the value survives |
| `EnvironmentRoundTrip.RoundTripWhole` | asyncviz/configuration/environment/environment_serialization.py:63-69 | The whole table round trips exactly when each of its values survives |
| `EnvironmentRoundTrip.ValueSurvives` | asyncviz/configuration/environment/environment_serialization.py:108-119 | Kind by kind, which values are printed as a text that reads as themselves within the size cap |
| `EnvironmentRoundTrip.EnumExact` | asyncviz/configuration/environment/environment_parser.py:129-151 | A choice is read exactly from the texts that spell it without regard to case and surrounding space, and in its own spelling |
| `EnvironmentRoundTrip.MillisecondsRead` | asyncviz/configuration/environment/environment_serialization.py:108-119 | A printed millisecond value comes back a thousand times as large, so only zero survives |
| `EnvironmentRoundTrip.ListReads` | asyncviz/configuration/environment/environment_serialization.py:113-116 | A list survives exactly when it is not empty, clean and within the cap |
| `EnvironmentRoundTrip.PolicyComesBack` | asyncviz/configuration/environment/environment_resolution.py:103-116 | The default policy comes back; any other comes back as never, because it also exports NO_BROWSER=1 |
| `EnvironmentRoundTrip.AlwaysBecomesNever` | asyncviz/configuration/environment/environment_resolution.py:103-116 | Policy always reloads as never |
| `EnvironmentRoundTrip.MillisecondsGrow` | asyncviz/configuration/environment/environment_serialization.py:108-119 | A lag threshold other than its default reloads a thousand times as large |
| `EnvironmentRoundTrip.EmptyIncludeBecomesNone` | asyncviz/configuration/environment/environment_serialization.py:108-119 | An empty include list reloads as None |
| `EnvironmentRoundTrip.EnabledFollowsOutput` | asyncviz/configuration/environment/environment_resolution.py:118-131 | recording.enabled has no variable of its own: it comes back true exactly when an output path is exported whose text is read again, and otherwise as its default |
| `EnvironmentRoundTrip.OthersAreLost` | asyncviz/configuration/environment/environment_serialization.py:73-82 | Options that no row sets come back as the defaults |
| `EnvironmentRoundTrip.OrderMatters` | asyncviz/configuration/environment/environment_mapping.py:67-118 | Any order with NO_BROWSER before BROWSER gives other options in some environment |
| `Provenance.ProvenanceMap.Store` | asyncviz/configuration/runtime_metadata.py:40-51 | A record replaces an entry of no greater source and no other; other keys stay |
| `Provenance.RecordKeepsLastMaximal` | asyncviz/configuration/runtime_metadata.py:40-51 | After any sequence of records each key holds the last record of maximal source |
| `Provenance.RecordedKeys` | asyncviz/configuration/runtime_metadata.py:40-51 | A key has an entry exactly when it was recorded |
| `Provenance.SourcesInOrder` | asyncviz/configuration/runtime_sources.py:17-46 | Each source overwrites exactly the records of those up to itself in the order of the layers |
| `Layering.OptionsFollowLayers` | asyncviz/configuration/runtime_resolution.py:74-109 | Every option ends with the value of the strongest layer that sets it |
| `Layering.EntriesFollowLayers` | asyncviz/configuration/runtime_resolution.py:74-109 | The provenance of an option is what the strongest layer that speaks of it recorded last, under that layer's source |
| `RuntimeOverrides.ApplyApiOverrides` | asyncviz/configuration/runtime_overrides.py:40-90 | API arguments are folded in order; unknown keys and None change nothing; what that leaves is ResolutionInputs.ApiOverridesExactly |
| `RuntimeOverrides.ApplyCliOverrides` | asyncviz/configuration/runtime_overrides.py:93-175 | Flags are folded in order, with the special cases for browser, dashboard, instrumentation and recording output; what that leaves is ResolutionInputs.CliOverridesExactly |
| `RuntimeResolving.SeedProvenance` | asyncviz/configuration/runtime_resolution.py:117-139 | Every option is stamped with the source |
| `RuntimeResolving.SeedReplaces` | asyncviz/configuration/runtime_resolution.py:142-160 | Merging a profile replaces every option |
| `RuntimeResolving.RecordLoaderProvenance` | asyncviz/configuration/environment/environment_provenance.py:29-57 | Every success is recorded under its target with the value as parsed, redacted for secrets |
| `EnvironmentRecords.EnvironmentRecorded` | asyncviz/configuration/environment/environment_provenance.py:36-47 | For any table, what the environment leaves recorded of an option: value and text of the last variable that sets it, of a secret neither, and of recording.enabled the text of the last output path |
| `EnvironmentRecords.SecretsHidden` | asyncviz/configuration/environment/environment_provenance.py:36-47 | An option other than recording.enabled that only secret variables set is never shown with a value or a text from the environment |
| `EnvironmentRecords.EnabledShowsPath` | asyncviz/configuration/environment/environment_resolution.py:118-131 | recording.enabled shows the text of the output path, also of a secret one |
| `EnvironmentRecords.SecretKeyExactly` | asyncviz/configuration/environment/environment_security.py:20-25 | A name is that of a secret exactly when it ends, in whatever case, with one of four words |
| `RuntimeResolving.ApplyEnvironment` | asyncviz/configuration/runtime_environment.py:76-97 | A non-empty environment is loaded, applied and recorded; an empty one changes nothing |
| `RuntimeResolving.ResolveOptions` | asyncviz/configuration/runtime_resolution.py:55-114 | Options and provenance are those of the five layers applied in order, the profile name and the notes those of the profile and the environment; only an unknown profile fails; what the layers come to is ResolutionInputs.ResolvedExactly |
| `ResolutionInputs.ResolvedExactly` | asyncviz/configuration/runtime_resolution.py:55-114 | Every resolved option from the inputs alone: the last word of the command line, or else of the API, or else what the variables read set, or else the profile's value, or else the base's |
| `ResolutionInputs.ResolvedFromInputs` | asyncviz/configuration/runtime_resolution.py:55-114 | The same for the overrides with any table, and the record says it with the source that spoke |
| `ResolutionInputs.ApiOverridesExactly` | asyncviz/configuration/runtime_overrides.py:40-90 | Each option has the last word of the arguments on it, and otherwise what it had |
| `ResolutionInputs.CliOverridesExactly` | asyncviz/configuration/runtime_overrides.py:93-175 | Each option has the last word of the flags on it, and otherwise what it had |
| `ResolutionInputs.PolicyFromInputs` | asyncviz/configuration/runtime_overrides.py:66-124 | The policy is the last --browser; otherwise auto after a truthy last open_browser and never after a falsy one; and the record says the same with its source |
| `ResolutionInputs.KeyFromInputs` | asyncviz/configuration/runtime_overrides.py:25-90 | The last value given for each mapped key is at its option, the command line before the API, and recorded so |
| `ResolutionInputs.OutputFromInputs` | asyncviz/configuration/runtime_overrides.py:139-151 | Any --recording-output turns recording on, and an empty one clears the path |
| `ResolutionInputs.NoDashboardFromInputs` | asyncviz/configuration/runtime_overrides.py:123-130 | A truthy no_dashboard as the last word leaves api-only |
| `ResolutionInputs.NoInstrumentationFromInputs` | asyncviz/configuration/runtime_overrides.py:131-138 | A truthy no_instrumentation as the last word leaves false |
| `ResolutionInputs.EnvironmentSets` | asyncviz/configuration/environment/environment_resolution.py:88-179 | What the environment sets of each option: the value of its variable, never for a true NO_BROWSER, and recording beside an output path |
| `ResolutionInputs.ProfileAlone` | asyncviz/configuration/runtime_profiles.py:32-75 | With a built-in profile and nothing else, in whatever case it is named, every option is the profile's |
| `ProvenanceAgreement.SourceNamesWinner` | asyncviz/configuration/runtime_resolution.py:55-114 | The recorded source of each option is that of the strongest layer that speaks of it |
| `ProvenanceAgreement.OptionsNameWinner` | asyncviz/configuration/runtime_resolution.py:55-114 | Each resolved option has the value of the strongest layer that sets it |
| `ProvenanceAgreement.AgreementExact` | asyncviz/configuration/runtime_resolution.py:55-114 | The recorded value agrees with the option, up to Path and str, except exactly for a policy under a parsed NO_BROWSER that neither API nor CLI overrides, and an output path cleared on the command line |
| `ProvenanceAgreement.NoBrowserForcesNever` | asyncviz/configuration/environment/environment_resolution.py:103-116 | A true NO_BROWSER makes the resolved policy never, whatever base, profile and BROWSER say, unless API or command line name a policy |
| `ProvenanceAgreement.PolicyForced` | asyncviz/configuration/environment/environment_provenance.py:36-47 | A NO_BROWSER that parses leaves its truth value under browser.policy, whatever the policy is |
| `ProvenanceAgreement.CliAgrees` | asyncviz/configuration/runtime_overrides.py:139-151 | The command line's records agree with what it sets unless it clears the output path with an empty text |
| `ProvenanceAgreement.BuiltinsTyped` | asyncviz/configuration/runtime_profiles.py:32-60 | The built-in profiles are well typed |
| `AssetManifests.ManifestRoundTrip` | asyncviz/dashboard/assets/asset_manifest.py:78-118 | Reading back a written manifest gives every field of it back |
| `AssetManifests.PartialRoundTrip` | asyncviz/dashboard/assets/asset_manifest.py:92-118 | Whatever members a manifest's dictionary lacks, the others are read back, with defaults for the missing and totals from the entries that are left |
| `AssetManifests.PartialEntry` | asyncviz/dashboard/assets/asset_manifest.py:92-107 | The same for an entry, which cannot be read without its file |
| `AssetManifests.NumbersRead` | asyncviz/dashboard/assets/asset_manifest.py:92-118 | Truth values and printed numbers in a manifest are read as the numbers they stand for |
| `AssetManifests.WholePartExactly` | asyncviz/dashboard/assets/asset_manifest.py:92-118 | A float in a manifest is cut off towards zero |
| `AssetManifests.ReadEntries` | asyncviz/dashboard/assets/asset_manifest.py:92-107 | The entry loop fails exactly when some item is no object, has no file, or has a size int() refuses; otherwise it reads every item in order |
| `AssetFiles.CollectAssets` | asyncviz/dashboard/assets/asset_registry.py:43-70 | One entry for each file that is not ignored, in the order of the paths, describing its bytes |
| `AssetFiles.CollectionUnique` | asyncviz/dashboard/assets/asset_registry.py:43-70 | There is only one such list, so the order of directory iteration does not show |
| `AssetFiles.CollectionCovers` | asyncviz/dashboard/assets/asset_registry.py:43-70 | A file has an entry exactly when it is not ignored, and there are as many entries as such files |
| `AssetPaths.CollectionInText` | asyncviz/dashboard/assets/asset_registry.py:43-70 | Each path is listed once, in the order of its characters, with the size, hash, type and role of its file |
| `AssetPaths.IgnoredExactly` | asyncviz/dashboard/assets/asset_layout.py:46 | Ignored is a path that is .DS_Store or .gitkeep or ends with a slash and one of them |
| `AssetPaths.KeptExactly` | asyncviz/dashboard/assets/asset_packaging.py:16-34 | The wipe keeps exactly .gitkeep and what lies in a directory of that name |
| `AssetPaths.RootEntryExactly` | asyncviz/dashboard/assets/asset_packaging.py:16-34 | The root entries that a wipe counts, in the text of the paths |
| `AssetPaths.ClassifiedExactly` | asyncviz/dashboard/assets/asset_registry.py:28-40 | The role of a path in its text: the entry chunk is a script called index- something, anywhere under assets |
| `AssetFiles.Bundle.Wipe` | asyncviz/dashboard/assets/asset_packaging.py:16-34 | Everything but the root .gitkeep goes; the count is the number of root entries removed |
| `AssetFiles.Bundle.CopyFrom` | asyncviz/dashboard/assets/asset_packaging.py:37-58 | The files that are not ignored are overlaid on what is there, and counted |
| `AssetFiles.Bundle.WriteAtomically` | asyncviz/dashboard/assets/asset_integrity.py:37-41 | The manifest takes its new bytes and the temporary file is gone |
| `AssetValidating.ValidatorExact` | asyncviz/dashboard/assets/asset_validation.py:55-153 | The validator finds no error exactly in a present bundle with an index whose manifest, if any, is readable, of a known schema, lists the index, and describes every file it lists |
| `AssetValidating.ValidatePublishedBundle` | asyncviz/dashboard/assets/asset_validation.py:55-153 | All issues in order, the verdict, and totals from the manifest or, without one, from the files |
| `AssetValidating.TamperingDetected` | asyncviz/dashboard/assets/asset_validation.py:109-138 | After a change the validator passes exactly when the index is there and every listed file keeps its size and hash |
| `AssetPublishing.Publish` | asyncviz/dashboard/assets/asset_publisher.py:80-188 | What is written, counted and returned on every branch; in the text of the paths, what the directory then holds with which bytes, what the manifest lists and says, and how many files were copied; and success exactly when the copy brought no build.json.tmp and no build.json of another size or hash, or, with a fresh id, exactly when no such root file is carried over |
| `AssetPublishing.Install` | asyncviz/dashboard/assets/asset_publisher.py:139-161 | Wiped unless cleaning is skipped, copied, collected, and the manifest of the copied files written over them |
| `AssetPublishing.PublishExact` | asyncviz/dashboard/assets/asset_publisher.py:139-188 | When a publish validates, for a clean one and for one on top of what was there |
| `AssetPublishing.PublishImpliesValid` | asyncviz/dashboard/assets/asset_publisher.py:139-188 | A clean publish of a build with an index and no root build.json or build.json.tmp validates |
| `AssetPublishing.PublishedExactly` | asyncviz/dashboard/assets/asset_publisher.py:139-161 | Afterwards the directory holds exactly the build without ignored files, the manifest, and what the wipe kept |
| `AssetPublishing.PublishInText` | asyncviz/dashboard/assets/asset_publisher.py:139-188 | After a publish: each path of the build but .DS_Store and .gitkeep files with its bytes, what the wipe left, and a manifest that lists the copied files but those, each described |
| `AssetPublishing.TotalsCount` | asyncviz/dashboard/assets/asset_manifest.py:35-55 | The manifest's totals are the number of files and the sum of their sizes, in whatever order they are added |
| `AssetPublishing.PublishSucceedsExactly` | asyncviz/dashboard/assets/asset_publisher.py:139-188 | With a fresh bundle id and no hash collisions a publish validates exactly when neither the build nor, if cleaning is skipped, the directory before it holds a root build.json or build.json.tmp |
| `AssetPublishing.RepublishFails` | asyncviz/dashboard/assets/asset_publisher.py:139-188 | Publishing over a published directory without cleaning it always fails its own validation |
| `AssetPublishing.RepublishWithoutCleaning` | asyncviz/dashboard/assets/asset_publisher.py:139-161 | Whatever the ids and the hash, publishing again without cleaning validates only if the new manifest has the old one's size and hash |
| `AssetPublishing.EntriesAfterWriting` | asyncviz/dashboard/assets/asset_manifest.py:58-63 | Writing the manifest disturbs the copied files only at build.json and build.json.tmp |
| `OptionsDiffing.FlattenMembers` | asyncviz/configuration/runtime_serialization.py:68-76 | The recursive loop computes the flat form |
| `OptionsDiffing.FlattenExact` | asyncviz/configuration/runtime_serialization.py:68-76 | The flat keys are exactly the dotted paths of the leaves, with their values |
| `OptionsDiffing.DottedInjective` | asyncviz/configuration/runtime_serialization.py:68-76 | Different paths of non-empty, dot-free keys have different dotted keys |
| `OptionsDiffing.Diff` | asyncviz/configuration/runtime_serialization.py:50-65 | The difference holds every key whose values differ, with both values |
| `OptionsDiffing.DiffEmptyExact` | asyncviz/configuration/runtime_serialization.py:50-65 | For trees of one shape the difference is empty exactly when they are equal |
| `OptionsDiffing.DiffIsPatch` | asyncviz/configuration/runtime_serialization.py:50-65 | Overwriting the first flat form with the difference's second components gives the second flat form |
| `OptionsDiffing.DiffReverts` | asyncviz/configuration/runtime_serialization.py:50-65 | Overwriting the second flat form with the first components gives the first |
| `OptionsDiffing.DiffAt` | asyncviz/configuration/runtime_serialization.py:50-65 | A key is in the difference exactly when the two flat forms differ at it, with the value each has |
| `OptionsDiffing.EmptyNodeInvisible` | asyncviz/configuration/runtime_serialization.py:68-76 | An empty dictionary has no leaf, so without a common shape an empty difference does not mean equality |

## Left out

- Registration of producers, websockets, middleware, lifespan, FastAPI and uvicorn wiring: plumbing over libraries.
- Replay engine, event bus, state store, timeline engine and lag monitor.
- Trace records, metrics snapshots, diagnostics reports, log lines and the texts of error messages.
- The inline branches of `apply_environment` after its early return: a non-empty environment returns before them and
  an empty one reads nothing there.
- Path objects: expansion and the spelling `Path` gives a text are function parameters, so `RoundTripExact` speaks of
  their composition.
- Numbers in option texts: exponents, `inf`, `nan`, negative zero, digits outside ASCII, the long s that the duration
  pattern also matches, binary rounding, and Python's limit on the length of integer texts.
- `str.lower` outside ASCII: no accepted word holds a letter that a character outside ASCII lowers to.
- `str()` of a tuple, which the exporter and the manifest reader only meet in ill-typed data.
- Tables that read the output path or the event-type lists with another kind of parser.
- The walk of a dotted name through nested dataclasses: the option tree is a map from field to value.
- EnvironmentLoading.Load: diagnostics keep the variable's name, not the message or the raw text.
- RuntimeResolving.ResolveOptions: the profile name stored inside the options is returned beside them.
- Empty directories, symbolic links, a file where a directory is needed, and permissions in the published tree.
- AssetValidating.ValidatorExact: a manifest whose extras hold a key that is no text or an object as a pair, or that
  holds a number that is not finite, is a bad manifest or no value of the model; the source converts some of these.
- AssetValidating.ValidatePublishedBundle: an entry's file is looked up as it is spelled, where the source joins
  paths: `./index.html`, `a//b` or `a/../b` in a manifest not written by the publisher is found there and missing
  here.
- AssetPublishing.Publish: the builder is its reported success, and notes carry no directory names.
- File reads that fail half way in the asset cache: a payload is read whole or not at all.
- BrowserLaunching.BrowserLauncher.WaitThenOpen: the readiness counters of the metrics and the time the backend takes.
- Resets of the metrics and the replacement of the default slot guard.
- Threads that die inside a guard's lock, and fairness of the scheduler: termination of a launch is a bound on its own
  steps.
- SampleRuntime.ShutdownTerminates: while the stop flag is set but the main task has not run, tasks may go on working.
- The gather coordinator, the queue observer and the blocking offender, which do not change the queue.
- Payload sizes and random delays: a delay is a step that may come at any time.
- Overflow and non-finite durations in `check_outcome`: times are reals, so a duration is finite.
- Scenario selection and peak-memory sampling in the stress runner.
- Normalising dataclasses, tuples and paths before `diff_options`: the model starts from the normalised tree.
