# Verified core of the Supabase lab harness

Most of the lab is network probing. The numbers it reports, however, rest on a
dozen small pieces of arithmetic and a few state machines that run between
awaits. This project models those pieces in Dafny and proves what the reports
rely on.

| file | models |
|---|---|
| `Wrappers.dfy` | a value that may be missing |
| `Sorting.dfy` | the stable sort both the outage accounting and the merge use |
| `Hedge.dfy` | `hedgedGet`: two attempts, a hedge timer, a deadline and a grace timer |
| `Merge.dfy` | fan-out read, merge and keyset paging, exact and millisecond cursors |
| `Outage.dfy` | outages of a sample stream and their attribution to phases |
| `OpenTail.dfy`, `OpenTailTight.dfy` | the bound from old aggregates: no sound bound is greater |
| `Sampler.dfy`, `SampleDuring.dfy` | one sampled path, and all paths with the watchdog and the operation |
| `Timeline.dfy`, `TimelineRun.dfy` | one path of the re-enable timeline and its relation to the sampler; all paths with the operation and the stop rule |
| `DiskChange.dfy` | the longest gap between successes |
| `SleepOverlap.dfy` | placing monotonic durations on a wall clock with sleeps |
| `Load.dfy` | the open-loop and the lane-based load generators |
| `Png.dfy` | table-driven CRC-32 and PNG chunks |
| `Needle.dfy` | the streaming needle counter |
| `Settle.dfy` | the drain guard around modules |

Check everything with `dafny verify dfyconfig.toml`.

## How the model reads the code

- Between two awaits JavaScript runs without interruption, so one callback body
  is one step. A run is any order of enabled steps; statements about runs hold
  for every order. The closures and loops that mutate variables are classes whose
  methods are proved equal to the step functions the statements are about.
- Times are whole milliseconds (microseconds for row timestamps, reals in the
  open loop and the open-tail bound). Display rounding is left out. Clocks never
  go back. Probes, fetches, `build` and `fire` answer anything at any time;
  `build` does not throw before returning its promise.
- Row ids are numbers, standing for any total order. A target answers a page
  query as its text asks: filter by the cursor, newest first, cut at the limit.
- Two timers of one call fire in the order they fall due.
- Every lemma carries `{:induction false}`: each proof is its body.

## What the proofs found

- `hedgedGet` documents its deadline as covering all attempts, but the hedge
  timer does not look at it: an attempt can be started after the deadline and is
  then never aborted by it. This can happen exactly when `hedgeAfterMs` is not
  below `timeoutMs` (`Hedge.LateStartIff`).
- The deadline does not bound the call either: it aborts the attempts, but after
  the grace timer the call is still open exactly when no attempt has settled, and
  from then on only an answer can end it (`Hedge.GraceEndsCallIff`,
  `Hedge.OnlyAnswersEndCall`; `Hedge.OpenPastDeadlineRun` is such a call).
- In `burst`, `next = inFlight + shots` does not hold at every step: between the
  push of a shot and the lane's resumption the request counts twice. It holds
  exactly when no lane is in between (`Burst.BurstBalance`), and one request
  answered by one lane is enough to break it (`Burst.BalanceFailsRun`). With
  `maxInFlight` below 1 nothing is sent (`Burst.BurstSendsAll`).
- In `sleep-overlap.ts` the summary's total and the total of the placed modules
  agree if no result without a duration is directly followed by one of 1 to 5 ms
  (`SleepOverlap.TotalsAgree`). One such pair can make them differ
  (`SleepOverlap.TotalsDiffer`), but two can cancel out in the final total
  (`SleepOverlap.ClashesCanCancel`); result by result the condition is exact
  (`SleepOverlap.TotalsAgreeIff`).
- The same summary's sleep time counts overlapping sleeps twice: it is the time
  slept exactly when no millisecond of the run is covered by two sleeps
  (`SleepOverlap.SleptInsideIff`). Two sleep events before one wake give 190 ms of
  sleep in a run of 100 (`SleepOverlap.SleptTwice`).
- The timeline stops once every path in `stopOn` has a lasting success, but a probe
  in flight at that moment still records its answer, and a failure takes the success
  back: the path returned shows it exactly when no failure was recorded after the
  stop (`TimelineRuns.DoneIsKeptIff`; `TimelineRuns.RelapseRunReturnsNull` is a run
  that returns without it).
- The stop rule guards against an empty `stopOn`, but a non-empty list that names
  no probe lets a run stop with no success at all, and nothing else does
  (`TimelineRuns.StopsUnansweredIff`).
- When the timeline's operation throws, its loops are never told to stop
  (`TimelineRuns.ThrowLeavesLoopsRunning`).
- A probe that throws makes the timeline's call reject or hang, never return
  (`TimelineRuns.ThrownProbeNeverReturns`).
- The open-tail bound is as good as its aggregates allow: no greater one is sound
  for a whole number of milliseconds between starts (`OpenTailTight.OpenTailIsTight`).
- The millisecond comparator and cursor lose, at the end of a full page, exactly the
  rows of the last row's millisecond that are not returned yet and lie inside it or,
  at its start, have no smaller id (`Merge.MsCompareLoss`, `Merge.WalkMs`).
- For every positive settle time the timeline and the sampler report the same
  recovery exactly when no failure follows the one the sampler reports; without a
  settle time a single success separates them
  (`Timelines.TimelineAgreesWithSampler`, `Timelines.AgreementNeedsSettleTime`).
- An outage's time is shared out among phases without loss exactly when it ends
  by the end of the stream or the last phase's start, whichever is later
  (`Outages.OutageTimeConserved`). A success sampled after the end of the stream
  makes one that does not (`Outages.TimeLostPastHorizon`).

## Model

| member | source | states |
|---|---|---|
| Hedge.HedgedGet.constructor | experiments/client-retries/lib/policy.ts:62-90 | a new call has its hedge timer set and attempt 1 running |
| Hedge.HedgedGet.DoLaunch | experiments/client-retries/lib/policy.ts:50-60 | starts an attempt with its own controller unless the call is resolved or two have started |
| Hedge.HedgedGet.AbortOthers | experiments/client-retries/lib/policy.ts:72-72 | aborts every controller except the winner's and changes nothing else |
| Hedge.HedgedGet.DoFinish | experiments/client-retries/lib/policy.ts:68-74 | resolves once, clears the hedge timer, aborts the others |
| Hedge.HedgedGet.OnSettle | experiments/client-retries/lib/policy.ts:78-85 | what an attempt's answer does to the call |
| Hedge.HedgedGet.OnHedgeTimer | experiments/client-retries/lib/policy.ts:87-87 | what the hedge timer does to the call |
| Hedge.HedgedGet.OnDeadline | experiments/client-retries/lib/policy.ts:54-88 | the deadline aborts every controller there is and sets the grace timer |
| Hedge.HedgedGet.OnGraceTimer | experiments/client-retries/lib/policy.ts:88-88 | the grace timer gives the last answer, if there is one |
| Hedge.RunKeepsInv | experiments/client-retries/lib/policy.ts:62-90 | in every state of every run: counters, pending attempts, controllers, resolutions and the last answer fit together |
| Hedge.NeverStuck | experiments/client-retries/lib/policy.ts:62-90 | an unresolved call has `settled < started <= 2` and an attempt that can still settle; once all have settled it is resolved; it resolves at most once |
| Hedge.StateIsTold | experiments/client-retries/lib/policy.ts:62-90 | told from the events so far: each timer fires at most once, the hedge timer only while the call is open, and an attempt runs until it settles |
| Hedge.ResolvedIsFinal | experiments/client-retries/lib/policy.ts:68-76 | after resolution no attempt starts and the answer never changes, whatever follows |
| Hedge.AnswerIsFirstDecision | experiments/client-retries/lib/policy.ts:62-90 | told from the event history alone, the call is resolved exactly when a deciding event has occurred, with the answer of the first one |
| Hedge.WinnerIsHonest | experiments/client-retries/lib/policy.ts:40-46 | the answer is what attempt `winner` settled with, `1 <= winner <= started`, and every other controller is aborted |
| Hedge.AbortedIff | experiments/client-retries/lib/policy.ts:54-72 | an attempt is aborted exactly when its controller was there as the deadline fired, or the call is resolved and another attempt won |
| Hedge.DeadlineAbortsBoth | experiments/client-retries/lib/policy.ts:54-55 | after the hedge timer and then the deadline both attempts are aborted |
| Hedge.FirstGoodAnswerWins | experiments/client-retries/lib/policy.ts:81-81 | a non-retryable answer that finds the call open is the final answer of every continuation |
| Hedge.RetryableIsLastResort | experiments/client-retries/lib/policy.ts:82-88 | a retryable answer is given only by the grace timer after the deadline or when all started attempts have settled, and before the deadline only when both failed retryably |
| Hedge.LateStartIff | experiments/client-retries/lib/policy.ts:34-37 | with timers in due order, some run starts an attempt after the deadline exactly when `timeoutMs <= hedgeAfterMs` |
| Hedge.LateStartRun | experiments/client-retries/lib/policy.ts:54-55 | the run that does so leaves the second attempt pending and not aborted after the deadline |
| Hedge.GraceEndsCallIff | experiments/client-retries/lib/policy.ts:34-35 | after the grace timer the call is still open exactly when no attempt had settled |
| Hedge.OnlyAnswersEndCall | experiments/client-retries/lib/policy.ts:34-35 | a call open after the grace timer stays open through every continuation in which no attempt settles |
| Hedge.OpenPastDeadlineRun | experiments/client-retries/lib/policy.ts:87-88 | a run past deadline and grace timer whose call is open with attempt 1 pending and the hedge timer still set |
| Merge.MergeIsExact | experiments/cross-project-auth/lib/merge.ts:152-196 | with unique ids, merging every target's first `limit` rows after a cursor gives the first `limit` rows of the union after it |
| Merge.FanoutIsHonest | experiments/cross-project-auth/lib/merge.ts:176-195 | a read that says ok saw every leg and holds the first rows of the whole union; a partial one those of the legs that answered; a failed one under `all` nothing; with the millisecond comparator the rows go by millisecond and then by larger id, what was sent and cut comes later in that order, and nothing left out is newer than the last millisecond of a full page |
| Merge.CursorCutsSuffix | experiments/cross-project-auth/lib/merge.ts:98-105 | the rows a cursor asks for are a suffix of the listing |
| Merge.Walk | experiments/cross-project-auth/tests/x06-fanout-pagination.ts:51-70 | walking with any cursor that moves on, to a short page, the cap or a failed read, never repeats a row; `lasts` are the last rows of the full pages, one each, and on exhaustion the missing rows are exactly those lost after one of them; a lossless cursor makes any walk the first pages of the sorted union |
| Merge.WalkExact | experiments/cross-project-auth/lib/merge.ts:93-96 | walking with the exact cursor lists the union once, in order: all of it on exhaustion or within the cap, the pages before it when a read fails |
| Merge.ExactCursorIsLossless | experiments/cross-project-auth/lib/merge.ts:93-96 | the verbatim cursor continues right after its row: nothing repeated, nothing lost |
| Merge.MsCursorLoss | experiments/cross-project-auth/lib/merge.ts:88-91 | the millisecond cursor never repeats; it loses exactly the later rows of the cursor row's millisecond other than those at the whole millisecond with a smaller id; a whole-millisecond row loses none |
| Merge.MsCompareNeverRepeats | experiments/cross-project-auth/lib/merge.ts:80-91 | a full page merged with the millisecond comparator never comes back through the millisecond cursor |
| Merge.MsCompareLoss | experiments/cross-project-auth/lib/merge.ts:80-91 | of the rows not on such a page, the cursor loses exactly those of its last row's millisecond that are inside it or have no smaller id |
| Merge.WalkMs | experiments/cross-project-auth/tests/x06-fanout-pagination.ts:51-70 | a whole walk with the millisecond comparator and cursor, failed reads included, lists rows by millisecond and then by larger id, none twice and none it has lost; `ends` are the ends of the full pages, one each, and on exhaustion the missing rows are exactly those lost at one of them |
| Sorting.SortPermutes | experiments/compute-disk/lib/outage.ts:78-78 | sorting keeps the multiset |
| Sorting.SortSorted | experiments/compute-disk/lib/outage.ts:78-78 | sorting by a total preorder gives a sorted list |
| Sorting.SortStable | experiments/compute-disk/lib/outage.ts:78-78 | elements that tie keep their order |
| Outages.RunsAreMaximal | experiments/compute-disk/lib/outage.ts:14-22 | the scan's runs are the maximal runs of failed samples and hold every failure |
| Outages.RunsAreUnique | experiments/compute-disk/lib/outage.ts:14-22 | being the maximal runs of failures determines them |
| Outages.FindPhase | experiments/compute-disk/lib/outage.ts:70-74 | the forward scan finds the last phase begun by a time |
| Outages.PhaseOfIsLast | experiments/compute-disk/lib/outage.ts:32-33 | that phase has begun and every later one has not |
| Outages.ScanOne | experiments/compute-disk/lib/outage.ts:81-91 | one sample opens, extends or closes the current outage |
| Outages.ScanSorted | experiments/compute-disk/lib/outage.ts:79-96 | the scan of sorted samples yields one outage per maximal run |
| Outages.ScanOutages | experiments/compute-disk/lib/outage.ts:77-97 | any samples, in any order, give the outages of their time order |
| Outages.OutagesInOrder | experiments/compute-disk/lib/outage.ts:77-97 | samples already in order give the outages of their own runs |
| Outages.Longest | experiments/compute-disk/lib/outage.ts:106-107 | the longest own outage, the first on a tie |
| Outages.SumCarried | experiments/compute-disk/lib/outage.ts:108-114 | the carried-in time of a phase is the sum of earlier outages' shares of it |
| Outages.StatsOfPhase | experiments/compute-disk/lib/outage.ts:102-132 | one phase's statistics |
| Outages.Attribute | experiments/compute-disk/lib/outage.ts:100-133 | the statistics of every phase |
| Outages.OwnOutagesTold | experiments/compute-disk/lib/outage.ts:105-129 | a phase's outage count and its first failure and last recovery times are those of the stream's outages that start in it |
| Outages.OpenAtEndIff | experiments/compute-disk/lib/outage.ts:115-115 | the flag is set exactly when some failure before the phase's end is followed by no success up to that end, and the stream reaches it |
| Outages.OutageTimeline.BeginPhase | experiments/compute-disk/lib/outage.ts:140-142 | appends a phase mark |
| Outages.OutageTimeline.Add | experiments/compute-disk/lib/outage.ts:144-146 | appends a sample |
| Outages.OutageTimeline.LastFailMs | experiments/compute-disk/lib/outage.ts:148-153 | the latest failing sample in whatever order they came, none exactly when none failed |
| Outages.OutageTimeline.Stats | experiments/compute-disk/lib/outage.ts:155-157 | the statistics of what was collected |
| Outages.SamplesConserved | experiments/compute-disk/lib/outage.ts:100-122 | with phases in order, every sample from the first phase start on is counted in exactly one phase, as ok or as a failure |
| Outages.FailuresConserved | experiments/compute-disk/lib/outage.ts:77-97 | outage failure counts add up to all failed samples |
| Outages.OutageTimeConserved | experiments/compute-disk/lib/outage.ts:100-114 | an outage's length is its own phase's share plus what it carries into later phases, exactly when it ends by the horizon or has no length |
| Outages.TimeLostPastHorizon | experiments/compute-disk/lib/outage.ts:100-114 | a closing sample after the end gives an outage of 9 ms of which the phases hold 5 |
| Outages.OutagesFit | experiments/compute-disk/lib/outage.ts:92-95 | with no sample after the end, outages lie in the stream and start in the phase they name |
| Outages.TimeConserved | experiments/compute-disk/lib/outage.ts:100-133 | the reported total outage times are the own-phase time plus the reported carried-in times exactly when every attributed outage ends by the horizon, never less, and always with no sample after the end |
| OpenTail.OpenTailIsSound | experiments/compute-disk/lib/outage.ts:160-179 | for samples at least one interval apart, the bound claims no more failures than the open final outage holds and no longer a span than they cover |
| OpenTailTight.OpenTailIsTight | experiments/compute-disk/lib/outage.ts:160-179 | for a whole number of milliseconds between starts no greater bound is sound: some spaced samples with the same successes, total and longest closed outage leave open exactly the failures claimed, over exactly the span claimed |
| OpenTailTight.NoClosedOutageIsExact | experiments/compute-disk/lib/outage.ts:175-177 | without a closed outage the bound is the number of failures the open final outage holds |
| OpenTail.ClosedRunIsBounded | experiments/compute-disk/lib/outage.ts:163-166 | a closed outage of a given length holds at most the failures the interval allows |
| OpenTail.ClosedRunsHaveSuccesses | experiments/compute-disk/lib/outage.ts:163-164 | there are at most as many closed outages as successes |
| PathSampling.PathState.OnOutcome | harness/src/sampler.ts:158-182 | what one probe outcome does to a path's state |
| PathSampling.CountersAreExact | harness/src/sampler.ts:158-174 | the sample and failure counts, the health at start and the down flag are what the samples say |
| PathSampling.SamplerRefinesOutages | harness/src/sampler.ts:149-186 | on samples in time order the online window starts with the first outage, ends with the first outage whose recovery was sustained, is absent exactly when none was, and covers that outage |
| PathSampling.RecoveryIsFinal | harness/src/sampler.ts:169-173 | a recovery once believed never moves |
| SampleDuring.RunKeepsInv | harness/src/sampler.ts:149-231 | in every interleaving each path's state replays its own ordered samples, pauses are disjoint, and the watchdog's exit reason is true |
| SampleDuring.AnswersAreStamped | harness/src/sampler.ts:150-182 | an answer is recorded by its own loop alone, at the time its probe was started, which was before the stop and before `maxWaitMs` |
| SampleDuring.StopIsObeyed | harness/src/sampler.ts:150-150 | after the stop a loop records at most the answer of the probe in flight |
| SampleDuring.ReturnIsFinal | harness/src/sampler.ts:217-231 | a return waits for the watchdog and every loop, so nothing it reports changes afterwards |
| SampleDuring.NullResultIsEarned | harness/src/sampler.ts:193-196 | a return with no failure means the watchdog waited to `maxWaitMs` |
| SampleDuring.EarlyExitIsSettled | harness/src/sampler.ts:193-196 | on an early exit every path that had failed had a sustained recovery, and the report still shows it |
| SampleDuring.EarlyExitIff | harness/src/sampler.ts:192-196 | the watchdog's check leaves early exactly when it is not stopped, has time left, some path has failed, and every path that has failed has had a sustained recovery |
| SampleDuring.PausesAreLongSpans | harness/src/sampler.ts:198-213 | the pauses are exactly the spans between consecutive watchdog wakes, the first from time 0, longer than `intervalMs` plus 2 s |
| SampleDuring.PausedIsTime | harness/src/sampler.ts:100-118 | the summed overlap is the number of milliseconds before the end that lie in a pause |
| SampleDuring.ReportIsTold | harness/src/sampler.ts:104-120 | what is reported for each path is told from its samples, the clock at the watchdog's wakes and the time of the return |
| SampleDuring.ReportIsSound | harness/src/sampler.ts:100-120 | each reported window is non-negative, pauses never exceed the span they are counted in, and the return is timed by the clock |
| SampleDuring.PausesFit | harness/src/sampler.ts:118-118 | disjoint pauses sum to at most the span |
| Timelines.PathTimeline.OnAnswer | experiments/data-api-reenable/lib/reenable.ts:249-266 | what one answer does to a path's timeline |
| Timelines.SustainedIsFinalRun | experiments/data-api-reenable/lib/reenable.ts:207-208 | the sustained time is the start of the final unbroken ok run exactly when it spans `settleMs`, else null |
| Timelines.FirstOkIsFirst | experiments/data-api-reenable/lib/reenable.ts:205-206 | every answer is counted and the first ok is the earliest |
| Timelines.TransitionsCompress | experiments/data-api-reenable/lib/reenable.ts:202-203 | the transitions are the run-length compression of the states, with no equal neighbours |
| Timelines.TimelineTestsLastOutage | experiments/data-api-reenable/lib/reenable.ts:257-266 | with a failure on record the verdict is the sampler's test applied to the last outage |
| Timelines.TimelineAgreesWithSampler | experiments/data-api-reenable/lib/reenable.ts:257-266 | it reports only if the sampler does, and the same time exactly when no failure follows the sampler's recovery |
| Timelines.AgreementNeedsSettleTime | experiments/data-api-reenable/lib/reenable.ts:260-260 | without a positive settle time one success separates the two rules |
| TimelineRuns.RunKeepsInv | experiments/data-api-reenable/lib/reenable.ts:228-278 | in every interleaving each path replays its own answers in time order, `stop` follows the main loop, and a leave by timeout is one |
| TimelineRuns.AnswersAreStamped | experiments/data-api-reenable/lib/reenable.ts:244-266 | an answer is recorded by its own loop alone, at the time it arrives |
| TimelineRuns.ReturnIsFinal | experiments/data-api-reenable/lib/reenable.ts:276-278 | a return waits for every loop, so the paths it returns are final |
| TimelineRuns.LeavesIff | experiments/data-api-reenable/lib/reenable.ts:240-276 | the main loop's check leaves by `done()` exactly when there is time left and every path of a non-empty `stopOn` is in a run of successes that has lasted, and by timeout exactly when there is no time left |
| TimelineRuns.ThrownProbeNeverReturns | experiments/data-api-reenable/lib/reenable.ts:244-277 | a probe that throws ends its loop for good and the call never returns a result |
| TimelineRuns.DoneIsSettled | experiments/data-api-reenable/lib/reenable.ts:240-242 | when the main loop leaves by `done()`, every path in `stopOn` is in a final run of successes that spans `settleMs` |
| TimelineRuns.DoneIsKeptIff | experiments/data-api-reenable/lib/reenable.ts:262-278 | after that a path records at most one answer, and still shows its success exactly when that answer is no failure |
| TimelineRuns.NullIsTimeoutOrRelapse | experiments/data-api-reenable/lib/reenable.ts:222-227 | a `stopOn` path returned without a sustained success means that `maxWaitMs` has passed or that its one answer since the stop failed |
| TimelineRuns.RelapseRunReturnsNull | experiments/data-api-reenable/lib/reenable.ts:262-265 | a run that leaves by `done()` and returns the path without its sustained success |
| TimelineRuns.StopsUnansweredIff | experiments/data-api-reenable/lib/reenable.ts:237-242 | some run stops with no success on any path exactly when the list is non-empty, names no probe and `maxWaitMs` is positive |
| TimelineRuns.ThrowLeavesLoopsRunning | experiments/data-api-reenable/lib/reenable.ts:271-276 | after the operation throws, every loop that reaches its check before `maxWaitMs` probes again |
| DiskChange.TakeSample | experiments/compute-disk/lib/disk-change.ts:139-149 | one turn of the loop keeps the last success and the longest gap of the samples so far |
| DiskChange.MaxOkGapMs | experiments/compute-disk/lib/disk-change.ts:135-152 | on samples in order, the longest gap between consecutive successes whose later one is in the window, with its anchor, or `to - anchor` when there is none |
| DiskChange.LastOkIsLatest | experiments/compute-disk/lib/disk-change.ts:135-149 | the success kept is the latest one |
| DiskChange.MaxOkGapTold | experiments/compute-disk/lib/disk-change.ts:130-134 | with a success in the window the result is the largest distance between consecutive successes whose later one is in it, or from the window's start to the first success of all |
| DiskChange.NoOkGapTold | experiments/compute-disk/lib/disk-change.ts:150-151 | with none it is the time from the last success before the window, or from its start, to its end |
| DiskChange.GapCoversOutages | experiments/compute-disk/lib/disk-change.ts:130-134 | it is at least the length of every outage that starts and is closed in the window |
| SleepOverlap.FindWake | harness/scripts/sleep-overlap.ts:34-34 | the first later event that is not a sleep |
| SleepOverlap.BuildSleeps | harness/scripts/sleep-overlap.ts:32-36 | one entry per sleep event that a later event ends |
| SleepOverlap.LogIsWellformed | harness/scripts/sleep-overlap.ts:32-36 | any time-ordered log gives sleeps ordered by start, repeated sleeps with one wake included |
| SleepOverlap.FindSleep | harness/scripts/sleep-overlap.ts:88-88 | the first sleep in the way of the rest of a duration |
| SleepOverlap.Place | harness/scripts/sleep-overlap.ts:85-93 | the loop ends at the least wall time at which the host has been awake for the duration, and the sleeps it lists cover all the time slept |
| SleepOverlap.PlaceAll | harness/scripts/sleep-overlap.ts:85-96 | over consecutive modules the reconstructed end inverts the clock for the summed durations |
| SleepOverlap.InverseIsUnique | harness/scripts/sleep-overlap.ts:85-93 | only one wall time inverts the clock for a duration |
| SleepOverlap.EndingAfterShrinks | harness/scripts/sleep-overlap.ts:87-92 | each jump leaves strictly fewer sleeps ahead |
| SleepOverlap.GroupRuns | harness/scripts/sleep-overlap.ts:79-84 | the results fall into consecutive blocks, each with its head's duration (0 if missing), every member within 5 ms of it, and no head within 5 ms of the block before |
| SleepOverlap.TotalsAgree | harness/scripts/sleep-overlap.ts:68-84 | the summary's total is the total of the placed modules when no missing duration is directly followed by one of 1 to 5 ms |
| SleepOverlap.TotalsDiffer | harness/scripts/sleep-overlap.ts:68-84 | one such pair and the totals are 3 and 0 |
| SleepOverlap.ClashesCanCancel | harness/scripts/sleep-overlap.ts:68-84 | two such pairs whose totals are both 106 |
| SleepOverlap.TotalsAgreeIff | harness/scripts/sleep-overlap.ts:68-84 | the running totals agree after every result exactly when there is no such pair |
| SleepOverlap.SleptInsideIff | harness/scripts/sleep-overlap.ts:63-64 | the summed sleep is wall span less awake time exactly when no millisecond of the run is covered by two sleeps |
| SleepOverlap.SleptTwice | harness/scripts/sleep-overlap.ts:63-64 | a log of two sleeps and one wake gives 190 ms of sleep in a run of 100 |
| OpenLoop.Generator.OnTick | experiments/edge-burst/lib/load.ts:132-144 | one turn of the loop decides all due requests |
| OpenLoop.Generator.OnAnswer | experiments/edge-burst/lib/load.ts:102-117 | an answer becomes a shot while its request is still pending |
| OpenLoop.Generator.OnRemove | experiments/edge-burst/lib/load.ts:141-141 | an answered request leaves the pending set in a later step |
| OpenLoop.NeverAhead | experiments/edge-burst/lib/load.ts:5-8 | no request leaves before its time, so at most `floor(t * rate / 1000) + 1` have left by `t` |
| OpenLoop.NothingLeftBehind | experiments/edge-burst/lib/load.ts:131-146 | after each tick the requests decided are those decided before and all whose time `i * 1000 / rate` has come; what it sent left at its time; in-flight is within the cap, and a skip happened only at the cap |
| OpenLoop.MaxSeenIsReached | experiments/edge-burst/lib/load.ts:143-143 | the recorded maximum in flight was reached |
| OpenLoop.AllAccounted | experiments/edge-burst/lib/load.ts:147-148 | at the end sent plus skipped is what was scheduled |
| Burst.Generator.constructor | experiments/edge-burst/lib/load.ts:156-171 | all lanes start one after another |
| Burst.Generator.RunLane | experiments/edge-burst/lib/load.ts:163-167 | a lane sends the next request or leaves |
| Burst.Generator.OnAnswer | experiments/edge-burst/lib/load.ts:102-117 | an answer becomes a shot |
| Burst.Generator.OnResume | experiments/edge-burst/lib/load.ts:167-169 | a resumed lane frees its slot and checks the loop again |
| Burst.BurstBalance | experiments/edge-burst/lib/load.ts:155-173 | at every step sent is in flight plus shots less the lanes yet to resume, and the recorded maximum is `min(n, maxInFlight)` |
| Burst.BalanceFailsRun | experiments/edge-burst/lib/load.ts:163-169 | after one answer to one request, one is sent and in flight plus shots is two |
| Burst.BurstNeverStuck | experiments/edge-burst/lib/load.ts:155-173 | until all lanes are done some lane can go on |
| Burst.BurstEnds | experiments/edge-burst/lib/load.ts:155-173 | every run ends: at most two steps per request, and it cannot go on exactly when all have been taken (none without a lane) |
| Burst.BurstSendsAll | experiments/edge-burst/lib/load.ts:151-154 | all `n` requests are sent, each once, exactly when there is a lane to send them or nothing to send |
| Crc.BuildTable | experiments/image-transformations/lib.ts:18-26 | entry `n` of the table is `n` shifted eight times |
| Crc.ByteStep | experiments/image-transformations/lib.ts:30-31 | one look-up and shift take in the eight bits of a byte, lowest first |
| Crc.Crc32 | experiments/image-transformations/lib.ts:28-33 | the table-driven CRC equals the bit-at-a-time one on every byte string |
| Crc.DetectsByteError | experiments/image-transformations/lib.ts:28-33 | changing one byte anywhere changes the CRC |
| Crc.PolyIsReversed | experiments/image-transformations/lib.ts:22-22 | the polynomial by its exponents, reversed |
| Png.WriteChunk | experiments/image-transformations/lib.ts:35-42 | length, type, data and CRC in the chunk layout, nothing for a length beyond 32 bits |
| Png.LengthIsBigEndian | experiments/image-transformations/lib.ts:37-37 | the length is written most significant byte first |
| Png.WordReadsBack | experiments/image-transformations/lib.ts:40-40 | the CRC is written most significant byte first |
| Png.IendChunk | experiments/image-transformations/lib.ts:55-55 | the chunk that ends every file, byte for byte |
| Png.RoundTrip | experiments/image-transformations/lib.ts:35-42 | any concatenation of chunks reads back as the same types and data with matching CRCs |
| Png.EncodingIsUnique | experiments/image-transformations/lib.ts:35-42 | different chunk lists never encode alike |
| Needle.IndexOf | experiments/client-keyed-objects/client/cli.ts:92-92 | the first match at or after a position |
| Needle.CountBuffer | experiments/client-keyed-objects/client/cli.ts:92-92 | the inner loop counts all occurrences, overlapping ones included |
| Needle.CountIsPositions | experiments/client-keyed-objects/client/cli.ts:92-92 | the count is the number of positions where the needle stands byte by byte |
| Needle.TailSuffices | experiments/client-keyed-objects/client/cli.ts:91-93 | a chunk adds exactly the occurrences in the carried tail plus the chunk |
| Needle.CountChunk | experiments/client-keyed-objects/client/cli.ts:91-93 | one chunk's count and the new carried tail |
| Needle.CountStream | experiments/client-keyed-objects/client/cli.ts:82-95 | for every split into chunks the count is that of the whole byte string; an empty needle counts none |
| Settle.Harness.Arm | harness/src/settle.ts:58-61 | arming replaces the wake slot with a new token |
| Settle.Harness.OnDrain | harness/src/settle.ts:51-56 | a drain takes the armed token to a timer, or counts as idle |
| Settle.Harness.BeginModule | harness/src/settle.ts:75-87 | a module that throws at once never arms; any other is armed |
| Settle.Harness.EndModule | harness/src/settle.ts:97-102 | the race's end reports the outcome and disarms |
| Settle.Harness.OnWake | harness/src/settle.ts:86-86 | a delivered wake ends its own module only |
| Settle.OneOutcomeEach | harness/src/run.ts:176-204 | over any run every finished module has one outcome and the watch is disarmed between modules |
| Settle.OutcomesAreEvents | harness/src/settle.ts:75-102 | every outcome reported is that of the event that ended its module, in order, and every such event is reported |
| Settle.AwaitedWasBegun | harness/src/settle.ts:82-96 | the module awaited is the last one begun, with the token and timeout it was begun with |
| Settle.DrainsAreCounted | harness/src/settle.ts:51-56 | every drain takes a token or is counted as idle |
| Settle.DrainedMeansDrained | harness/src/settle.ts:32-37 | a module is reported drained only if the loop drained while its own arm was in force |
| Settle.LateWakesDoNotInterfere | harness/src/settle.ts:51-56 | taking the wakes of modules no longer awaited out of any run leaves every outcome, the module awaited, its arm and the drains taken unchanged |
| Settle.PruneLeavesNone | harness/src/settle.ts:51-56 | what is left of the run holds no such wake |
| Settle.DrainAlwaysReports | harness/src/settle.ts:14-19 | while a module is awaited, its wake is on its way or the next drain sends it, and then it is reported as drained |

## Left out

- Interleavings are modelled on values: `SampleDuring` and `TimelineRuns` have no class of their own for the main function and the watchdog; their paths are the classes in `Sampler.dfy` and `Timeline.dfy`.
- The in-between of a promise settling and its callbacks is one step, except in the load generators, where an answer and what its promise triggers are separate steps.
- Settle.LateWakesDoNotInterfere: the shortened run keeps its drains even while a wake it no longer delivers is on its way, so it is a run of the same steps without the rule that a pending wake holds a drain back.
- Leg timings, leg error texts and the order in which legs report in `fanout`; offset paging.
- Timestamp parsing (`tsMicros`) and the query text of `pageQuery`.
- Failure texts (`modes`), log lines, and the deadline around one probe in the sampler.
- In `disk-change.ts`: `pathPhaseStats` (one record per phase with the counts, the outage figures, the longest gap, the median and the longest latency of its samples), `quantile` (the element at rank `ceil(q * n)` of a sorted list) and the node metrics (disk and CPU counters read from exporter text, and their differences over time).
- The `--trim` mode and the printed lines of `sleep-overlap.ts`.
- The rest of the PNG encoder (deflate, scan lines) and `refreshThenRetry`.
- The rounding of the number of scheduled requests, the recorded send lags and the summaries of `load.ts`.
- Provisioning, Management API, Storage, Auth and Docker helpers, regular-expression work, cryptography and report rendering.
