# melisai, modelled and proved in Dafny

melisai collects performance data from a Linux host, scores the host's health and shares reports
through a small web service. This project models the algorithmic cores of that program and proves
what each promises over every input, every schedule or every history.

| area | modules |
|---|---|
| the two-phase orchestrator as an interleaving step system, up to the final report | `Orchestrator`, `OrchestratorRuns`, `Registration`, `FinalReport` |
| the BCC executor: main, waiter, watcher, child, context, signals and pooled buffers | `BccExecutor`, `BccLatency`, `LimitedOutput` |
| histograms, per-disk sections, folded stacks and the flame layout | `HistogramStats`, `HistogramParser`, `LineGrammar`, `PrintedSections`, `DiskLatency`, `FoldedStacks`, `FlameGraph`, `FlameGraphDrawn`, `FlameGraphWritten` |
| scoring: resource metrics, threshold rules, health score | `UseMetrics`, `MetricValues`, `AnomalyRules`, `RuleShapes`, `FieldRules`, `MeasuredRules`, `RuleVerdicts`, `HistogramVerdicts`, `Health` |
| the share backend: codes, store histories, retries, retention | `Codec`, `ShareStore` |
| counters, `/proc` lines, top lists, event aggregation | `CpuTimes`, `ProcStat`, `TopLists`, `Aggregate` |
| shared vocabulary | `Report`, `Seqs`, `Text` |

`dafny verify dfyconfig.toml` checks the whole project.

## How the source is read

- `float64` is `real`; rounding and NaN are not part of the model. `uint64` counters in `CpuTimes`
  and `TopLists` wrap modulo 2^64, and so do the int64 sums over histogram buckets and stack counts;
  the parsers' integers are clamped to the int64 and uint64 ranges.
- A loop over a Go map visits the keys in some order nobody chooses: methods take an arbitrary
  enumeration, and contracts say what holds for all of them.
- `sort.Slice` is known only as "a sorted permutation", since it is not stable.
- Goroutines are steps of a state machine. The append under the mutex is split into lock, load,
  store and unlock, so a missing lock would lose results in the model as it would in the program.
- Clocks, random bytes, the database's health, collector outcomes and installed tools are parameters.
- White space is ASCII, and the regular expressions are written as direct recognisers.

## Results that differ from what the comments or tests suggest

- Device-mapper disks are confused. A header reads as the leading word of its name, so `dm-0` and
  `dm-1` both become `dm`, the second replaces the first, and the histogram, of a device nobody
  knows, feeds the SSD and the HDD rule (`PrintedSections.DeviceMapperCollides`,
  `DiskLatency.DeviceMapperFeedsBoth`). Disks come back exactly when all names are words
  (`PrintedSections.DisksComeBackIff`).
- Histogram statistics break at the edge of int64, because the bounds of a bucket are added before
  they are halved. On the log2 bucket that ends at 2^63 - 1 the midpoint is negative: percentiles and
  mean lose their order (`HistogramStats.TopBucketBreaksOrder`; exactly when,
  `HistogramStats.StatsOrderIff`, `HistogramStats.PercentileRefinement`,
  `HistogramStats.PercentileWithinThirdIff`), and the disk drops out of both rules
  (`DiskLatency.TopBucketHidden`). Counts that add up past int64 make the total negative
  (`HistogramStats.CountsOverflow`, `HistogramStats.TotalCountIff`), and in a flame graph leave
  nothing drawn (`FlameGraph.TwoHugeStacks`, `FlameGraph.WidthsFillSpanIff`).
- `LimitedWriter` also reports truncation when nothing was lost: an empty write that arrives at the
  limit sets the flag (`LimitedOutput.LateEmptyWrite`; exact condition in
  `LimitedOutput.LimitedPrefix`).
- `readProcPID` panics on a line whose last byte is `)` or whose `(` all follow its `)`
  (`ProcStat.PanicExamples`, `ProcStat.PanicIff`). No line the kernel prints is among them
  (`ProcStat.StatRoundTrip`).
- A histogram whose device is unknown feeds the SSD rule and the HDD rule at once
  (`AnomalyRules.UnknownFeedsBoth`, `AnomalyRules.FeedsBothIff`).
- The flame graph tiles until it is written: rounding to one decimal can make neighbours overlap by
  a tenth, and never by more (`FlameGraphWritten.WrittenOverlap`, `FlameGraphWritten.WrittenTilesIff`,
  `FlameGraphWritten.WrittenNearlyTiles`).
- The report is determined by its inputs only because collector names are distinct: sorting by name
  alone leaves ties open (`OrchestratorRuns.ReportDeterminedIff`), and registration is what rules
  them out (`Registration.RegisteredDistinct`).
- The IRQ imbalance reading falls when an idle CPU gets busier (`RuleShapes.EvenerReadsLower`;
  exactly when, `RuleShapes.RaisingLowersIff`).
- The seven CPU percentages sum to 100 exactly when the observed deltas add up to a number strictly
  between 0 and 2^64, which a counter that goes back violates (`CpuTimes.CounterGoesBack`,
  `CpuTimes.SumIs100Iff`).

## Model

| member | source | states |
|---|---|---|
| `Orchestrator.NextInv` | internal/orchestrator/orchestrator.go:172-237 | every step of main, of any goroutine and of the context keeps: the WaitGroup counts the live goroutines, the mutex has one holder, a loaded view is still current, and the results hold exactly the deposits made |
| `Orchestrator.PoolStored` | internal/orchestrator/orchestrator.go:227-231 | storing the extended slice while holding the mutex adds exactly one result to one category and loses none |
| `Orchestrator.GoInv` | internal/orchestrator/orchestrator.go:181-232 | every step of a collector goroutine, the panic path included, keeps the invariant |
| `Orchestrator.MainInv` | internal/orchestrator/orchestrator.go:98-113 | spawning, waiting and the context check between the phases keep the invariant |
| `OrchestratorRuns.RunInv` | internal/orchestrator/orchestrator.go:96-113 | the invariant holds in every state of every run |
| `OrchestratorRuns.Barrier` | internal/orchestrator/orchestrator.go:98-113 | a collector outside Tier 1 has started only if earlier in the run all Tier 1 goroutines had finished and the context was live |
| `OrchestratorRuns.UncancelledStartsAll` | internal/orchestrator/orchestrator.go:103-113 | a run whose context was never cancelled has started every collector by the time it merges |
| `OrchestratorRuns.RunsAreBounded` | internal/orchestrator/orchestrator.go:172-237 | every run has at most a number of steps fixed by the plan |
| `OrchestratorRuns.NeverStuck` | internal/orchestrator/orchestrator.go:172-237 | until the merge some step other than cancellation is always possible: no deadlock |
| `OrchestratorRuns.Conservation` | internal/orchestrator/orchestrator.go:118-122 | at the merge the two phases together hold, per category, exactly the multiset of results the started collectors owe |
| `OrchestratorRuns.DeliveredExactlyOnce` | internal/orchestrator/orchestrator.go:172-237 | with distinct names each started collector occurs exactly once in its category: what it returned, unchanged; after a failure or panic a result with its name, category and tier, no data and the error or panic text; nothing if it returned nil |
| `OrchestratorRuns.Delivered` | internal/orchestrator/orchestrator.go:118-232 | whatever the names, a result occurs in a category of the report exactly as often as started collectors of that category returned it or failed or panicked with it |
| `OrchestratorRuns.NothingElse` | internal/orchestrator/orchestrator.go:118-232 | every entry of the report stands for a started collector of its category and is what that returned, or the record of its failure or panic |
| `OrchestratorRuns.MergePhases` | internal/orchestrator/orchestrator.go:118-122 | for any iteration order, the merged map has the keys of both phases and per key the first phase's results followed by the second's |
| `OrchestratorRuns.BuildCategories` | internal/orchestrator/orchestrator.go:118-133 | the report's categories are the merged ones, each a permutation sorted by collector name |
| `OrchestratorRuns.ReportSorted` | internal/orchestrator/orchestrator.go:124-133 | within a category collector names are in dictionary order |
| `OrchestratorRuns.Confluence` | internal/orchestrator/orchestrator.go:118-133 | two finished runs that did the same work, under any schedules and map orders, give equal categories |
| `OrchestratorRuns.ReportDeterminedIff` | internal/orchestrator/orchestrator.go:124-133 | the sorted report is unique if and only if no category holds two different results with the same collector name |
| `OrchestratorRuns.NamesOnce` | internal/orchestrator/orchestrator.go:118-133 | with distinct names a collector name occurs at one place of the whole report |
| `Seqs.SortDeterministicIff` | internal/orchestrator/orchestrator.go:126-128 | an unstable sort has one possible outcome if and only if no two different elements compare equal |
| `Seqs.StringLeqIff` | internal/orchestrator/orchestrator.go:126-128 | the order of names: a prefix, or smaller at the first difference |
| `Registration.Registrar.AddBCC` | internal/orchestrator/orchestrator.go:392-414 | asking for one more tool keeps the collectors equal to the Tier 1 list followed by the built tools in first-asked order |
| `Registration.Registrar.AddAll` | internal/orchestrator/orchestrator.go:425-435 | the same for a whole list, duplicates included |
| `Registration.RegisterCollectors` | internal/orchestrator/orchestrator.go:354-438 | the registered list is the Tier 1 list followed by one collector per distinct available tool asked for, for some order of the registry |
| `Registration.RegisteredDistinct` | internal/orchestrator/orchestrator.go:376-437 | registered names are pairwise distinct for any profile and extra list |
| `Registration.RegisteredExactly` | internal/orchestrator/orchestrator.go:392-437 | a collector is registered if and only if it is Tier 1 or an available tool that was asked for and does not carry a Tier 1 name |
| `Registration.FilterCollectors` | internal/orchestrator/orchestrator.go:254-304 | the active collectors are, in order, exactly those the profile and focus keep |
| `Registration.SplitTiers` | internal/orchestrator/orchestrator.go:85-93 | the two lists are the Tier 1 and the other collectors, in order |
| `Registration.SelectDistinct` | internal/orchestrator/orchestrator.go:85-93 | filtering keeps names distinct |
| `Registration.RunsExactly` | internal/orchestrator/orchestrator.go:254-437 | for any registry order a collector runs if and only if it is one of the eight fixed ones or a usable tool the profile wants under another name, the profile lists it unless it starts with "all", and above Tier 1 it is in focus, "stacks" meaning "stacktrace" |
| `FinalReport.ActivatedPermutation` | internal/orchestrator/orchestrator.go:82-83 | any two registry orders activate the same collectors up to order, under distinct names |
| `FinalReport.ActivatedExactly` | internal/orchestrator/orchestrator.go:82-83 | the collectors a configuration activates are exactly those of `Registration.RunsExactly` |
| `FinalReport.PlanNamesDistinct` | internal/orchestrator/orchestrator.go:85-93 | the plan of a run has distinct contributed names, whatever the collectors' outcomes |
| `FinalReport.PlanSplitsTiers` | internal/orchestrator/orchestrator.go:85-93 | the plan puts the Tier 1 collectors, and no others, into the first phase, each with its own outcome |
| `FinalReport.TierBarrier` | internal/orchestrator/orchestrator.go:82-113 | once a collector outside Tier 1 has started, at an earlier moment every Tier 1 collector had finished and the context was live |
| `FinalReport.MakePlan` | internal/orchestrator/orchestrator.go:82-93 | registering, filtering and splitting gives the plan of some order of the registry |
| `FinalReport.MakeReport` | internal/orchestrator/orchestrator.go:118-164 | merging, sorting, metrics, anomalies and score of the two phases are those the lemmas speak of |
| `FinalReport.ScheduleIndependence` | internal/orchestrator/orchestrator.go:82-164 | for fixed outcomes, any two complete executions that agree on whether the second phase ran (registry orders, interleavings, map orders all arbitrary) give equal categories, equal anomaly lists and equal health scores |
| `FinalReport.UncancelledIndependence` | internal/orchestrator/orchestrator.go:82-164 | the same without that hypothesis for any two executions that are not cancelled |
| `FinalReport.ResultsReachReport` | internal/orchestrator/orchestrator.go:82-164 | in an execution nobody cancels every collector that runs finds its result once in its category, as returned, or the record of how it failed |
| `BccExecutor.NextInv` | internal/executor/executor.go:108-148 | every step of main, waiter, watcher, child and context keeps the handshake and escalation invariant |
| `BccExecutor.RunInv` | internal/executor/executor.go:108-148 | the invariant holds in every state of every run |
| `BccExecutor.Safety` | internal/executor/executor.go:108-148 | in every state of every run: no signal without cancellation, SIGKILL only after SIGINT plus three seconds, the wait error sent and received at most once, `exited` closed once and after the send, Run returned only after the child was reaped |
| `BccExecutor.ReturnsWaitError` | internal/executor/executor.go:108-148 | when main has received, the child was waited for exactly once before, and main holds the very error that wait reported |
| `BccExecutor.FailsIff` | internal/executor/executor.go:146-196 | Run answers with an error if and only if the context is live and that wait failed other than by an exit status, and then with its text under the name of the tool |
| `BccExecutor.NoLeak` | internal/executor/executor.go:111-144 | once the child is gone, as long as main, waiter or watcher is unfinished one of them can take a step by itself |
| `BccExecutor.FuelDecreases` | internal/executor/executor.go:108-148 | every step but the passing of time uses up one of at most ten units, so the protocol ends |
| `BccLatency.NextTimely` | internal/executor/executor.go:119-148 | when every goroutine moves within the latency and SIGKILL kills, every step keeps the deadline of each stage |
| `BccLatency.CancelledCanMove` | internal/executor/executor.go:119-148 | a cancelled run that has not returned can always go on without the child exiting of its own accord, and after the grace period by a goroutine's own move, not by waiting |
| `BccLatency.RemainingShrinks` | internal/executor/executor.go:119-148 | every move of a cancelled run that has not returned uses up part of its at most ten moves and its time |
| `BccLatency.EndsWithinGrace` | internal/executor/executor.go:55-148 | for any latency and an effective SIGKILL, over every run: a cancelled run cannot stay unreturned beyond a fixed number of steps, is never stuck and never past three seconds plus seven latencies while it has not returned, and returns by then |
| `BccLatency.PromptRunEndsInGrace` | internal/executor/executor.go:55-148 | with goroutines that act at once, it returns within three seconds |
| `BccLatency.ClockedIsRun` | internal/executor/executor.go:108-148 | a clocked run is a run, so it is safe |
| `BccExecutor.SystemNextInv` | internal/executor/executor.go:85-90 | any number of concurrent runs sharing the pool: taking each buffer, launching, failing to start, stepping, finishing, giving each buffer back and the pool dropping one, in any order, keep ownership exclusive |
| `BccExecutor.HistoryInv` | internal/executor/executor.go:85-148 | that invariant holds throughout every history |
| `BccExecutor.BuffersExclusive` | internal/executor/executor.go:19-90 | at every moment no buffer is held by two runs, none held is in the pool, a run with a child holds two different ones, and a buffer goes back only if the child was never started or has been reaped |
| `BccExecutor.BuffersConserved` | internal/executor/executor.go:19-90 | every buffer ever allocated is in the pool, held by a run or was dropped by the pool |
| `BccExecutor.RunsGetOn` | internal/executor/executor.go:85-148 | whatever other runs do, a run can take pooled or new buffers until it has two, then launch or fail to start; it can move until it has returned and then finish; and what it gives back is in the pool |
| `LimitedOutput.LimitedWriter.Write` | internal/executor/executor.go:212-230 | every call reports its whole input consumed and moves the state as the specification says |
| `LimitedOutput.LimitedPrefix` | internal/executor/executor.go:204-230 | after any writes and for any limit the buffer is exactly the first min(limit, total) bytes of their concatenation, with the exact condition for the truncation flag |
| `LimitedOutput.LateEmptyWrite` | internal/executor/executor.go:213-218 | bytes that fit exactly, followed by an empty write, set the flag although nothing was dropped |
| `LimitedOutput.TruncatedIff` | internal/executor/executor.go:212-230 | for non-empty writes the flag is set if and only if the total exceeds the limit |
| `HistogramStats.ComputePercentile` | internal/executor/parsers.go:170-186 | the loop over int64 sums returns the int64 midpoint of the first bucket whose cumulative count reaches total*p rounded up, and without one the last bound or zero |
| `HistogramStats.Accumulate` | internal/executor/parsers.go:145-157 | the loop yields the int64 sum of counts and the count-weighted mean of the int64 midpoints |
| `HistogramStats.HistogramCell.ComputeStats` | internal/executor/parsers.go:144-168 | all fields set from the int64 sums, name, unit and buckets untouched, for any buckets and counts |
| `HistogramStats.FallThroughUnreachable` | internal/executor/parsers.go:175-185 | whatever the counts, unless their int64 sum is negative, the loop finds a bucket for any quantile in [0,1] |
| `HistogramStats.TotalCountIff` | internal/executor/parsers.go:145-155 | TotalCount is the sum of the counts if and only if that sum is an int64 |
| `HistogramStats.CountsOverflow` | internal/executor/parsers.go:145-158 | counts for which it is not: the total turns negative and the mean is dropped |
| `HistogramStats.PercentileOrderIff` | internal/executor/parsers.go:170-186 | percentiles ascend from the first bound to the last if and only if the bounds of the bucket picked for the larger quantile add up to an int64 |
| `HistogramStats.MeanOrderIff` | internal/executor/parsers.go:149-158 | the mean lies between the first and the last bound if and only if what the overflowing buckets take away leaves the weighted sum above its floor |
| `HistogramStats.StatsOrderIff` | internal/executor/parsers.go:144-168 | first low <= P50 <= P90 <= P99 <= P999 <= Max, and first low <= Mean <= Max, each with its exact condition, and TotalCount is the sum |
| `HistogramStats.StatsOrder` | internal/executor/parsers.go:144-168 | both orders hold when the bounds of the last bucket add up to an int64 |
| `HistogramStats.TopBucketBreaksOrder` | internal/executor/parsers.go:149-183 | with half of the samples in the log2 bucket that ends at the largest int64, P90, P99, P999 and the mean are negative |
| `HistogramStats.AtMostIsCumulative` | internal/executor/parsers.go:177-178 | for samples counted into the buckets, a cumulative count is the number of samples up to the bucket's bound |
| `HistogramStats.RankedSample` | internal/executor/parsers.go:175-183 | the bucket chosen for rank t contains the t-th smallest sample |
| `HistogramStats.PercentileRefinement` | internal/executor/parsers.go:170-186 | for every non-empty collection of samples, any p in (0,1] and t with t-1 < n*p <= t, the reported bucket holds the t-th smallest sample, and the percentile is within half a bucket width of it if and only if the bounds of that bucket add up to an int64 |
| `HistogramStats.StatsRefinement` | internal/executor/parsers.go:144-186 | P50, P90, P99 and P999 are reported from the buckets that hold the samples of ranks n/2, 9n/10, 99n/100 and 999n/1000 rounded up, TotalCount is the number of samples, and Max is the last bound and no less than any sample |
| `HistogramStats.PercentileWithinThirdIff` | internal/executor/parsers.go:170-186 | when the bucket of the t-th smallest sample, t = ceil(n*p), is [2^k, 2^(k+1)-1] with 1 <= k <= 62, that sample lies strictly between 2/3 and 4/3 of the reported percentile if and only if k <= 61 |
| `HistogramParser.ParseHistogram` | internal/executor/parsers.go:47-75 | an error exactly when no line is a bucket, otherwise the buckets of the lines in order with their statistics |
| `HistogramParser.BucketsInRange` | internal/executor/parsers.go:52-64 | bounds and counts that are read are int64 values that are not negative |
| `HistogramParser.StripANSIPlain` | internal/executor/parsers.go:17-28 | text without the escape character is unchanged |
| `LineGrammar.BucketLineIff` | internal/executor/parsers.go:19-61 | a line is read as a bucket if and only if it is white space, digits, `->`, digits, `:`, digits and anything that is no further digit, with white space in between, and the bucket is made of the three numbers, clamped to int64 |
| `LineGrammar.DiskHeaderIff` | internal/executor/parsers.go:21-22 | a line names a disk if and only if the leftmost place that reads `disk`, in any case, `=`, an optional quote and a word does, as far as the word goes; none if and only if there is no such place |
| `LineGrammar.SequenceErased` | internal/executor/parsers.go:17-28 | an escape sequence is taken out wherever it stands, whatever surrounds it, and nothing else with it |
| `LineGrammar.UnchangedIff` | internal/executor/parsers.go:17-28 | a text is unchanged if and only if no escape sequence stands anywhere in it |
| `HistogramParser.SplitDiskSections` | internal/executor/parsers.go:120-142 | the loop that reuses one line buffer computes the same sections as the buffer-free definition |
| `HistogramParser.EveryTextIsCut` | internal/executor/parsers.go:120-142 | every output is a preamble followed by blocks, each a header line and lines that are no headers |
| `HistogramParser.SectionsRecovered` | internal/executor/parsers.go:120-142 | for every output the sections are exactly the bodies of the last non-empty block of each disk, although one line buffer is reused |
| `HistogramParser.TextBucketsByLine` | internal/executor/parsers.go:47-75 | escape sequences never span lines: the buckets of a text are those of its lines, each stripped by itself |
| `HistogramParser.ParsePerDiskHistogram` | internal/executor/parsers.go:95-118 | for any map order, one histogram per section that parses, under the name prefix plus the disk, and an error exactly when there is none |
| `PrintedSections.RowReadsBack` | internal/executor/parsers.go:19-61 | the bucket recogniser reads back any printed row, whatever its padding and bar |
| `PrintedSections.HeaderReadsWord` | internal/executor/parsers.go:21-22 | a header, quoted or bare, reads as the leading word of the name |
| `PrintedSections.HeaderReadsBackIff` | internal/executor/parsers.go:21-22 | a name comes back from its header if and only if it is a non-empty word |
| `PrintedSections.SectionReadsBack` | internal/executor/parsers.go:47-75 | caption, rows and any further lines of a printed section parse to exactly its buckets |
| `HistogramParser.PerDiskPipeline` | internal/executor/parsers.go:95-142 | for every output: a disk has a section if and only if it has a non-empty block, and its histogram is that of exactly the buckets in its last such block, or an error when there are none |
| `HistogramParser.DistinctDisks` | internal/executor/parsers.go:95-142 | with one non-empty block per disk every disk and no other comes back, each with its own buckets |
| `PrintedSections.WordsComeBack` | internal/executor/parsers.go:95-142 | the same for printed sections under quoted or bare headers, with blank lines between them |
| `PrintedSections.DisksComeBackIff` | internal/executor/parsers.go:95-142 | every printed disk comes back under its own name with its own buckets if and only if all names are words |
| `PrintedSections.DeviceMapperCollides` | internal/executor/parsers.go:21-142 | sections of `dm-0` and `dm-1` become one section `dm` with the buckets of the second |
| `DiskLatency.SectionFeedsItsRule` | internal/model/anomaly.go:756-819 | from any raw text to the rule: a disk's block becomes a histogram with exactly its buckets whose name gives the disk back and which, when its P99 is positive, is eligible for the rule of its own kind only, or for both when the disk is unknown |
| `DiskLatency.OverflowHidesDisk` | internal/model/anomaly.go:770-805 | a disk whose P99 falls in a bucket with bounds past the int64 range has a negative P99 and is eligible for neither rule |
| `DiskLatency.TopBucketHidden` | internal/model/anomaly.go:770-805 | the log2 bucket that ends at the largest int64 is such a bucket |
| `DiskLatency.DeviceMapperFeedsBoth` | internal/model/anomaly.go:782-819 | the merged `dm` histogram feeds the SSD and the HDD rule |
| `FoldedStacks.ParseFoldedStacks` | internal/executor/parsers.go:285-321 | the result is a permutation, by descending count, of the stacks on the lines |
| `FoldedStacks.LineStackIff` | internal/executor/parsers.go:291-312 | a line carries a stack if and only if, white space at its ends aside, it is a stack that begins with neither white space nor `#`, a space and an int64 numeral |
| `FoldedStacks.GenerateFlameGraphFromFolded` | internal/output/flamegraph.go:116-122 | the builder loop prints one line per stack |
| `FoldedStacks.PrintParse` | internal/output/flamegraph.go:116-122 | stacks that are non-empty, on one line and start with neither white space nor `#`, with an int64 count, are read back from their printed form |
| `FoldedStacks.RoundTripIff` | internal/executor/parsers.go:285-321 | the round trip holds if and only if every stack is in that domain |
| `FoldedStacks.ParsedFoldable` | internal/executor/parsers.go:288-313 | everything the parser returns is in that domain, for any raw text |
| `FoldedStacks.ParsePrintParse` | internal/executor/parsers.go:285-321 | parse, print, parse keeps the multiset of stacks for every raw text |
| `FlameGraph.GenerateFlameGraphSVG` | internal/output/flamegraph.go:15-113 | sorts its argument in place, in dictionary order of the stacks, and writes the rectangles of the layout, rounded to tenths; nothing if and only if there are no stacks, no finite coordinates if and only if the int64 sum of the counts is zero |
| `FlameGraph.PlaceFrames` | internal/output/flamegraph.go:56-73 | the loops with the running offset place every frame where the layout says |
| `FlameGraph.PlaceColumn` | internal/output/flamegraph.go:62-71 | one frame per function of the stack, stacked by depth |
| `FlameGraph.Draw` | internal/output/flamegraph.go:81-109 | the frames wide and low enough to draw, in order, as written with one decimal |
| `FlameGraph.Label` | internal/output/flamegraph.go:89-97 | a label never exceeds the characters that fit, is whole when it fits, and otherwise a prefix of the name with two dots or nothing |
| `FlameGraph.WidthsFillSpanIff` | internal/output/flamegraph.go:24-73 | stack widths sum to exactly width - 20 if and only if the sum of the counts is an int64 |
| `FlameGraph.OverflowDrawsNothing` | internal/output/flamegraph.go:24-84 | when counts that are not negative have a negative int64 sum nothing is drawn |
| `FlameGraph.TwoHugeStacks` | internal/output/flamegraph.go:24-84 | two such counts |
| `FlameGraph.FramesTile` | internal/output/flamegraph.go:56-73 | placed frames lie left of the offset and no two at one depth overlap |
| `FlameGraph.FlameGraphTiles` | internal/output/flamegraph.go:25-97 | before rounding, for non-negative counts whose sum is a positive int64, every rectangle lies in [10, width - 10], no two overlap and every label fits |
| `FlameGraphDrawn.DrawnExactly` | internal/output/flamegraph.go:56-103 | every function of every stack that is at least a unit wide and at depth 21 or less is drawn, and nothing else: x and width in proportion to the samples before its stack and in it across 1180 units, y = 370 - 16 * depth, and its name, cut to the characters that fit at seven units each |
| `FlameGraphWritten.WrittenNearlyTiles` | internal/output/flamegraph.go:81-109 | as written, every rectangle keeps the left margin, passes the right one by at most a tenth, and no two overlap by more than a tenth |
| `FlameGraphWritten.WrittenTilesIff` | internal/output/flamegraph.go:99-101 | the written rectangles are free of overlap if and only if, computed from the counts, no rounded right edge of a wide column passes the rounded left edge of a later one |
| `FlameGraphWritten.WrittenOverlap` | internal/output/flamegraph.go:99-101 | counts for which two written rectangles overlap |
| `AnomalyRules.ExtractInverts` | internal/model/anomaly.go:811-819 | extracting the device undoes the name prefix |
| `AnomalyRules.EvaluateP99` | internal/model/anomaly.go:756-807 | for any order of the categories, the reading is the largest eligible P99 in milliseconds and found if and only if there is one |
| `AnomalyRules.LargestConsideredUnique` | internal/model/anomaly.go:770-805 | that reading does not depend on the order |
| `AnomalyRules.KnownDeviceFeedsOne` | internal/model/anomaly.go:782-791 | a known device with positive P99 feeds the rule of its kind and not the other |
| `AnomalyRules.FeedsBothIff` | internal/model/anomaly.go:782-791 | a histogram feeds both rules if and only if its P99 is positive and its device is unnamed or unknown |
| `AnomalyRules.UnknownFeedsBoth` | internal/model/anomaly.go:782-791 | a concrete histogram that does |
| `AnomalyRules.EvaluateFirstHistogram` | internal/model/anomaly.go:350-363 | the mean of a named histogram found in some category, absent if and only if none has one |
| `AnomalyRules.SomeMeanUnique` | internal/model/anomaly.go:350-363 | with each collector in one place of the report that mean does not depend on the map order |
| `AnomalyRules.Evaluate` | internal/model/anomaly.go:26-35 | every kind of evaluator gives a reading its rule allows |
| `AnomalyRules.DetectAnomalies` | internal/model/anomaly.go:822-852 | in rule order, a rule contributes one anomaly if and only if its reading was found and reaches its critical or its warning threshold; the anomaly is critical if and only if it reaches the critical one, and carries the rule's category, metric, reading and thresholds |
| `AnomalyRules.FlagsIsDetected` | internal/model/anomaly.go:822-852 | that description determines the list: it is the one the recursive form computes |
| `AnomalyRules.AnomaliesDeterministic` | internal/model/anomaly.go:822-852 | with each collector in one place, one report has one anomaly list |
| `RuleVerdicts.VerdictOf` | internal/model/anomaly.go:822-852 | a rule whose metric no other rule has raises a critical anomaly if and only if its reading reaches the critical threshold, and a warning if and only if it lies between the two |
| `RuleVerdicts.CpuVerdict` | internal/model/anomaly.go:23-39 | in any rule list with it, the CPU rule is critical if and only if at most 5 per cent are idle, a warning from 20 down |
| `RuleVerdicts.LoadVerdict` | internal/model/anomaly.go:57-75 | critical from a load of four per CPU, a warning from two |
| `RuleVerdicts.MemoryVerdict` | internal/model/anomaly.go:77-95 | critical once at most 5 per cent are available, a warning once at most 15 |
| `RuleVerdicts.SwapVerdict` | internal/model/anomaly.go:96-114 | critical from half the swap space in use, a warning from a tenth |
| `RuleVerdicts.RetransmitVerdict` | internal/model/anomaly.go:221-239 | critical from 50 a second, a warning from 10 |
| `RuleVerdicts.DiskVerdict` | internal/model/anomaly.go:260-276 | critical if and only if a device was busy for 900 milliseconds of a second, a warning from 700 |
| `RuleVerdicts.ThrottleVerdict` | internal/model/anomaly.go:278-294 | critical from 1000 throttled periods, a warning from 100 |
| `RuleVerdicts.ContainerVerdict` | internal/model/anomaly.go:295-313 | critical from 95 per cent of the memory limit, a warning from 80 |
| `RuleVerdicts.LatencyVerdict` | internal/model/anomaly.go:409-433 | critical if and only if a device of the first disk result with a positive average averages 50 milliseconds, a warning from 5 |
| `RuleVerdicts.ErrorsVerdict` | internal/model/anomaly.go:435-459 | critical if and only if an interface of the first network result with any errors has 100 a second, a warning from 10 |
| `RuleVerdicts.ImbalanceVerdict` | internal/model/anomaly.go:607-642 | given a CPU with 100 interrupts, critical if and only if one took twenty times as many as another, a warning from five times |
| `HistogramVerdicts.KnownDevices` | internal/model/anomaly.go:758-768 | a device counts as rotating or not as the last disk entry with its name says |
| `HistogramVerdicts.EligibleIff` | internal/model/anomaly.go:776-792 | a P99 rule looks at a histogram if and only if its P99 is positive and it is not a block I/O histogram named after a device of the other kind |
| `HistogramVerdicts.ReadingSlow` | internal/model/anomaly.go:756-807 | the reading of a P99 rule reaches a number of milliseconds if and only if some histogram it looks at does, microseconds counting a thousandth |
| `HistogramVerdicts.DiskP99Verdicts` | internal/model/anomaly.go:315-329 | the SSD rule is critical from a P99 of 25 ms and warns from 5, the HDD rule from 200 and 50 |
| `HistogramVerdicts.OtherP99Verdicts` | internal/model/anomaly.go:331-345 | the run queue rule from 50 and 10 ms, the name lookup rule from 200 and 50 |
| `HistogramVerdicts.CacheVerdict` | internal/model/anomaly.go:347-367 | the cache rule from a mean miss ratio of 15 and 5 in the first histogram of that name of its collector |
| `RuleShapes.ProbeLargest` | internal/model/anomaly.go:416-424 | the loop answers with the largest positive entry, and passes on if and only if there is none |
| `RuleShapes.LargestMonotone` | internal/model/anomaly.go:416-424 | raising or adding entries never lowers that reading |
| `RuleShapes.ProbeImbalance` | internal/model/anomaly.go:613-634 | the reading is the largest ratio between any two CPUs (a count below one taken as one), found if and only if some CPU has a hundred events |
| `RuleShapes.DiskLatencyReading` | internal/model/anomaly.go:412-428 | the latency rule reads the largest positive latency of the first disk result that has one, absent if and only if none has |
| `RuleShapes.ImbalanceReading` | internal/model/anomaly.go:610-637 | the imbalance rule reads the spread of the first network result with more than one CPU |
| `RuleShapes.ImbalanceValue` | internal/model/anomaly.go:613-634 | the reading is the maximum over the clamped minimum |
| `RuleShapes.ImbalanceMonotone` | internal/model/anomaly.go:613-634 | the reading never falls as the distribution widens at both ends |
| `RuleShapes.RaisingLowersIff` | internal/model/anomaly.go:613-634 | raising one CPU's count lowers the reading if and only if there is one, that CPU alone is at the clamped minimum, and the minimum rises by a larger factor than the maximum |
| `RuleShapes.EvenerReadsLower` | internal/model/anomaly.go:613-634 | a concrete pair of distributions where raising one count lowers the reading |
| `Health.ComputeHealthScore` | internal/model/health.go:6-59 | for any map order the score is 100 less the deductions, clamped to [0,100] |
| `Health.OneResource` | internal/model/health.go:6-77 | the exact score of a host with one resource, in whole points for every band of utilization (70, 85, 95), saturation (1, 10, 50) and errors (0, 100, 1000) and every weight class: cpu and memory lose 4, 12 and 22, disk and network 3, 8 and 15, containers 3, 9 and 18, others 1, 4 and 7 |
| `Health.ResourcesAdd` | internal/model/health.go:10-58 | a further resource costs exactly what it costs alone, down to zero, and an empty report scores 100 |
| `Health.AnomaliesAdd` | internal/model/health.go:41-58 | a further critical anomaly costs exactly ten points and a warning five, down to zero |
| `Health.OrderIrrelevant` | internal/model/health.go:10-39 | the deductions do not depend on the order of the resources |
| `Health.TotalMonotone` | internal/model/health.go:10-39 | worse or additional resources never deduct less, truncation included |
| `AnomalyRules.DetectedMonotone` | internal/model/anomaly.go:822-852 | higher or newly found readings never cost fewer points |
| `AnomalyRules.ScoreMonotone` | internal/model/health.go:6-77 | raising any reading, making an absent one found, adding a resource or raising its metrics never raises the score, which stays in [0,100] |
| `Health.TruncatedPoints` | internal/model/health.go:17-77 | weighting and truncating any number of points is, in whole numbers, times 3/2, 1, 6/5 or 1/2 rounded down |
| `Health.DeductionBound` | internal/model/health.go:10-39 | one resource costs at most 59 points, and exactly that if and only if it is cpu or memory above all top thresholds |
| `Health.PerfectScoreIff` | internal/model/health.go:6-59 | the score is 100 if and only if there is no anomaly and every resource is below all first thresholds |
| `UseMetrics.ComputeUSEMetrics` | internal/model/report.go:5-100 | the resource map holds each resource's metric from the first matching result, and the container ones from the last |
| `UseMetrics.AddContainers` | internal/model/report.go:69-97 | the container loop, which overwrites, leaves the last limited and the last capped container |
| `UseMetrics.ComputeDiskUtilization` | internal/model/report.go:121-135 | the busiest device, capped at 100 |
| `UseMetrics.ComputeDiskSaturation` | internal/model/report.go:137-145 | the deepest queue |
| `UseMetrics.ComputeNetErrors` | internal/model/report.go:154-165 | the sum of the error rates, truncated toward zero |
| `UseMetrics.BusiestIsMax` | internal/model/report.go:121-145 | those two are upper bounds of their lists and attained unless zero |
| `UseMetrics.DiskMeaning` | internal/model/report.go:121-145 | utilization is in [0,100] and 100 if and only if a device was busy a full second; saturation bounds every queue |
| `UseMetrics.MemoryAndCPUMeaning` | internal/model/report.go:102-119 | memory utilization is in [0,100] and 100 if and only if nothing is available; CPU saturation is positive if and only if the load exceeds the CPUs |
| `MetricValues.MeasuredResources` | internal/model/report.go:5-100 | a resource is in the metrics if and only if some result of its category measured it, a container only under a runtime and with a quota or a limit |
| `MetricValues.CpuInNumbers` | internal/model/report.go:8-21 | from the first CPU result: utilization is what is not idle, saturation times the CPUs is a hundred times the load beyond them |
| `MetricValues.MemoryInNumbers` | internal/model/report.go:23-39 | from the first memory result: utilization times the total is a hundred times what is not available, saturation the same of the swap space |
| `MetricValues.DiskInNumbers` | internal/model/report.go:41-53 | from the first disk result: ten times the utilization is the busiest device's milliseconds up to 1000, saturation the deepest queue |
| `MetricValues.NetworkInNumbers` | internal/model/report.go:55-67 | from the first network result: saturation counts the connections that wait to be closed, errors is the whole part of the summed rates |
| `MetricValues.ContainerInNumbers` | internal/model/report.go:69-97 | from the last limited container: utilization times the quota is the throttled seconds times the period in per cent, saturation the throttled periods; from the last capped one: utilization times the limit is a hundred times the usage |
| `UseMetrics.MetricsMonotone` | internal/model/report.go:5-165 | worse raw measurements never improve any resource metric |
| `FieldRules.FieldRulesSteady` | internal/model/anomaly.go:23-318 | each of eight rules over measured fields reads no less when the results are measured under more pressure |
| `FieldRules.RawScoreMonotone` | internal/model/health.go:6-77 | worse raw measurements never raise the score of a report, through metrics, readings, detection and clamping, for all such rules |
| `FieldRules.FieldScoreMonotone` | internal/model/health.go:6-77 | the same for the eight rules with the thresholds of the source |
| `MeasuredRules.P99Rises` | internal/model/anomaly.go:756-807 | no P99 rule reads less when no histogram has a lower P99 |
| `MeasuredRules.RisingAnswer` | internal/model/anomaly.go:410-452 | a rule that passes on results without a positive entry reads no less when at most one result answers |
| `MeasuredRules.RulesMonotone` | internal/model/anomaly.go:23-452 | fifteen rules, the P99, cache, latency and interface-error rules among them, read no less in a report with distinct collectors and one data result of a kind per category |
| `MeasuredRules.MeasuredScoreMonotone` | internal/model/health.go:6-77 | measured under at least as much pressure, histograms included, a report does not score higher under such rules |
| `Codec.GenerateCode` | internal/shareapi/codec.go:23-48 | the nested loops give the outcome fixed by the reads made |
| `Codec.FillFrom` | internal/shareapi/codec.go:36-45 | one buffer extends the output by the symbols of its accepted bytes, stopping at eight |
| `Codec.CodeOfStream` | internal/shareapi/codec.go:23-48 | the code is the image of the first eight accepted bytes of the stream, however it is cut into reads |
| `Codec.ErrorSurfacesIff` | internal/shareapi/codec.go:33-35 | a failing read is returned as that error if and only if it comes before the eighth accepted byte |
| `Codec.ValidCode` | internal/shareapi/codec.go:53-68 | true if and only if the string has eight base62 characters |
| `Codec.ValidIffProducible` | internal/shareapi/codec.go:50-68 | a string is valid if and only if some reads produce it |
| `Codec.SymbolIsAlphabet` | internal/shareapi/codec.go:17-43 | the symbol of a byte is the alphabet's entry at the byte modulo 62 |
| `Codec.FourRoots` | internal/shareapi/codec.go:38-43 | every symbol comes from exactly four accepted bytes |
| `Codec.PreimageMeaning` | internal/shareapi/codec.go:36-45 | the constructed set of preimages is exactly the accepted strings that encode to the code |
| `Codec.PreimageCount` | internal/shareapi/codec.go:23-48 | a base62 string of length n has exactly 4^n accepted preimages |
| `Codec.Uniform` | internal/shareapi/codec.go:23-48 | every valid code has exactly 4^8 accepted preimages, so codes are uniform |
| `ShareStore.Store.Put` | internal/shareapi/store.go:102-116 | extends the history by one Put unless the statement fails; stored if and only if the code has no live insertion, and then it is one |
| `ShareStore.Store.Get` | internal/shareapi/store.go:121-133 | the bytes of the unique live insertion in the store's history, not found if and only if there is none |
| `ShareStore.Store.Count` | internal/shareapi/store.go:137-143 | the number of live insertions in the history |
| `ShareStore.RowsAreLiveInsertions` | internal/shareapi/store.go:137-143 | a table has as many rows as its history has live insertions |
| `ShareStore.Store.DeleteOlderThan` | internal/shareapi/store.go:152-160 | extends the history by a sweep and reports how many insertions it ended |
| `ShareStore.Store.DeleteByCode` | internal/shareapi/store.go:165-173 | extends the history by a deletion and reports whether the code had a live insertion |
| `ShareStore.ApplyKeeps` | internal/shareapi/store.go:102-173 | no operation alters a row: it removes it or leaves payload and time as they were |
| `ShareStore.TableIsLiveInsertions` | internal/shareapi/store.go:102-173 | after any history a code is stored if and only if it has a live insertion, which is unique and whose row is stored |
| `ShareStore.StoredUntilRemoved` | internal/shareapi/store.go:102-173 | what was put under a free code stays through any later operations that do not remove it |
| `ShareStore.PutWithRetry` | internal/shareapi/handlers.go:245-265 | with any statements of other requests between the attempts: at most three, retrying only collisions with the table met at that moment; success adds exactly one row under the drawn, then free, valid code; failure adds none, and happens exactly when all three collide or an attempt meets an error |
| `ShareStore.HandleFetch` | internal/shareapi/handlers.go:214-243 | malformed code, no live insertion and database failure are told apart; otherwise the bytes of the live insertion |
| `ShareStore.CreateThenFetch` | internal/shareapi/handlers.go:119-243 | after a successful create, fetching its code returns the same payload, whatever other requests did in between, unless one removed it |
| `ShareStore.Store.Interleave` | internal/shareapi/store.go:102-173 | statements of other requests extend the history in order |
| `ShareStore.SweepSparesYoung` | internal/shareapi/store.go:152-160 | a row a sweep deletes is older than the retention age, both times being floored |
| `ShareStore.SweepLeavesYoung` | cmd/melisai-share-api/main.go:166-178 | a row a sweep leaves is younger than the age plus one second |
| `ShareStore.SweepRemovesIff` | internal/shareapi/store.go:102-160 | a sweep removes a row if and only if a whole second began after the row was stamped and no later than the cutoff |
| `ShareStore.RetentionBound` | cmd/melisai-share-api/main.go:163-190 | with a sweep in every interval no stored row is as old as age plus interval plus one second, unless its insertion waited longer than the age for the connection, and then no older than that wait plus the interval |
| `ShareStore.SweepOnce` | cmd/melisai-share-api/main.go:167-178 | one tick extends the history by one sweep, a failed one by nothing |
| `ShareStore.RunRetention` | cmd/melisai-share-api/main.go:166-190 | extends the history by one sweep at the start and one per tick, failed ones excepted |
| `ShareStore.FreshAfterRetention` | cmd/melisai-share-api/main.go:166-190 | right after such a sweep no row is as old as the age plus one second |
| `ShareStore.StartupDelete` | cmd/melisai-share-api/main.go:145-161 | deletes exactly the listed codes before the first malformed one or failed statement, and reports which stopped it |
| `ProcStat.ReadProcPID` | internal/collector/process.go:195-229 | the stepwise parse computes the specification, the malformed and panicking inputs included |
| `ProcStat.PanicIff` | internal/collector/process.go:204-213 | the slices panic if and only if the text has both parentheses and ends in `)` or has every `)` before every `(` |
| `ProcStat.PanicExamples` | internal/collector/process.go:204-213 | a text of each kind |
| `ProcStat.StatRoundTrip` | internal/collector/process.go:204-229 | for every pid, every comm and every tail of at least 22 fields without `)` the printed line is read back |
| `ProcStat.StatNumbers` | internal/collector/process.go:214-229 | numeric fields in range come back as the numbers printed, from both parsers |
| `ProcStat.ParsersAgree` | internal/observer/overhead.go:141-161 | on every text the first parser accepts, the second gives the same utime, stime and rss |
| `ProcStat.SecondParserReads` | internal/observer/overhead.go:141-161 | the second parser reads the fields after the last `)`, whatever comes before it |
| `CpuTimes.TotalDelta` | internal/collector/cpu.go:46-48 | the wrapped difference of totals is the wrapped sum of the wrapped deltas |
| `CpuTimes.SumIs100Iff` | internal/collector/cpu.go:158-173 | the percentages sum to 100 if and only if the observed deltas add up to more than 0 and less than 2^64 |
| `CpuTimes.CounterGoesBack` | internal/collector/cpu.go:158-173 | idle falling by 5 while user rises by 10 gives 200 per cent user and a sum far from 100 |
| `CpuTimes.ObservedIsTrue` | internal/collector/cpu.go:158-173 | if the true increments stay below 2^64 the observed deltas are the true ones, wherever counters wrap |
| `CpuTimes.PercentagesUnderWrap` | internal/collector/cpu.go:158-173 | then each percentage is the true share, lies in [0,100], and the seven sum to exactly 100 |
| `CpuTimes.ComputePerCPUDeltas` | internal/collector/cpu.go:175-203 | strictly ascending by CPU, one row for exactly the common CPUs whose total moved |
| `CpuTimes.RowInNumbers` | internal/collector/cpu.go:175-203 | with true increments below 2^64 a CPU has a row if and only if something was counted, and the row gives the shares of user and nice together, system, iowait and idle, wherever counters wrap |
| `TopLists.Collect` | internal/collector/process.go:74-151 | both lists are the twenty largest of one filtered process set, the totals count all processes and those in each state, and the excluded list is exactly the own PIDs seen |
| `TopLists.CountsMean` | internal/collector/process.go:74-83 | the counts do not depend on the map order and count no process twice |
| `TopLists.TopBoth` | internal/collector/process.go:127-141 | the second in-place sort does not disturb the first list |
| `TopLists.PrefixIsTop` | internal/collector/process.go:127-141 | the prefix of a sorted permutation is a top list: nothing left out beats anything kept |
| `TopLists.TopExcludesOwn` | internal/collector/process.go:108-125 | every listed process passes the filters, and none is an own PID |
| `TopLists.TopMeans` | internal/collector/process.go:74-141 | at most twenty entries of different processes that pass the filters; each gives the ticks its counters went on by over the seconds between the samples, wrap-around included, its pages as bytes and per cent, its name, threads and state; a process left out comes after all twenty |
| `TopLists.NotListedUsesLess` | internal/collector/process.go:127-141 | a process missing from the CPU list used no more CPU than any of its twenty, one missing from the memory list holds no more memory |
| `Aggregate.Tally` | internal/executor/aggregate.go:25-39 | counts are exact per key, samples are the first event with the key, and the counts sum to the events carrying the field |
| `Aggregate.ListEntries` | internal/executor/aggregate.go:41-48 | one entry per key, for any map order |
| `Aggregate.SumCounts` | internal/executor/aggregate.go:58-61 | the sum over the map, for any map order |
| `Aggregate.AggregateByField` | internal/executor/aggregate.go:24-67 | entries by descending count with distinct keys and exact counts, at most topN; an omitted key never exceeds a kept one; the total is the number of events carrying the field |
| `Aggregate.KeysAreFaithful` | internal/executor/aggregate.go:138-151 | a string is its own key, and whole numbers share a key if and only if they are equal |
| `Text.ItoaRoundTrip` | internal/executor/parsers.go:304-309 | printing and parsing an integer gives it back within the ranges of the three parsers |
| `Text.SignedValueIff` | internal/executor/parsers.go:304-309 | the texts that denote an integer are exactly an optional sign and digits |
| `Text.ParsersOfIntegers` | internal/executor/parsers.go:57-59 | Atoi accepts exactly those that fit an int64; ParseInt and ParseUint, errors ignored, clamp what does not fit and take anything else for zero |
| `Text.TrimSpaceIff` | internal/executor/parsers.go:286-290 | TrimSpace takes away exactly the six kinds of white space at the two ends |

## Left out

- FlameGraph.GenerateFlameGraphSVG: when the int64 sum of the counts is zero the source divides by zero and prints NaN or infinite coordinates; the model says only that they are not finite. The SVG text, colours and HTML escaping around the rectangles are left out.
- BccLatency.EndsWithinGrace: takes SIGKILL to be effective; signals that follow the child's exit are not excluded, since the watcher's select may still choose them. `cmd.Wait` also waits for the goroutines that copy stdout and stderr, which a descendant of the child holding the pipes open could delay; the model lets Wait return once the child is dead.
- FinalReport.ScheduleIndependence: a collector's result is taken to carry the collector's own name, as every `Collect` under internal/collector does; cancellation before the check between the phases legitimately changes the report.
- OrchestratorRuns.NeverStuck: takes every call of `Collect` to return.
- ShareStore.PutWithRetry: takes the random source to deliver eight acceptable bytes or an error; the database is a table whose statements either take effect or change nothing.
- AnomalyRules.Evaluate: what a category rule asks of one result is an arbitrary function; eleven of these rules are spelled out in `FieldRules`, `RuleShapes` and `MeasuredRules` and decided in `RuleVerdicts`, the field selections of the others are not.
- AnomalyRules.DetectAnomalies: an anomaly carries its reading and thresholds as numbers; the message and the formatted texts are left out.
- HistogramVerdicts.CacheVerdict: is stated for reports with distinct collectors, since otherwise the map order decides which result is read.
- TopLists.Collect: does not model the file-descriptor count, and rss times the page size is not wrapped.
- HistogramStats.StatsOrderIff: the order of the statistics is stated for counts whose sum is an int64; what is promised otherwise is in `HistogramStats.TotalCountIff`.
- FoldedStacks.ParseFoldedStacks: white space is ASCII only.
- PrintedSections.HeaderReadsBackIff: case folding is ASCII only.
- Aggregate.AggregateByField: the formatting of values other than strings and integers is a parameter.
- Floating-point rounding of the arithmetic, everywhere.
- Event, table and other parsers of the remaining BCC tools: field copying.
- Recommendations, metadata and the observer overhead summary of the report.
- gzip, JSON and base64 handling of shared payloads, rate limits and HTTP plumbing.
- Native eBPF, the procfs and sysfs readers, `ss`, `ethtool` and similar tools.
- internal/diff, internal/mcp, the installer, the CLI, binary verification and environment cleaning.
