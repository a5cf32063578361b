# ExaServe, verified

ExaServe replays inference traces against large deployments from many MPI ranks, each rank driving
several processes, and runs whole series of such replays inside one batch allocation. This project
models the parts where a mistake would silently corrupt a result: how requests are handed out, how
results and summaries come back, how latencies become percentiles, how a saturation rate is searched
for, and how a campaign is submitted once, budgeted and attested. Every statement below holds for all
inputs, all numbers of ranks, processes and workers, and all interleavings.

`dafny verify dfyconfig.toml` checks the whole project.

## What is modelled

| files | part of the system |
|---|---|
| `RoundRobin`, `Scatter`, `Journey` | dealing the trace to ranks, processes and schedulers, and the collectives that carry it |
| `Pool`, `Fifo`, `RecordMax`, `Peaks` | the dispatcher: schedulers, slot semaphore, channel, workers, result cells, peak metrics |
| `Lines`, `Chunker`, `Frame`, `Gather`, `GatherSafety`, `Wire` | collecting raw records on rank 0 over an unreliable channel |
| `Bounds`, `Histogram`, `Percentile`, `PercentileError`, `StepHistograms` | latency histograms, merging them, and the error of the percentiles read from them |
| `Summary`, `Reduce`, `Requests` | summaries of processes and ranks, their cross-checked reduction, and buffer retention |
| `Saturation` | the search for the highest healthy rate, in Go and in Python |
| `Campaign`, `Recovery`, `Budget`, `Sentinel`, `SentinelSafety`, `SentinelExamples` | one-time submission, the time budget and the survival evidence of an allocation campaign |
| `Evaluator`, `Semantics`, `Denotation`, `Adequacy`, `Interpreter` | the restricted expression language of derived matrix values |
| `Bcast` | the streaming archive broadcast |

Code that runs step by step is a method with loops or a class, proved against a specification
function or predicate; concurrent code is a transition system over its atomic steps, and theorems
about it quantify over all runs. What lies outside (JSON text, SHA-256, Python's arithmetic, the MPI
library, clocks) is a parameter: a function value about which only the stated hypotheses are used.

## Where the code does not do what one might expect

Each of these is proved, with the exact condition.

- **Scatter.** Root checks that it has a trace path and a digest before the first collective. When they
  are missing it raises alone and every worker waits in its first scatter: no rank is stuck if and only
  if root has its input (`Scatter.DistributeTraceRequests`). Any later failure reaches all ranks.
- **Error order.** For a trace with a malformed line and a wrong digest the simple loader reports the
  digest and the ranks report the line; in all other cases they report the same error
  (`Scatter.SharesInterleaveToTrace`). `Scatter.ErrorsDiffer` is such a trace.
- **Campaign phases.** A failing execution publishes FAILED after it has released the execute lease. What
  fences a second execution is the acquisition record, which is created once before RUNNING: RUNNING is
  published at most once in any run (`Campaign.RunningPublishedOnce`). The phases follow the intended edges
  in every run in which no execution starts beside a failing one before that record exists
  (`Campaign.FencedRunsFollowEdges`). From every state in which one can, a run leads to SUCCEEDED over FAILED
  (`Campaign.OverlapBreaksEdges`), and such a state is reached (`Campaign.OverlapIsReachable`). At-most-once
  submission does not depend on this.
- **Percentiles.** The three implementations agree for fractions up to one. For a larger fraction of a
  nonempty histogram the Go function returns the last finite boundary and both Python functions raise
  (`Percentile.PercentileFromHistogram`, `Percentile.HistogramPercentile`, `Percentile.ValidatedPercentile`).
- **Saturation.** The rate returned may be the untested lower end of the search. For a server that copes
  with every rate below one it copes with, the answer of either program is healthy if and only if the
  initial rate is, under a given ceiling, or half the initial rate, without one (`Saturation.SearchServer`);
  asked first for 100, a server that copes with 10 is reported at 50 (`Saturation.UnhealthyAnswer`). The
  Python search gives up after thirty healthy doublings; the Go search does not (`Saturation.SearchBoth`).
- **Sentinel.** The executor accepts a structured line that ends with a lone carriage return, and a
  heartbeat stamped ahead of the head's clock twice in a row; the validator rejects both. An honest
  campaign is accepted if and only if every witnessed line ends with a line feed and every witness is
  of a later line than the one before (`SentinelSafety.HonestAcceptedIff`). `SentinelExamples` holds one
  campaign that is accepted and one rejected for each reason.
- **Budget.** With watchdogs at their maximum the walltime demanded leaves nothing over: when the earlier
  children take their longest, the last child is admitted if and only if there was no overhead at all
  (`Budget.LastChildRejected`). In general the overhead that fits is `Budget.Slack` (`Budget.AdmittedIff`).
  `Budget.SecondChildRejected` is a campaign of two children with one second of overhead before each.

## Model

| member | source | states |
|---|---|---|
| `RoundRobin.StrideLength` | eval/lib/replay_engine.py:2205-2217 | a rank's share of n dealt items has the closed-form length |
| `RoundRobin.StrideAt` | eval/lib/replay_engine.py:2205-2217 | item g is dealt to hand g mod n as its (g div n)-th |
| `RoundRobin.StrideBack` | eval/lib/replay_engine.py:2205-2217 | every place in every hand is exactly one item of the list |
| `RoundRobin.InterleaveStrides` | eval/lib/replay_engine.py:2205-2217 | interleaving the hands gives back the list |
| `Scatter.RequestsAre` | eval/lib/replay_engine.py:2199-2208 | a trace in which every line of at most 16 MiB parses to a request, under the number of requests before it, or to metadata, has exactly these requests |
| `Scatter.RequestsHeld` | eval/lib/replay_engine.py:2199-2208 | and only such a trace has requests |
| `Scatter.LoadTraceRequests` | eval/lib/replay_engine.py:2239-2268 | the loader returns the requests of the file; with a digest to check it reports a mismatch first, then a malformed line, and without one it ends at the malformed line |
| `Scatter.Stream` | eval/lib/replay_engine.py:2191-2216 | root's loop fails exactly on a malformed line; batch i holds the requests of a definite range of lines, dealt round-robin, and the bound was reached with the last of these lines and not before; what is buffered at the end is below the bound |
| `Scatter.BatchSize` | eval/lib/replay_engine.py:2203-2216 | a full batch exceeds the bound by less than one row |
| `Scatter.RequestBytesAre` | eval/lib/replay_engine.py:2202-2210 | the bytes that fill a batch are those of the lines that hold requests |
| `Scatter.DistributeRoot` | eval/lib/replay_engine.py:2150-2236 | root performs batches, one stop and one status that names its error, a malformed line before a digest mismatch; on success the batches hold every rank's exact share, full ones and a last one exactly when requests were left; without input it performs no collective |
| `Scatter.DistributeWorker` | eval/lib/replay_engine.py:2150-2236 | a worker takes part in exactly root's collectives and ends with its share or raises root's error; without any collective it waits forever |
| `Scatter.DistributeTraceRequests` | eval/lib/replay_engine.py:2150-2236 | a single rank answers as the simple loader does; several ranks return their shares or all raise the same error when root has its input, and otherwise root raises and every worker is stuck; so no rank is stuck if and only if root has its input |
| `Scatter.SharesInterleaveToTrace` | eval/lib/replay_engine.py:2150-2268 | the ranks succeed exactly when the simple loader does, interleaving their shares gives what it returns, and their errors differ exactly when both a line and the digest are wrong |
| `Scatter.SameEnd` | eval/lib/replay_engine.py:2208-2236 | every rank that returns has the total number of requests and the time of the last one, the latest in a sorted trace and zero in an empty one |
| `Scatter.ErrorsDiffer` | eval/lib/replay_engine.py:2150-2268 | a concrete trace with a malformed line and a wrong digest, for which loader and ranks report different errors |
| `Journey.RequestHasPlace` | eval/lib/replay_engine.py:1625-1636 | every trace index has a (rank, process, scheduler, cell) place and its request is there |
| `Journey.PlaceHasRequest` | eval/go_client/main.go:611-618 | every place belongs to exactly one trace index, so the journey is a bijection |
| `Journey.PartitionKeepsOrder` | eval/go_client/main.go:611-618 | within a scheduler later cells are later in the trace |
| `Journey.SortedTraceStaysSorted` | eval/go_client/main.go:611-618 | a trace sorted by time is sorted within every scheduler |
| `Journey.EveryRequestIsDispatchedOnce` | eval/go_client/main.go:611-731 | in every uncancelled finished run of the owning process, the cell of each trace request was written exactly once, with that request |
| `Pool.InitInv` | eval/go_client/main.go:611-646 | the initial state satisfies the dispatcher invariant |
| `Pool.StepKeepsInv` | eval/go_client/main.go:657-731 | every atomic step of every goroutine keeps the counters exact and every taken request in exactly one place |
| `Pool.RunInv` | eval/go_client/main.go:657-731 | so the invariant holds after every run |
| `Pool.Bounded` | eval/go_client/metrics.go:252-268 | in every reachable state slots, channel and active requests are within capacity, the outstanding counter exceeds the slots held by at most the workers and falls short by at most the schedulers, and nobody about to send finds the channel closed |
| `Pool.Progress` | eval/go_client/main.go:657-731 | no reachable state is stuck before all workers have exited |
| `Pool.StepSpendsPotential` | eval/go_client/main.go:657-731 | every step spends potential |
| `Pool.RunsEnd` | eval/go_client/main.go:657-731 | every run has at most nine steps per request plus one per goroutine, one close and one signal |
| `Pool.AtMostOnce` | eval/go_client/main.go:690-731 | in every run, cancelled or not, no cell is written twice and a written cell holds its own request |
| `Pool.ExactlyOnce` | eval/go_client/main.go:690-731 | in every finished run exactly the dispatched requests were written, each once into its own cell, which without cancellation are all; the counters are back at zero |
| `Fifo.ReceivedInOrder` | eval/go_client/main.go:657-731 | in every run and at any time the workers have received from each scheduler the front of its partition, in order and without a gap |
| `Fifo.AllReceivedInOrder` | eval/go_client/main.go:657-731 | an uncancelled finished run has handed out every partition from front to end |
| `RecordMax.FinalIsMaximum` | eval/go_client/metrics.go:233-243 | however the compare-and-swap loops interleave, the final value is the maximum of the first value and all recorded |
| `RecordMax.RunsAreShort` | eval/go_client/metrics.go:233-243 | n concurrent calls finish within 3n + 2n² atomic steps together |
| `Peaks.PeakWasShown` | eval/go_client/metrics.go:233-268 | in every run of the dispatcher, however the recording threads interleave and however far they are, a recorded peak is a value its counter has shown, so at most the workers for active requests and at most slots plus workers for outstanding ones |
| `Peaks.PeakIsMaximum` | eval/go_client/metrics.go:233-268 | once all of them have returned, it is the largest value the counter showed at any step of the run |
| `Lines.SplitJoined` | eval/lib/replay_engine.py:390-413 | splitting joined rows gives the rows and a trailing partial line |
| `Lines.CutsAddLines` | eval/lib/replay_engine.py:390-413 | however joined rows are cut into chunks, the chunks hold at least as many lines as rows, and as many only when no row was cut |
| `Chunker.IterResultChunks` | eval/lib/replay_engine.py:362-387 | the generator packs the rows greedily into nonempty chunks within the bound, fails exactly for a bound below 1024 or at the first oversized row, and says what was yielded before |
| `Chunker.ChunksCarryRows` | eval/lib/replay_engine.py:362-413 | the chunks are within the bound and their lines are the rows |
| `Chunker.ChunksCarryBytes` | eval/lib/replay_engine.py:362-387 | the chunks in order are the joined rows, byte for byte |
| `Chunker.GreedyIsMinimal` | eval/lib/replay_engine.py:380-387 | no way of sending the rows in order and unsplit needs fewer chunks |
| `Chunker.ChunkCountBound` | eval/lib/replay_engine.py:380-387 | two adjacent chunks exceed the bound together, which bounds the number of chunks by the bytes sent |
| `Frame.EncodeThenDecode` | eval/lib/replay_engine.py:154-239 | encoding succeeds exactly for valid messages whose header fits, and decoding the frame gives the message back |
| `Frame.DecodeThenEncode` | eval/lib/replay_engine.py:188-239 | every accepted frame is the encoding of the message it carries |
| `Frame.FramesAreUnique` | eval/lib/replay_engine.py:188-239 | no two frames carry the same message |
| `Frame.HeaderIsCanonical` | eval/lib/replay_engine.py:196-239 | only valid messages come out of the decoder, with exactly the header read |
| `Frame.PackUnpack` | eval/lib/replay_engine.py:154-205 | the four-byte length prefix round-trips |
| `Gather.DecodeResultChunk` | eval/lib/replay_engine.py:390-413 | the row loop decodes all rows of a chunk or rejects it |
| `Gather.Collect` | eval/lib/replay_engine.py:532-584 | root's dictionaries agree with one machine per rank after every completed receive, and a rejection names a rank whose machine broke |
| `Gather.GatherRawResults` | eval/lib/replay_engine.py:452-615 | what root returns, when it times out, which ranks it names missing, that complete metadata is published exactly when it returns, and that the evidence published for each rank, also on a timeout, is that of the rank's own machine |
| `GatherSafety.SendResults` | eval/lib/replay_engine.py:475-509 | a worker sends its numbered chunks and one terminal, or, when a row is too large, the full chunks before it and no terminal |
| `GatherSafety.OpenAccounts` | eval/lib/replay_engine.py:545-562 | a rank still open has accepted exactly the data messages 0, 1, 2, … of this run and holds what they decode to |
| `GatherSafety.DoneAccounts` | eval/lib/replay_engine.py:563-582 | a finished rank was closed by one terminal that matches everything accepted before it |
| `GatherSafety.OpenIff` | eval/lib/replay_engine.py:545-562 | a rank is open exactly while its messages are data of this run numbered 0, 1, 2, …, each at most 1 MiB and every line in it a record |
| `GatherSafety.DoneIff` | eval/lib/replay_engine.py:563-582 | it is done exactly when such data were followed by a terminal of this run with their number, their records, and the size and digest of their bytes |
| `GatherSafety.ChannelSafety` | eval/lib/replay_engine.py:511-615 | over a channel that drops, duplicates, reorders and replays other runs, a finished rank contributed exactly the records it sent, in order, and its evidence names the rank and the size and digest of the bytes it sent |
| `GatherSafety.ForgedDataSafety` | eval/lib/replay_engine.py:511-615 | even with forged data messages this holds, or the bytes accepted before the terminal and the bytes sent are a digest collision |
| `GatherSafety.SameBytesSameRecords` | eval/lib/replay_engine.py:563-582 | chunks cut differently from those sent decode to the announced number of records only when they decode to the records sent |
| `GatherSafety.GatherIsExact` | eval/lib/replay_engine.py:475-615 | for any number of ranks and any interleaving a finished gather equals what was sent, every rank's evidence describes what that rank sent, and every rank could send all its rows |
| `GatherSafety.NoTerminalNotDone` | eval/lib/replay_engine.py:475-509 | a rank that sends no terminal is never finished |
| `GatherSafety.GatherOverUnreliableChannel` | eval/lib/replay_engine.py:416-615 | the call returns the exact records of all ranks or fails, publishes complete exactly when it returns, publishes for every rank it names, also on a timeout, that rank's number and the size and digest of its bytes, and fails whenever some rank has a row too large to send |
| `GatherSafety.FifoFinishes` | eval/lib/replay_engine.py:475-615 | under lossless in-order delivery a rank is never rejected, and is finished exactly when its script is delivered |
| `GatherSafety.GatherOverFifoChannel` | eval/lib/replay_engine.py:452-615 | when every script is delivered whole and in order and the local rows fit, the call returns exactly what was sent |
| `Wire.FrameCarries` | eval/lib/replay_engine.py:154-239 | a frame carries the gather message it was made of |
| `Wire.HonestFramesAreHonest` | eval/lib/replay_engine.py:188-239 | frames sent by the ranks deliver messages sent by the ranks |
| `Wire.GatherFrames` | eval/lib/replay_engine.py:242-266 | the gather over delivered frames, where bytes that do not decode are an unknown message, returns the exact records of all ranks or fails, and the evidence it publishes describes what each rank sent |
| `Bounds.LogarithmicHistogramBounds` | eval/go_client/metrics.go:14-31 | the generator terminates with strictly increasing boundaries from 50µs to exactly 7200s, adjacent ratio at most 1.02 |
| `Histogram.DurationHistogram.constructor` | eval/go_client/metrics.go:49-55 | a new histogram tallies no samples |
| `Histogram.DurationHistogram.Observe` | eval/go_client/metrics.go:57-72 | observing appends the duration to the tallied history, a negative one as zero |
| `Histogram.DurationHistogram.Snapshot` | eval/go_client/metrics.go:74-89 | the snapshot is the histogram of the history, boundaries and sum in seconds and an overflow mark at the end |
| `Histogram.MergeLatencyHistograms` | eval/lib/replay_engine.py:618-658 | merging succeeds exactly for valid histograms of one layout and gives the bucketwise totals |
| `Histogram.MergeIsObserving` | eval/lib/replay_engine.py:618-658 | merging the histograms of any split of the samples gives the histogram of all samples |
| `Histogram.TwoLevelMerge` | eval/lib/replay_engine.py:686-725 | merging processes into ranks and ranks into one is merging once |
| `Histogram.OrderDoesNotMatter` | eval/lib/replay_engine.py:618-658 | the histogram depends only on the multiset of samples |
| `StepHistograms.MergeHistograms` | clientlab/runner/runtime.py:2016-2041 | the merge by name succeeds exactly for valid items of agreeing layouts, adds up shared names and keeps all others |
| `StepHistograms.PairIsObserving` | clientlab/runner/runtime.py:2016-2041 | adding up two histograms of one name is observing all their samples |
| `Percentile.RankBucketMeaning` | eval/go_client/step_metrics.go:89-124 | the bucket of rank k is the one whose cumulative counts straddle k |
| `Percentile.RankBucketUnique` | eval/go_client/step_metrics.go:89-124 | no other bucket does |
| `Percentile.RankIsLeast` | eval/go_client/step_metrics.go:93-96 | the rank looked for is the least number of samples, at least one, that makes up the fraction of the count |
| `Percentile.QuantileIff` | eval/go_client/step_metrics.go:89-124 | the quantile is the one point that divides the bucket straddling this rank as the rank divides its samples, the lower end of the overflow bucket, and zero for no samples |
| `Percentile.PercentileFromHistogram` | eval/go_client/step_metrics.go:89-134 | the Go loop computes this quantile for fractions up to one, and yields the last finite boundary for larger ones |
| `Percentile.HistogramPercentile` | eval/lib/replay_engine.py:661-683 | the replay engine's loop computes the same quantile for fractions up to one, and fails exactly for larger ones over a nonempty histogram |
| `Percentile.ValidateHistogram` | clientlab/runner/runtime.py:2044-2069 | the validation loop accepts exactly ordered, consistent histograms with a nonnegative sum |
| `Percentile.ValidatedPercentile` | clientlab/runner/runtime.py:2072-2093 | the client laboratory's loop computes the same on valid histograms, fails exactly for fractions above one over nonempty ones, and rejects all other histograms |
| `PercentileError.EstimateInBucket` | eval/go_client/step_metrics.go:105-124 | the estimate never leaves the bucket of the rank |
| `PercentileError.QuantileMonotone` | eval/go_client/step_metrics.go:89-134 | quantiles are monotone in the fraction, across the overflow bucket too |
| `PercentileError.RankBucketOfSamples` | eval/go_client/step_metrics.go:89-124 | the rank bucket of a tally is the bucket of the true order statistic |
| `PercentileError.BucketWidth` | eval/go_client/metrics.go:14-31 | a bucket between the first and the overflow spans at most two percent |
| `PercentileError.TwoPercentError` | eval/go_client/step_metrics.go:89-134 | for every sample list, fraction in (0, 1] and the least rank that makes up the fraction, the quantile is within 2% of the sample of that rank up to 7200s, within the first 50µs bucket below, and exactly 7200s above |
| `Summary.CountResults` | eval/go_client/main.go:1041-1057 | the first pass counts the written cells |
| `Summary.Accumulate` | eval/go_client/main.go:1058-1100 | the second pass accumulates successes, errors, tokens and latencies of all cells, and for exactly the error classes that occur their number and first message |
| `Summary.WriteSummary` | eval/go_client/main.go:1041-1119 | the summary describes all records: counts, tokens, histogram, percentiles, error classes and times |
| `Summary.DescribedMeans` | eval/go_client/main.go:1041-1119 | such a summary counts the cells written, the failures among them and one latency per success, and adds up the tokens reported by the successes that report them and the planned lengths of the others |
| `Summary.TokenTotals` | eval/go_client/main.go:1073-1082 | the token totals over any records are reported tokens where there are some and planned lengths where there are none, over successes only |
| `Summary.LatenciesAre` | eval/go_client/main.go:1070-1072 | the latencies observed are those of the successes in order, a negative one as zero |
| `Summary.TallyMeans` | eval/go_client/main.go:1083-1096 | the tally names exactly the error classes that occur, an unnamed one as unknown, with their number and the first message cut to 300 characters |
| `Summary.SuccessSplit` | eval/go_client/main.go:1360-1362 | successes and errors partition the written cells, so histogram count is completed minus errors |
| `Summary.MergeProcessSummaries` | eval/lib/replay_engine.py:686-725 | process summaries merge exactly when compatible and consistent, so of one start time and one layout; the result composes them, with the latest of each time |
| `Summary.MergedValid` | eval/lib/replay_engine.py:686-725 | composing valid summaries of one layout gives a valid histogram and ordered counters |
| `Summary.SummariesOfRecords` | eval/lib/replay_engine.py:686-725 | summaries of any split of the records merge to the histogram and totals of all records, and the consistency check always passes |
| `Summary.TotalsOfRecords` | eval/lib/replay_engine.py:686-725 | counters and tokens of the summaries add up to what the records say |
| `Summary.ProcessesCompose` | eval/lib/replay_engine.py:686-725 | merging the summaries of all processes describes all their records |
| `Reduce.ReceiveSummaries` | eval/lib/replay_engine.py:853-905 | root's receive loop collects from each rank its first message, which is a valid summary of this run and that rank, or names a rank whose first message is not |
| `Reduce.CrossCheck` | eval/lib/replay_engine.py:939-973 | root publishes exactly when totals fit 64 bits, both paths agree, layouts agree and counts are consistent; what it publishes are true totals and quantiles of the merge |
| `Reduce.ReduceRanks` | eval/lib/replay_engine.py:775-973 | with several ranks root returns exactly when the first message of every rank is a valid summary of this run and that rank and the cross-check of these passes; a message named bad is not such a summary; it publishes complete metadata exactly on return, and on a timeout names exactly the ranks nothing was received from |
| `Reduce.ReduceSummary` | eval/lib/replay_engine.py:728-973 | a single rank publishes its own valid summary as it is; several ranks reduce theirs, and whatever is returned then came from first messages of this run and of the rank they were received from, with totals that fit 64 bits |
| `Reduce.WrapIsModulo` | eval/lib/replay_engine.py:826-850 | the unsigned reduction is the sum modulo 2^64 |
| `Reduce.WrapExact` | eval/lib/replay_engine.py:826-850 | it is exact precisely when no counter overflows |
| `Reduce.PublishedTotalsAreTrue` | eval/lib/replay_engine.py:939-973 | if either path is sound, published totals are the true integer sums |
| `Reduce.HonestRanksPublish` | eval/lib/replay_engine.py:939-973 | honest ranks are published if and only if totals fit, layouts agree and counts are consistent |
| `Reduce.RecordsPublishable` | eval/lib/replay_engine.py:939-973 | summaries written from records are consistent, merge to the histogram and totals of all records, and are publishable exactly when no counter overflows |
| `Reduce.ReduceRecords` | eval/lib/replay_engine.py:728-973 | over summaries written from records, honest messages and a wrapping reduction the call returns exactly when the counters fit, and totals and percentiles it returns are those of all records of all ranks |
| `Reduce.PublishedWithinTwoPercent` | eval/lib/replay_engine.py:951-973 | whatever the call so returns, its percentiles are within two percent of the samples whose ranks are the least that make up 50% and 99% of all ranks' successes |
| `Requests.Transport.constructor` | eval/lib/replay_engine.py:133-134 | a new transport retains nothing and has no failed collective |
| `Requests.Transport.Test` | eval/lib/replay_engine.py:254-266 | testing completes a transfer at most once and keeps it complete, also when its contents are rejected |
| `Requests.Transport.Cancel` | eval/lib/replay_engine.py:267-278 | after a cancellation the transfer is complete or its buffer is retained |
| `Requests.Transport.CancelAll` | eval/lib/replay_engine.py:317-324 | cancelling many leaves each complete or retained, whatever raises |
| `Requests.Transport.TestAll` | eval/lib/replay_engine.py:868-905 | one round of tests stops at the first that raises and otherwise says whether all are done |
| `Requests.Transport.Reduce` | eval/lib/replay_engine.py:826-926 | over all answers of the polls, an exit with the collective unfinished fills the slot and no other does, every transfer is complete or retained, failure means a poll raised or the deadline passed, success follows when everything is reported complete in time, and after an unfinished collective nothing is posted |
| `Requests.Transport.Post` | eval/lib/replay_engine.py:281-296 | the transfers posted are new, distinct and not complete |
| `Requests.Transport.Exchange` | eval/lib/replay_engine.py:826-926 | a summary exchange posts nothing while a failed collective fills the slot; otherwise each of its transfers ends complete or retained, and all complete on success |
| `Saturation.Bisect` | eval/go_client/saturation.go:325-350 | bisection terminates with every tested-healthy rate at or below the lower end, every unhealthy one at or above the upper, and a bracket within tolerance or one apart unless cancelled |
| `Saturation.BisectedStops` | eval/go_client/saturation.go:325-350 | bisection stops exactly when the bracket is within the tolerance of its upper end or holds no rate in between; otherwise it next measures the middle and goes on with the half this leaves |
| `Saturation.BinarySearch` | eval/go_client/saturation.go:285-350 | the Go search returns a rate measured healthy or the starting lower end, with an upper end that separates all measurements and is within tolerance or one away unless cancelled, and without cancellation the reference search |
| `Saturation.RunSaturationMulti` | clientlab/runner/runtime.py:1356-1425 | the Python search is the reference search when the first failure is within thirty doublings, and gives up when thirty are healthy; an answer comes with an upper end that separates all measurements and is within tolerance or one away |
| `Saturation.SearchBoth` | clientlab/runner/runtime.py:1356-1425 | for the same measurements both searches visit the same rates and answer alike, unless the probe needs more than thirty doublings |
| `Saturation.BisectedHealthyIff` | eval/go_client/saturation.go:325-350 | for a downward-closed server bisection answers with a healthy rate if and only if it started from one |
| `Saturation.SearchServer` | clientlab/runner/runtime.py:1356-1425 | for such a server the answer of either program is healthy if and only if the initial rate is, or half of it when the ceiling is probed |
| `Saturation.UnhealthyAnswer` | eval/go_client/saturation.go:300-318 | a concrete search that answers with an unhealthy rate |
| `Saturation.LowIsHalf` | eval/go_client/saturation.go:300-318 | the bracket a failed probe leaves starts at half the failing rate |
| `Saturation.BisectionCost` | eval/go_client/saturation.go:325-350 | each measurement halves the bracket, which bounds their number |
| `Saturation.SearchCost` | eval/go_client/saturation.go:285-350 | after the ceiling probe at most n more rates are measured where 2^(n-1)·tolerance ≥ 1, whatever the rates |
| `Saturation.SplitRate` | eval/go_client/saturation.go:450-463 | a rate split over n parts adds up to the rate, in shares that differ by at most one |
| `Saturation.SplitTwice` | clientlab/runner/runtime.py:1517-1526 | split over processes and then schedulers it still adds up |
| `Campaign.InitInv` | eval/lib/allocation_campaign.py:578-581 | a prepared campaign satisfies the submission invariant |
| `Campaign.StepKeepsInv` | eval/lib/allocation_campaign.py:584-703 | every step of every submitter, the scheduler and every execution, crashes and the create-once acquisition record included, keeps it |
| `Campaign.RunKeepsInv` | eval/lib/allocation_campaign.py:584-703 | so it holds after every run |
| `Campaign.AtMostOneJob` | eval/lib/allocation_campaign.py:584-621 | over any run the scheduler accepts at most one of all submissions |
| `Campaign.RecordedJobIsFinal` | eval/lib/allocation_campaign.py:578-703 | a recorded job id is the accepted job and never changes |
| `Campaign.StepEdges` | eval/lib/allocation_campaign.py:578-703 | an intent leads only to rejection or publication, publication is never undone, and SUBMITTED overwrites only SUBMITTING |
| `Campaign.ReachableEdges` | eval/lib/allocation_campaign.py:677-703 | in every run a late submitter never overwrites RUNNING |
| `Campaign.FencedRunsFollowEdges` | eval/lib/allocation_campaign.py:1512-1702 | if no execution starts beside a failing one before the acquisition record exists, every step follows an intended edge |
| `Campaign.OverlapBreaksEdges` | eval/lib/allocation_campaign.py:1694-1702 | wherever one can start beside a failing one and the record does not exist, a run publishes SUCCEEDED over FAILED |
| `Campaign.OverlapIsReachable` | eval/lib/allocation_campaign.py:1512-1523 | such a state is reached from a prepared campaign |
| `Campaign.RunningPublishedOnce` | eval/lib/allocation_campaign.py:1521-1522 | over any run RUNNING is published at most once |
| `Recovery.SubmissionGoesOn` | eval/lib/allocation_campaign.py:604-610 | with the lease free, a prepared or rejected campaign can be submitted, the intent written before the scheduler is called |
| `Recovery.AnswerGoesOn` | eval/lib/allocation_campaign.py:607-621 | the scheduler's answer can be published, as the job id or as a rejection, and frees the lease |
| `Recovery.LostAnswerIsRecovered` | eval/lib/allocation_campaign.py:596-603 | after a crash before publication the next submit call publishes the job that was accepted, and submits no other |
| `Recovery.EarlyJobBindsItself` | eval/lib/allocation_campaign.py:677-703 | so can the job itself when it starts before its submission is recorded |
| `Recovery.ExecutionGoesOn` | eval/lib/allocation_campaign.py:1512-1702 | a bound execution that finds no acquisition record can run and succeed |
| `Budget.OwnedStop` | eval/lib/allocation_campaign.py:838-854 | a stop ends within its grace plus the forced stop, and is clean exactly when the process exits in time and leaves no group |
| `Budget.RunChild` | eval/lib/allocation_campaign.py:1098-1185 | a child is rejected exactly when not admitted; otherwise the first poll that finds it exited, asked to stop, overdue or ready for its planned interruption decides, in this order; an interrupted child that leaves no group and exits within its grace and half a minute before the deadline ends cleanly, and otherwise not; every way out, with its forced stop, ends by the parent deadline when the polling delay is at most the grace; the child meets its contract exactly when it was cleanly interrupted with a nonzero exit code as planned, or exited cleanly with zero where nothing was planned |
| `Budget.PollChild` | eval/lib/allocation_campaign.py:1140-1171 | the polling loop ends at the first poll that decides, at most one polling delay after the timeout |
| `Budget.StopMeetsDeadlineIff` | eval/lib/allocation_campaign.py:1165-1180 | a stop that uses all its time meets the deadline if and only if it began before the last moment |
| `Budget.StopGraceIff` | eval/lib/allocation_campaign.py:1165-1168 | a stopped child is given e seconds exactly when e is within its watchdog plus a tenth of it, at least five and at most thirty seconds, and half a minute is left before the deadline |
| `Budget.AdmittedMeans` | eval/lib/allocation_campaign.py:1098-1103 | a child is admitted exactly when its timeout, that grace and the half minute fit before the deadline |
| `Budget.AdmittedIff` | eval/lib/allocation_campaign.py:1098-1103 | when earlier children take their longest, the next is admitted if and only if the overhead fits the slack |
| `Budget.LastChildRejected` | eval/lib/allocation_campaign.py:204-222 | with watchdogs at 900 seconds and exactly the walltime demanded, after earlier children that took their longest, the last is admitted if and only if there was no overhead |
| `Budget.SecondChildRejected` | eval/lib/allocation_campaign.py:204-222 | a concrete campaign of two children whose walltime is accepted and whose second child is not admitted |
| `Budget.ReserveIsLongestAndSpare` | eval/lib/allocation_campaign.py:204-222 | the reserve demanded per child covers its longest time and leaves a nonnegative spare |
| `Budget.RunCampaign` | eval/lib/allocation_campaign.py:204-209 | a campaign whose walltime was accepted admits every child while the overhead fits the reserve; a child not admitted has exceeded the slack |
| `Sentinel.SkipDiagnostics` | eval/lib/allocation_campaign.py:1385-1391 | the backward scan finds the last structured line and where it ends |
| `Sentinel.CandidateIff` | eval/lib/allocation_campaign.py:1388-1391 | a structured line is one with an opening brace after blanks only |
| `Sentinel.JudgeMeans` | eval/lib/allocation_campaign.py:1392-1408 | a line aborts the wait exactly when it is no heartbeat or one of another identity, and is taken exactly when it is fresh, not before the time waited for and newer than the startup heartbeat |
| `Sentinel.Look` | eval/lib/allocation_campaign.py:1380-1408 | one look waits, aborts or witnesses the last complete structured line, as that line and the clock decide |
| `Sentinel.SentinelWitness` | eval/lib/allocation_campaign.py:1375-1412 | the first look that decides anything decides the result, and when the polls run out there is none |
| `Sentinel.ValidateSentinelEvidence` | eval/lib/allocation_campaign.py:1415-1490 | the validator accepts exactly the valid evidence |
| `Sentinel.SplitIsBare` | eval/lib/allocation_campaign.py:1385-1387 | the lines with their ends are the lines without them, boundary added |
| `Sentinel.KeepPrefix` | eval/lib/allocation_campaign.py:1385-1408 | cutting a log after a line gives exactly the lines up to it |
| `SentinelSafety.ValidEvidence` | eval/lib/allocation_campaign.py:1415-1448 | evidence the validator accepts was marked survived and reaped, seals this log by its digest, names the token and the startup process, and holds a witness after every child |
| `SentinelSafety.WitnessesAdvance` | eval/lib/allocation_campaign.py:1472-1489 | accepted witnesses have strictly increasing observation times, sequence numbers and prefixes |
| `SentinelSafety.OneSentinel` | eval/lib/allocation_campaign.py:1341-1358 | every accepted witness up to the last names one host, process and token, with a positive process id and times and a nonnegative sequence number |
| `SentinelSafety.OneSentinelSurvives` | eval/lib/allocation_campaign.py:1415-1490 | the sentinel was witnessed before each child started, by a heartbeat at most five seconds old, and sent a new heartbeat after it completed |
| `SentinelSafety.ChildrenDoNotOverlap` | eval/lib/allocation_campaign.py:1472-1489 | the children of accepted evidence ran one after another |
| `SentinelSafety.BoundStays` | eval/lib/allocation_campaign.py:1449-1468 | a witness stays bound to its log under any later appends |
| `SentinelSafety.BoundIff` | eval/lib/allocation_campaign.py:1385-1408 | a witness taken from the log is bound to it if and only if its line ends with a line feed |
| `SentinelSafety.HonestAcceptedIff` | eval/lib/allocation_campaign.py:1571-1651 | an honest campaign is accepted if and only if every witnessed line ends with a line feed and is beyond the one before |
| `SentinelSafety.HonestAccepted` | eval/lib/allocation_campaign.py:1571-1651 | it is accepted when heartbeat times precede the next completion and the log holds no lone carriage return |
| `SentinelSafety.BeyondStartup` | eval/lib/allocation_campaign.py:1396-1402 | in an honest campaign every cleanup witness is of a later line than the startup witness |
| `SentinelSafety.RepeatedHeartbeatRejected` | eval/lib/allocation_campaign.py:1392-1408 | a heartbeat ahead of the head's clock can be witnessed twice, and the validator rejects that |
| `SentinelExamples.AcceptedCampaign` | eval/lib/allocation_campaign.py:1571-1651 | an honest campaign that is accepted |
| `SentinelExamples.LoneCarriageReturnRejected` | eval/lib/allocation_campaign.py:1385-1408 | an honest campaign rejected because a heartbeat ends with a lone carriage return |
| `SentinelExamples.RepeatedHeartbeatCampaign` | eval/lib/allocation_campaign.py:1392-1408 | an honest campaign rejected because a heartbeat is witnessed twice |
| `SentinelExamples.CampaignsExist` | eval/lib/allocation_campaign.py:1361-1408 | the logs and the parser of these campaigns exist |
| `Evaluator.Validate` | eval/lib/matrix.py:104-123 | validation changes nothing and accepts exactly the bounded finite domain |
| `Evaluator.DomainBounds` | eval/lib/matrix.py:98-123 | the domain is bounded by 4096 characters, 256 bits and 64 items, and holds finite floats only |
| `Evaluator.WalkIsWhitelist` | eval/lib/matrix.py:219-250 | the walk over all nodes accepts exactly the trees whitelisted by structure |
| `Adequacy.EvaluatesIff` | eval/lib/matrix.py:126-189 | the recursive meaning of a tree is the one result allowed by rules written per kind of node: operands and arguments left to right, the first failure, one arm of a conditional, the deciding operand of `and` and `or`, links until one fails, a bounded exponent, and a validated result |
| `Interpreter.InterpretExpression` | eval/lib/matrix.py:126-189 | the interpreter terminates and computes the recursive meaning, which is the one result the evaluation rules allow |
| `Interpreter.InterpretBoolean` | eval/lib/matrix.py:156-169 | the loops for `and` and `or` compute it |
| `Interpreter.InterpretCompare` | eval/lib/matrix.py:170-177 | the comparison loop computes it |
| `Interpreter.InterpretTree` | eval/lib/matrix.py:126-189 | the interpreter returns a result if and only if the evaluation rules allow it |
| `Interpreter.AcceptedIsAllowed` | eval/lib/matrix.py:219-250 | every node of an accepted tree is allowed: no name with two leading underscores, no attribute but the eleven of math, no call but those and six functions, no keywords, only known operators |
| `Interpreter.AllowedIsAccepted` | eval/lib/matrix.py:219-250 | and a tree of allowed nodes is accepted |
| `Interpreter.WhitelistIsSound` | eval/lib/matrix.py:126-189 | for any behaviour of Python's primitives a whitelisted tree gives a value of the domain or an error, and never a missing handler, operator or function |
| `Interpreter.SubexpressionsSound` | eval/lib/matrix.py:126-189 | so does every subexpression of an accepted tree |
| `Interpreter.BooleanMeaning` | eval/lib/matrix.py:156-169 | `and` and `or` have the value or failure of the one operand that decides them |
| `Interpreter.ChainTrueIff` | eval/lib/matrix.py:170-177 | a comparison chain is true if and only if its first operand has a value and every link holds |
| `Interpreter.EvalDerived` | eval/lib/matrix.py:192-258 | evaluation returns a value exactly when text, axes and tree pass their tests and the evaluation rules give that value; every failure is a rejection, except an exception outside arithmetic, type and value errors |
| `Bcast.FillBuffer` | tools/bcast.c:107-124 | the buffer is filled from the archive under any partial reads, and is short only at the end or where a read moved nothing |
| `Bcast.WriteChunk` | tools/bcast.c:136-147 | the chunk is appended under any partial writes, or a prefix of it up to where a write moved nothing |
| `Bcast.BroadcastArchive` | tools/bcast.c:104-150 | every writing rank ends with the archive, byte for byte; it aborts only where a read or a rank's write moved nothing, so it succeeds when transfers make progress, and then leaves prefixes; chunk lengths fit an int |

## Left out

- Machine integers: counters and rates are unbounded, except where the reduction wraps modulo 2^64 and where the evaluator limits integers to 256 bits.
- Floating point: seconds, fractions and tolerances are real numbers; only the growth of histogram boundaries keeps its rounding, as a function bounded by two percent.
- JSON text, SHA-256 and record schemas: parsers, encoders and digests are parameters; collisions appear explicitly where a result depends on them.
- Real time: deadlines become the set of receives that complete in time, or clock readings with a bounded delay.
- MPI library failures inside a collective, and a KeyboardInterrupt during the scatter.
- Campaign.StepKeepsInv: a lease is held until its holder leaves or crashes; expiry of a lease under a holder that still runs is not modelled, and an explicit rejection by the scheduler is taken to mean that nothing was accepted.
- Pool.StepKeepsInv: the pacing of request start times and the HTTP request itself are one step each.
- Saturation.BinarySearch: a measurement is an answer of an oracle; how a step is run and judged healthy is not modelled, and the unbounded probe is given a point at which it stops.
- Summary.ValidGo: only those checks of the shared summary contract that the arithmetic depends on.
- Summary.WriteSummary: the dispatch health fields, which come from the metrics collector.
- Reduce.ReceiveSummaries: its messages are taken as decoded; the frames are connected to the gather only.
- Reduce.ReduceSummary: the size and digest of each rank's payload in the published metadata.
- Gather.GatherRawResults: argument checks that raise before anything is sent, and the failure of encoding a record that is not valid JSON.
- Sentinel.SentinelWitness: the guard against cancellation, a lost lease and the deadline is one event that stops the polling.
- Interpreter.EvalDerived: parsing the text is a parameter; an error of Python outside arithmetic, type and value errors escapes, as in the code.
- Budget.RunChild: what the receipt of a child and the evidence captured before an interruption must hold; a lost lease or a failed deployment counts as cancellation.
- Wire.GatherFrames: evidence is compared as JSON values of one type each; Python also takes `true` and `1.0` for `1`, which no rank sends.
- Bcast.BroadcastArchive: argument parsing, tar processes and timing.
- Manifest, plan and specification schemas: field-by-field checks of configuration files and plans.
- Process groups, signals, HTTP and streaming transport, traces of connections: effects of the operating system and the network.
- Diagnosis thresholds, fleet statistics, plots and reports: presentation of results that are already computed.
