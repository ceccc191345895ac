# Verified model of the distributed tracing platform

A Dafny model of the parts of the platform where correctness is not visible from one body: the
writer's consume, batch, insert and commit protocol; trace reassembly with its twin in the flame
graph; the trace generator, its faults and the scoring against ground truth; alert grouping and
root-cause attribution; clock-offset estimation; and the smaller algorithms around them.

`dafny verify dfyconfig.toml` checks the whole project.

| files | what they model |
|---|---|
| `ConsumerProtocol`, `ConsumerLosses` | the writer as a step system: states, events, invariant, commit safety over all runs, and exactly when forgetting records breaks it |
| `BoundedQueue`, `Batcher`, `Consumer` | the writer's Go objects as classes; every method is a sequence of protocol events |
| `Spans`, `ParentChain` | span rows, and where a chain of parents leads |
| `Reassembly`, `ReassemblyLaws`, `TraceGroups` | breadth-first reassembly of traces, and what its labels and summaries mean |
| `TracePlan`, `CallBook`, `Growth`, `Generator`, `GeneratorLaws` | synthetic traces: the plan, the account of every call considered, the recursion as a function of the random choices, the generator itself, and what a trace's spans are |
| `Faults` | dropped spans, skewed clocks |
| `CallGraph`, `Evaluation` | service edges on both sides, and the accuracy metrics |
| `EndToEnd`, `Scoring`, `FaultRun`, `WindowedRun`, `SkewedRun` | the theorems that run through all of it: what reading any part of a run shows, what a run read in parts scores, what is sent of many traces, the whole run through the poll loop, and what its spans say about its clocks |
| `FlameGraph`, `FlameLayout` | the dashboard's flame nodes and their collapsing |
| `Grouping`, `Lookback` | detections to incidents, and what a bounded lookback forgets of them |
| `Suppression`, `RootCauses`, `CircularCalls`, `Attribution` | which incidents are echoes: resolving roots, on acyclic topologies, where services call in circles, and what the annotations say |
| `ClockSkew`, `ClockSkewLaws`, `StartTimes` | causality violations and offset estimates, how far they can be trusted, and what of the rows they read |
| `Depths` | call depths in their two implementations |
| `Statistics`, `Detectors`, `DetectionLaws` | percentiles, median, deviation, the three detectors, and exactly what they list |
| `Windowing` | windows, watermarks and the poll loop |
| `Collections` | sets, counts and options that several of these share |

Conventions. Times are integers (nanoseconds; whole seconds for windows), statistics are real
numbers, ids and services are strings. Random draws, fresh ids, the clock and the square root are
parameters. Rows of one window have distinct (trace, span) ids, because the reader deduplicates
with FINAL. Dictionaries that the source iterates over come with the order of their keys. An
incident's id is a record of the parts that the source joins into one string.

Reconstruction is scored over a run but happens window by window. A landed call whose two ends are
not read by the same window is scored as wrong, as is an orphan that no window reads, and nothing
else is. So the score is full for a run read in one window, and in several it falls short by exactly
the calls that cross a boundary, unless something lands late (`Scoring.EvaluateBatches`,
`WindowedRun.ScoreRun`); this is the floor and the loss under skew that `docs/BENCHMARKS.md:156-171`
and `:202-209` measure.

## Where code and comments differ

The model follows the code.

- The writer's comments say that a batch given up in a cancelled retry, or dropped when partitions
  are lost, is safely redelivered (`writer/internal/consumer/consumer.go:191-194`, `:236-239`).
  That holds only if nothing still in the batch, the queue or the poll is later in the same
  partition: a later commit passes the forgotten records (`ConsumerLosses`). A push that loses
  against cancellation drops its record in the same way (`:138`). A run that loses a record like
  this, with one process, no rebalance and batches of two, is `ConsumerLosses.ShutdownCanLoseARecord`.
- Reassembly is documented as independent of row order (`analyzer/src/analyzer/reassembly.py:72-78`).
  Labels are; the summary's depth and root service are only if the roots that tie for the earliest
  start agree (`ReassemblyLaws.SummaryIgnoresOrderIff`, `ReassemblyLaws.SummaryCanDependOnOrder`).
- `mark_processed` says that out-of-order marking leaves the cursor at the highest contiguous point
  (`analyzer/src/analyzer/windowing.py:75-82`); it leaps over every window that was never marked
  below a marked one (`Windowing.CursorIsContiguousIff`).
- Regrouping a trailing lookback is said to regenerate the id of a still-ongoing incident
  (`docs/DECISIONS.md:105`, `analyzer/src/analyzer/main.py:206-212`); for one that began before the
  lookback it does not, as `docs/DECISIONS.md:108` concedes (`Lookback.ForgettingKeepsIdsIff`).
- The offset estimator is said to need an edge with two unskewed ends
  (`analyzer/src/analyzer/clockskew.py:19-23`); two equally skewed ends do as well
  (`ClockSkewLaws.SkewIsRecoveredIffSomeCallIsClean`), and small skews can spoil even that
  (`ClockSkewLaws.SkewIsRecoveredIff`).
- The error-rate threshold is not validated; more errors never silence the detector only if it is
  not negative (`Detectors.NeverQuietedIff`).
- `detect_percentile_deviation` compares p95 and p99 and takes the larger deviation; since both are
  percentiles of one window, that is always p99 (`Detectors.PercentileAlarmIff`).

## Model

| member | source | states |
|---|---|---|
| `ConsumerProtocol.LosslessRunIsCommitSafe` | writer/internal/consumer/consumer.go:119-234 | In every state of every interleaving of any number of writers (polls, skips, pushes, batch adds, failing and succeeding inserts, commits, revocations, crashes) every decodable record below a committed offset is in the table, as long as no cancelled retry, cancelled push or lost partition has forgotten a record. |
| `ConsumerProtocol.LosslessRunKeepsInv` | writer/internal/consumer/consumer.go:119-234 | The invariant behind it, at every point of such a run: for each partition, nothing is in the table, in flight, in the batch or upstream before all that precedes it. |
| `ConsumerProtocol.StepKeepsInv` | writer/internal/consumer/consumer.go:119-246 | One step of one process keeps the invariant of the whole group: its own effects help or leave alone what the others rely on. |
| `ConsumerProtocol.LosslessKeepsGapless` | writer/internal/consumer/consumer.go:119-234 | Each of the events that forget nothing leaves the process gapless. |
| `ConsumerProtocol.PollKeepsGapless` | writer/internal/consumer/consumer.go:119-124 | A poll that goes on from the tracked position closes, rather than opens, any gap; where the position comes from after a rebalance is part of LosslessKeepsGapless. |
| `ConsumerProtocol.SkipKeepsGapless` | writer/internal/consumer/consumer.go:130-136 | Dropping an undecodable record moves everything behind it up one place and opens no gap among the decodable ones. |
| `ConsumerProtocol.CommitKeepsSafe` | writer/internal/consumer/consumer.go:212-222 | No event moves a committed offset past a decodable record that is missing from the table. |
| `ConsumerProtocol.CommitOffsetsAreOnePastTheLargest` | writer/internal/consumer/consumer.go:216-216 | What a commit of a batch sets: for exactly the partitions in it, one past their largest offset. |
| `ConsumerProtocol.RunIsBounded` | writer/internal/consumer/consumer.go:143-202 | However long inserts fail, the queue stays within its capacity, the batch and the flush in flight within their size bound each, so the records held besides the current poll never exceed capacity plus two batches. |
| `ConsumerProtocol.EventKeepsBounded` | writer/internal/consumer/consumer.go:143-202 | Every single event, lossy or not, keeps those bounds. |
| `ConsumerLosses.LossyEventIsHarmlessIffNothingStranded` | writer/internal/consumer/consumer.go:189-195 | Exact condition: after a cancelled retry, a cancelled push or a lost partition, some further loss-free run commits past a missing record if and only if a record still held overtakes a forgotten one in its partition. |
| `ConsumerLosses.CarefulRunIsCommitSafe` | writer/internal/consumer/consumer.go:119-246 | Commit safety over all runs, lossy events included, in which no forgotten record is overtaken. |
| `ConsumerLosses.ShutdownCanLoseARecord` | writer/internal/consumer/consumer.go:148-160 | With batches of two, one process and no rebalance: shutting down during a retry forgets the first of two records, the loop still takes the second from the queue, and its last flush, given event by event, inserts the second and commits past the first, which is in no table. |
| `ConsumerLosses.BatchLoses` | writer/internal/consumer/consumer.go:240-246 | From any state with a record missing and a later one of its partition in the batch, the flush of that batch commits past it. |
| `ConsumerLosses.UpstreamLoses` | writer/internal/consumer/consumer.go:137-138 | The same when the later record is still in the poll or the queue, by an explicit schedule. |
| `ConsumerLosses.HarmlessKeepsGapless` | writer/internal/consumer/consumer.go:236-246 | A lossy event that strands nothing keeps the process gapless. |
| `BoundedQueue.Queue.Push` | writer/internal/boundedqueue/queue.go:22-29 | Without a cancellation an item goes to the back exactly when there is room, and waits if not; once cancelled it is refused or, if there is room and the select falls that way, queued; a refused or waiting item changes nothing. |
| `BoundedQueue.Queue.Receive` | writer/internal/boundedqueue/queue.go:31-36 | The oldest item comes out, exactly when there is one. |
| `Batcher.Batch.Add` | writer/internal/batcher/batcher.go:37-45 | The row and its record are appended together; a full batch is reported exactly at the size bound. |
| `Batcher.Batch.Drain` | writer/internal/batcher/batcher.go:62-71 | Everything pending is handed over, in order and still paired, and the batch is left empty with its clock reset. |
| `Consumer.Consumer.HandleRecord` | writer/internal/consumer/consumer.go:130-139 | One record of the poll is decoded and pushed, skipped, has to wait, or is forgotten because its push lost against a cancellation: in each case the step is the protocol's. |
| `Consumer.Consumer.Flush` | writer/internal/consumer/consumer.go:171-223 | Draining, any number of failing inserts and any ending is a sequence of protocol events; rows are in the table before their offsets are committed, offsets stay if the commit fails, and nothing is forgotten unless the retry gives up. |
| `Consumer.Consumer.Insert` | writer/internal/consumer/consumer.go:182-200 | The retry loop: each failing insert may still land some rows and the batch is kept; the waits between the rounds start at the initial backoff, which is not capped, and from the second on stay within the maximum. |
| `Consumer.Consumer.WaitsDouble` | writer/internal/consumer/consumer.go:196-199 | Each wait is twice the one before it, or the maximum if that is less. |
| `Consumer.Consumer.TakeItem` | writer/internal/consumer/consumer.go:152-155 | Receiving an item adds it to the batch and asks for a flush exactly when that fills the batch. |
| `Consumer.Consumer.OnTick` | writer/internal/consumer/consumer.go:156-159 | The ticker starts a flush exactly when rows are pending and the interval has passed. |
| `Consumer.Consumer.AwaitFlush` | writer/internal/consumer/consumer.go:156-159 | Over any ticks: a pending row is flushed at the first one at or after the end of the interval and at no earlier one, an empty batch at none. |
| `Consumer.Consumer.OnDone` | writer/internal/consumer/consumer.go:149-151 | Cancellation leads to the last flush, which the cancellation itself does not interrupt. |
| `Consumer.Consumer.PartitionsLost` | writer/internal/consumer/consumer.go:240-246 | The pending batch is dropped and nothing else; the step is the lossy one of the protocol. |
| `Consumer.ExecutionKeepsInv` | writer/internal/consumer/consumer.go:119-234 | Whatever sequence of events the code performs without forgetting records keeps the invariant of the whole group. |
| `Reassembly.ReassembleTrace` | analyzer/src/analyzer/reassembly.py:93-161 | Every row gets exactly one label, the one its chain of parents deserves, and the summary is that of the parent-chain reading of the trace, as ReassemblyLaws.LabelIs, ReasonIs and SummaryIs spell out over the rows. |
| `Reassembly.IndexTrace` | analyzer/src/analyzer/reassembly.py:96-107 | One pass splits the rows into roots, orphans and an index of exactly the resolved links. |
| `Reassembly.BfsMark` | analyzer/src/analyzer/reassembly.py:164-171 | Marking ends on any links, cyclic ones too, marks only spans whose chain ends, and leaves no child of a marked span unmarked. |
| `Reassembly.MarkFrom` | analyzer/src/analyzer/reassembly.py:113-115 | Marking from all roots and orphans marks exactly the spans whose parent chain ends at a root or an orphan. |
| `Reassembly.SubtreeDepth` | analyzer/src/analyzer/reassembly.py:174-186 | The breadth-first depth is the length of the longest parent chain that ends at the root. |
| `Reassembly.ClassifyRows` | analyzer/src/analyzer/reassembly.py:117-131 | The three label lists together hold each row once, and the cyclic one is not empty exactly if some chain never ends. |
| `Reassembly.EarliestIs` | analyzer/src/analyzer/reassembly.py:136-136 | The root a summary describes is one of those that start earliest. |
| `ParentChain.UnanchoredIffStillClimbing` | analyzer/src/analyzer/reassembly.py:109-118 | A chain never reaches a root or an orphan if and only if it is still going after as many links as there are spans. |
| `ParentChain.ClimbIsUnique` | analyzer/src/analyzer/reassembly.py:109-118 | A span has at most one root or orphan above it, at one distance. |
| `ReassemblyLaws.CycleRejectedIffStillClimbing` | analyzer/src/analyzer/reassembly.py:15-18 | A span is labelled cycle_rejected exactly if its chain is still going after as many links as its trace has rows. |
| `ReassemblyLaws.LabelIs` | analyzer/src/analyzer/reassembly.py:101-131 | In terms of the rows alone: a span is an orphan exactly if it names a parent that is not there, cycle_rejected exactly if its parents can be looked up as often running as there are rows, and ok otherwise. |
| `ReassemblyLaws.ReasonIs` | analyzer/src/analyzer/reassembly.py:140-149 | Each reason exactly: missing_root if no row is a root; multiple_roots if two are; orphan_missing_parent if one is and some row names an absent parent; cycle_rejected if one is, no row does, and some parents go round; none otherwise. |
| `ReassemblyLaws.SummaryIs` | analyzer/src/analyzer/reassembly.py:133-161 | The other fields: as many spans as rows, as many orphans as rows naming an absent parent, the service of the first of the roots that start earliest, and one more than the longest way up to it as depth. |
| `ReassemblyLaws.CompleteIffOneTree` | analyzer/src/analyzer/reassembly.py:140-149 | A trace is complete exactly if all its spans form one tree under one root. |
| `ReassemblyLaws.LabelsIgnoreOrder` | analyzer/src/analyzer/reassembly.py:72-78 | The labels are the same for every permutation of the rows. |
| `ReassemblyLaws.SummaryIgnoresOrderIff` | analyzer/src/analyzer/reassembly.py:135-138 | Exact condition: the summary is the same for every permutation if and only if the roots that tie for the earliest start agree in service and subtree depth. |
| `ReassemblyLaws.SummaryCanDependOnOrder` | analyzer/src/analyzer/reassembly.py:135-138 | A concrete trace whose summary does depend on row order: two roots of different services that start together. |
| `TraceGroups.Reassemble` | analyzer/src/analyzer/reassembly.py:72-90 | Every trace of a window is reassembled as it would be on its own, and no other trace appears. |
| `TraceGroups.GroupByTrace` | analyzer/src/analyzer/reassembly.py:79-81 | Rows are grouped by trace, each group in row order. |
| `TraceGroups.ResolvedPairs` | analyzer/src/analyzer/reassembly.py:189-209 | Exactly the caller-callee pairs whose two ends are present, each callee once. |
| `Generator.Generator.GenerateSubtree` | loadgen/internal/topology/generate.go:62-121 | The recursion ends for every configuration, cyclic ones too, and appends one subtree, accounted for call by call: parents before children, children inside their parents, siblings apart, no service twice on a path; it fails only for a service that is not configured. |
| `Generator.Generator.CallDownstream` | loadgen/internal/topology/generate.go:83-109 | The loop over one span's calls considers each configured call once, in order, starting each one drawn behind the one before. |
| `Generator.Generate` | loadgen/internal/topology/generate.go:32-43 | A valid configuration always yields one single-rooted trace with distinct ids, whose root is the configured service at the given time, whose ids and statuses are those drawn, and in which every span has made exactly those of its configured calls that the draws say. |
| `GeneratorLaws.CallsOfSpan` | loadgen/internal/topology/generate.go:83-118 | The spans directly below a span are a subsequence by position of its service's configured calls without those on the path, each position at most once: all of them if all draws say so, none if none does. The first starts after the call overhead, each further one a gap behind the end of the one before, and the span ends at the later of its start plus its drawn latency and its last call's end. |
| `GeneratorLaws.DrawsAreUsedOnce` | loadgen/internal/topology/generate.go:92-94 | No two calls of a trace are decided by the same draw. |
| `Growth.SubtreeGrowsWell` | loadgen/internal/topology/generate.go:62-121 | Behind it: the specification of the recursion, for any random choices, grows a tidy subtree in which every span is accounted for. |
| `Generator.PathsDoNotRepeat` | loadgen/internal/topology/generate.go:56-61 | No service appears twice on a path from the root. |
| `Generator.DescendantsRunInside` | loadgen/internal/topology/generate.go:100-118 | Every descendant starts after and ends within each of its ancestors. |
| `Generator.UnrelatedSpansAreDisjoint` | loadgen/internal/topology/generate.go:89-109 | Two spans neither of which is above the other never overlap in time. |
| `Faults.Drop` | loadgen/internal/fault/drop.go:21-34 | Exactly the spans drawn below the rate are marked as dropped; rows and their order are untouched. |
| `Faults.ClockSkewInjector.OffsetFor` | loadgen/internal/fault/clockskew.go:70-95 | A service's offset is decided once, by one draw of its own (zero unless the draw's chance is below the rate, and then the drawn magnitude with the drawn sign), never changes afterwards, is zero for the root service and within the configured bound. |
| `Faults.ClockSkewInjector.Apply` | loadgen/internal/fault/clockskew.go:51-66 | Every span moves by its service's one offset, newly decided ones each from a draw of this call, and nothing else about it changes. |
| `CallGraph.ToRows` | loadgen/internal/groundtruth/writer.go:179-217 | One recorded edge for each span whose parent is in the plan, and all spans recorded. |
| `CallGraph.RecordedEdgeCount` | loadgen/internal/groundtruth/writer.go:198-213 | How often an edge is recorded is how many calls run along it. |
| `CallGraph.AggregateEdges` | analyzer/src/analyzer/topology_agg.py:29-59 | Each edge with a resolved call appears once, with its number of calls and of those with status 2. |
| `Evaluation.ComputeMetrics` | analyzer/src/analyzer/eval.py:62-130 | The counters are the numbers of landed spans with and without a landed parent, and of those with the right verdict. |
| `Evaluation.PerfectIff` | analyzer/src/analyzer/eval.py:86-102 | Attachment and orphan scores are full if and only if every judged span got the right verdict. |
| `Evaluation.F1IsOneIffSameGraph` | analyzer/src/analyzer/eval.py:72-79 | Edge scores lie between 0 and 1, and F1 is 1 if and only if the two graphs are equal. |
| `Evaluation.EdgeScoreIs` | analyzer/src/analyzer/eval.py:72-79 | Precision and recall are the hits' shares of the found and of the true edges, and F1 is twice the hits in both numbers of edges together. |
| `EndToEnd.PlanIsGroundTruth` | loadgen/internal/topology/generate.go:62-121 | A generated plan has every parent before its children and one root. |
| `EndToEnd.LandedLabel` | analyzer/src/analyzer/reassembly.py:101-131 | Whatever spans of a run are read together, a span among them is an orphan exactly if its parent is not among them, and ok otherwise. |
| `EndToEnd.NoLandedCycle` | analyzer/src/analyzer/reassembly.py:117-119 | Reading only some of a run's spans never makes them look cyclic. |
| `EndToEnd.CompleteIffAncestorClosed` | analyzer/src/analyzer/reassembly.py:140-149 | A trace is reported complete exactly if something of it was read, together with everything above it. |
| `EndToEnd.FoundEdgesAreTrue` | analyzer/src/analyzer/topology_agg.py:29-59 | For any part of a run that is read together, whatever its times, every edge found is an edge between two spans of the run. |
| `EndToEnd.RecordedEdgesAreTrue` | loadgen/internal/groundtruth/writer.go:198-213 | The edges between two spans of a plan are exactly those the loader records as ground truth. |
| `EndToEnd.TrueEdgesConcatenate` | loadgen/internal/groundtruth/writer.go:179-217 | A run's true edges are those of its traces put together. |
| `EndToEnd.CountsAreGroundTruth` | analyzer/src/analyzer/topology_agg.py:39-59 | For an unfaulted trace in one window the call counts are the recorded multiset of edges. |
| `Scoring.EvaluateBatches` | analyzer/src/analyzer/eval.py:412-434 | A run read in any number of parts, each reassembled and aggregated on its own: the counters are those of the landed spans; attachment falls short by exactly the calls that landed whole but whose ends were not read together, the orphan score by exactly the orphans that were never read; every edge found is true, the edges missed are those of which no call was read whole, and an edge's call counts fall short of its calls by exactly those missed. |
| `Scoring.Shortfalls` | analyzer/src/analyzer/eval.py:86-102 | Behind it: both shortfalls as numbers of landed spans, for any verdicts stored so far. |
| `Scoring.TotalsAre` | analyzer/src/analyzer/eval.py:86-102 | What the scores are shares of: the landed spans whose caller landed, and those whose caller did not. |
| `Scoring.Evaluate` | analyzer/src/analyzer/eval.py:62-130 | In particular a run read in one window, counted over its landed spans, scores in full. |
| `Scoring.CallsReadAndMissed` | analyzer/src/analyzer/topology_agg.py:29-59 | Along every edge the calls of a run are those that some window read whole, each once, and those whose ends did not both land or were not read together. |
| `WindowedRun.EvaluateRun` | analyzer/src/analyzer/main.py:77-115 | The poll loop over any clock, each window reading what starts in it and has landed by then, and the score over all that landed: the counters are those of the landed spans, each recorded edge is counted as often as its calls were read whole, and if nothing is late, attachment falls short by exactly the calls whose ends start in different windows. |
| `WindowedRun.ScoreRun` | loadgen/cmd/loadgen/main.go:201-224 | From random choices to scores, for every topology, number of traces, drop rate, skew, window schedule and clock: one generated trace for each element of the draws, landed exactly as the drop draws and the injector's offsets have it, scored over what landed; if nothing is late, attachment is full if and only if no landed call has its ends in different windows, and every orphan is recognised; late or not, no edge is invented. |
| `WindowedRun.InTimeSplits` | analyzer/src/analyzer/reader.py:76-92 | If nothing is late, the calls torn apart by reading are exactly those that cross a window boundary, and no orphan goes unread. |
| `WindowedRun.TogetherIff` | analyzer/src/analyzer/reader.py:30-36 | Two landed spans are read together if and only if they start in the same window and both landed before it was processed. |
| `WindowedRun.SkewTearsACall` | loadgen/internal/fault/clockskew.go:51-66 | A second into any minute: a call that two seconds of skew move across the window boundary, whole without it, torn with it. |
| `WindowedRun.AWindowBoundaryTearsACall` | analyzer/src/analyzer/reader.py:30-36 | A trace a millisecond before any minute that, without any fault, the window boundary tears. |
| `FaultRun.RunTraces` | loadgen/cmd/loadgen/main.go:201-224 | Any number of traces through one injector: one generated trace for each element of the draws, each thinned out by its own drop draws and moved by the clocks as they stand at the end; what is recorded is ground truth with one root per trace, what lands is a part of it, and each edge is recorded as often as it is called. |
| `FaultRun.SendTrace` | loadgen/cmd/loadgen/main.go:209-224 | One trace from the configured root at the drawn time: generated, recorded before any fault, and sent; what lands is exactly what the drop draws keep, in order, each span moved by its service's offset, and it counts as complete exactly if it is not empty and closed under ancestors. |
| `FaultRun.RunOneTrace` | loadgen/cmd/loadgen/main.go:209-224 | The whole way of one trace: for every topology, random choice, drop rate and skew, if what the draws keep of the generated trace is read in one window, the reconstruction, counted over the landed spans, is scored as perfect against the recorded edges. |
| `FaultRun.GeneratedIs` | loadgen/internal/topology/generate.go:32-121 | What generated means for the rows: the first is the only root, of the configured service at the drawn time; ids are those drawn; and every edge of the trace is a configured one. |
| `FaultRun.LandedIff` | loadgen/cmd/loadgen/main.go:271-300 | A span lands if and only if it is a planned one whose drop draw spared it, moved by its service's offset. |
| `FaultRun.ThinnedLands` | loadgen/cmd/loadgen/main.go:271-300 | What is kept and moved is a part of the planned trace, each span at most once. |
| `SkewedRun.EstimatesOfARun` | analyzer/src/analyzer/clockskew.py:69-148 | Whatever part of a run is read, the estimates made from it are the injector's own offsets against the root's, plus the excess of the planned delays on each service's chain of callers, within half a nanosecond per hop. |
| `SkewedRun.ARunRevealsItsOffsetsIff` | analyzer/src/analyzer/clockskew.py:69-148 | Exact condition, where planned calls all typically take the same time and no skew mirrors that delay: the injector's offsets come out of a part of a run if and only if some call in it joins services whose clocks agree and none is skewed to look quicker than it is, or nothing but the root is estimated. |
| `SkewedRun.ARunShowsNoViolationIff` | analyzer/src/analyzer/clockskew.py:55-66 | A part of a run shows no violation if and only if every planned call tolerates the skew between its ends; a callee behind its caller's clock by no more than the call overhead never shows one. |
| `FlameGraph.BuildFlameNodes` | dashboard/src/lib/flameGraph.ts:25-58 | Exactly the spans that reassembly does not reject as cyclic are shown, each once, in depth-first order, siblings in row order, roots before orphans and both in row order, at the distance of their root or orphan, and marked as belonging to an orphan exactly if theirs is one. |
| `FlameGraph.Walker.Walk` | dashboard/src/lib/flameGraph.ts:45-52 | The recursive walk ends on any links and leaves one depth-first stretch under its span, with siblings in row order. |
| `FlameLayout.VisibleFlameNodes` | dashboard/src/lib/flameGraphLayout.ts:31-80 | One pass draws exactly the nodes that no cut hides, in order, each with the number of hidden nodes it stands for, up to the render cap. |
| `FlameLayout.DrawingConservesNodes` | dashboard/src/lib/flameGraphLayout.ts:31-77 | Drawn nodes and the counts on their placeholders add up to all nodes, for every set of expanded spans. |
| `FlameLayout.VisibleIffNoCutAbove` | dashboard/src/lib/flameGraphLayout.ts:47-50 | A node is drawn if and only if neither it nor anything above it is too deep and unexpanded; so what is drawn is closed under ancestors. |
| `FlameLayout.VisibleIffExpanded` | dashboard/src/lib/flameGraphLayout.ts:47-50 | Spelled out: it is drawn if and only if, of it and everything above it, whatever is deeper than eight has an expanded parent. |
| `FlameLayout.ShallowIsVisible` | dashboard/src/lib/flameGraphLayout.ts:47-50 | With nothing expanded exactly the depths up to eight are drawn. |
| `FlameLayout.ExpandingReveals` | dashboard/src/lib/flameGraphLayout.ts:47-50 | Expanding more spans never hides one. |
| `FlameLayout.CountIsBelow` | dashboard/src/lib/flameGraphLayout.ts:40-45 | The recursive count is the number of nodes strictly below. |
| `FlameLayout.HiddenUnderIs` | dashboard/src/lib/flameGraphLayout.ts:65-73 | A drawn node stands for everything below it if its children are cut, and for nothing else if not. |
| `FlameLayout.BuiltNodesAreLayered` | dashboard/src/lib/flameGraphLayout.ts:26-30 | What buildFlameNodes returns meets what the layout asks of its input. |
| `FlameLayout.DrawTrace` | dashboard/src/lib/flameGraph.ts:25-58 | Across both functions, before the render cap: nodes drawn or hidden, plus spans rejected as cyclic, are all spans of the trace. |
| `Grouping.GroupDetections` | analyzer/src/analyzer/suppression.py:65-85 | For each key the incidents are built from the runs of its sorted detections. |
| `Grouping.OneKeyOneTarget` | analyzer/src/analyzer/suppression.py:71-74 | As long as no caller's name contains the tip of the arrow, one group holds detections of one target, service or edge, and one detector. |
| `Grouping.GroupSorted` | analyzer/src/analyzer/suppression.py:75-84 | The loop over one sorted group closes a run exactly where the next one begins. |
| `Grouping.RunsAreMaximal` | analyzer/src/analyzer/suppression.py:77-83 | The runs are the whole sorted list in order, with gaps of at most a window inside a run and larger ones between runs. |
| `Grouping.RunsAreUnique` | analyzer/src/analyzer/suppression.py:77-83 | There is no other way to split the list like that. |
| `Grouping.SortIs` | analyzer/src/analyzer/suppression.py:75-75 | Sorting orders by window start and keeps every detection. |
| `Grouping.PeakIs` | analyzer/src/analyzer/suppression.py:89-89 | The peak is a detection that none of its run outranks. |
| `Grouping.IncidentSummarisesRun` | analyzer/src/analyzer/suppression.py:88-100 | An incident starts and ends with its run and counts it; its peak is critical if any of the run is, with the largest deviation either way of that severity; its id is of its key and start. |
| `Grouping.WindowCountsConserveDetections` | analyzer/src/analyzer/suppression.py:65-85 | The window counts of all incidents add up to the number of detections. |
| `Grouping.LaterDetectionsKeepIncidents` | analyzer/src/analyzer/main.py:204-213 | As far as nothing is forgotten: adding detections no earlier than the known ones keeps the id, start and target of every known incident; only the last of a key changes, and only grows. |
| `Lookback.ForgettingKeepsIdsIff` | analyzer/src/analyzer/main.py:214-218 | Exact condition for what the lookback forgets: the incidents grouped from the detections it still reads all have ids that the whole history gives, too, if and only if no incident of the key began before the lookback and still went on in it; then they are exactly the incidents from there on. |
| `Suppression.SuppressPropagated` | analyzer/src/analyzer/suppression.py:103-180 | The loops over the incidents give each one exactly the verdict that resolving gives it, for some enumeration of the edges. |
| `Suppression.ResolveRoot` | analyzer/src/analyzer/suppression.py:124-150 | Resolving ends on every topology, cyclic or not, at a tabled incident of the same detector and kind. |
| `Suppression.MinByLabelIs` | analyzer/src/analyzer/suppression.py:150-150 | The chosen candidate is one whose label no other candidate's comes before, as strings compare. |
| `Suppression.OverlapsIff` | analyzer/src/analyzer/suppression.py:121-122 | Two incidents overlap if and only if some moment belongs to both. |
| `Suppression.LastOfKeyIsTabled` | analyzer/src/analyzer/suppression.py:114-116 | Of several incidents with one key, the last is the one looked up. |
| `Suppression.ListCallees` | analyzer/src/analyzer/suppression.py:117-119 | The adjacency lists hold exactly the edges. |
| `RootCauses.RootIgnoresOrder` | analyzer/src/analyzer/suppression.py:124-150 | On any topology the root found does not depend on the order in which edges are enumerated. |
| `RootCauses.ResolvedIsLinked` | analyzer/src/analyzer/suppression.py:124-150 | On any topology the root is joined to the start by call edges between incidents whose neighbouring windows overlap. |
| `RootCauses.AcyclicResolvesToSink` | analyzer/src/analyzer/suppression.py:124-150 | On an acyclic topology resolving ends where no callee has an overlapping incident. |
| `RootCauses.AcyclicRootIsFirst` | analyzer/src/analyzer/suppression.py:132-150 | On an acyclic topology no sink that the links lead to comes before the root by label. |
| `CircularCalls.OnlyVisitedBelowMatters` | analyzer/src/analyzer/suppression.py:132-139 | Wherever calls never go up in rank, cycles within a rank allowed, what an incident resolves to depends on the visited incidents at or below its rank alone; on an acyclic topology, where all visited are above it, on none. |
| `RootCauses.ResolvesToSinksIffAcyclic` | analyzer/src/analyzer/suppression.py:127-131 | Exact condition: resolving ends at a sink for all incidents and enumerations if and only if the topology has no cycle, self-calls included. |
| `Attribution.OutcomeIs` | analyzer/src/analyzer/suppression.py:114-180 | On any topology only the last incident of a key is ever marked, and nothing but the verdict is added. |
| `Attribution.RootCauseIsAnIncident` | analyzer/src/analyzer/suppression.py:152-178 | Every root cause names a service incident of the same detector in the same batch. |
| `Attribution.EdgeIncidentIsDerivedIff` | analyzer/src/analyzer/suppression.py:160-178 | On any topology the last incident of a call edge is derived if and only if the last incident of its detector on the called service overlaps it in time. |
| `Attribution.EdgeRootCauseIs` | analyzer/src/analyzer/suppression.py:160-178 | Its root cause is then where that incident's links end; without cycles the first by label of all the sinks they lead to, which is that incident itself if it is a sink. |
| `Attribution.ServiceRootCauseIs` | analyzer/src/analyzer/suppression.py:152-159 | Without cycles a service incident's root cause is the first by label of all the sinks that its links lead to, and it has one exactly unless it is a sink. |
| `Attribution.RootCausesAreNotDerived` | analyzer/src/analyzer/suppression.py:152-178 | Where no service calls two others that can call it back (so that, self-calls apart, cycles are circles without a service in common), every root cause names an incident that is not itself derived; without any cycle it is also the end of its links. |
| `CircularCalls.RootIsSettled` | analyzer/src/analyzer/suppression.py:124-150 | Where no service calls two others that can call it back, resolving a root again gives that root. |
| `CircularCalls.WalkResolves` | analyzer/src/analyzer/suppression.py:132-150 | There, an incident resolves to the first by label of what its walk around the circle meets: roots further down, services that call themselves, and where the walk comes back to or ends. |
| `CircularCalls.AcyclicCyclesAreSimple` | analyzer/src/analyzer/suppression.py:127-131 | Acyclic topologies are among those. |
| `CircularCalls.ShortCyclesAreSimple` | analyzer/src/analyzer/suppression.py:127-131 | And so are those whose cycles pass through at most two services. |
| `Attribution.DerivedIffLinked` | analyzer/src/analyzer/suppression.py:152-159 | On an acyclic topology a kept service incident is derived if and only if a direct callee has an overlapping incident of the same detector. |
| `Attribution.OutcomeIgnoresOrder` | analyzer/src/analyzer/suppression.py:117-180 | The annotated incidents do not depend on the enumeration of the edge set. |
| `Attribution.CyclicRootCauseCanBeDerived` | analyzer/src/analyzer/suppression.py:127-131 | Three services calling in circles for which a root cause is itself marked as derived. |
| `Attribution.GroupedIncidentsAreFresh` | analyzer/src/analyzer/suppression.py:88-100 | Grouping gives every incident an id of its own. |
| `Attribution.Attribute` | analyzer/src/analyzer/main.py:204-213 | From raw detections to annotated incidents: no detection is lost, nothing but verdicts is added, a call edge's incident is derived exactly if the called service's last one overlaps it, and where cycles of calls are circles without a service in common every root cause is underived. |
| `ClockSkew.EstimateOffsets` | analyzer/src/analyzer/clockskew.py:69-148 | The estimated services are exactly those whose chain of primary callers reaches the root, each with its estimate along that chain and the number of calls behind it; what that is in terms of the rows, StartTimes says. |
| `ClockSkew.SearchOutward` | analyzer/src/analyzer/clockskew.py:121-146 | The frontier loop ends on every graph and finds exactly those services. |
| `ClockSkew.PrimaryIs` | analyzer/src/analyzer/clockskew.py:117-131 | A called service's primary caller is an observed caller, and no caller has more calls. |
| `ClockSkew.LeastMagnitudeIs` | analyzer/src/analyzer/clockskew.py:115-115 | The typical gap is an edge median of least magnitude. |
| `ClockSkew.DetectViolations` | analyzer/src/analyzer/clockskew.py:55-66 | One violation for each resolved call that does not run inside its caller, of the kind that its start decides. |
| `ClockSkewLaws.EstimateCharacterised` | analyzer/src/analyzer/clockskew.py:102-141 | Given the listed pairs and the tree: each estimate is the service's offset from the root's plus what the true medians on its chain exceed the typical gap, within half a nanosecond per hop. |
| `ClockSkewLaws.SkewIsRecoveredIffCleanComesFirst` | analyzer/src/analyzer/clockskew.py:69-148 | The estimator on skewed rows, any skew, exact condition: where every edge's median delay is the same, all true offsets come out if and only if no edge is skewed by something between minus twice the delay and zero and some edge between agreeing clocks is listed before any that is skewed by exactly minus twice the delay, or nothing but the root is estimated. |
| `ClockSkewLaws.SkewIsRecoveredIff` | analyzer/src/analyzer/clockskew.py:69-148 | The same without a listing, where no edge is skewed by exactly minus twice the delay: if and only if some call joins agreeing clocks and none is skewed in between. |
| `ClockSkewLaws.SkewIsRecoveredIffSomeCallIsClean` | analyzer/src/analyzer/clockskew.py:69-148 | In particular, where clocks that differ across a call differ by more than twice the delay, one call between agreeing clocks decides. |
| `ClockSkewLaws.EstimatesOfSkewedRows` | analyzer/src/analyzer/clockskew.py:69-148 | The estimator on any skewed rows: each estimate is the true offset plus the excess delays on the service's chain of callers, within half a nanosecond per hop. |
| `ClockSkewLaws.OneCleanCallBoundsTheError` | analyzer/src/analyzer/clockskew.py:88-94 | The estimator on skewed rows with delays that vary: where differing clocks differ by more than twice the longest median delay, one call between agreeing clocks bounds every error by the spread of the delays and half a nanosecond per hop. |
| `ClockSkewLaws.MediansIgnoreListing` | analyzer/src/analyzer/clockskew.py:102-113 | Edges and median gaps are the same however the calls of the rows are listed. |
| `ClockSkewLaws.UniformDelaysRecoveredIff` | analyzer/src/analyzer/clockskew.py:72-78 | Exact condition: with one true delay everywhere, offsets are recovered exactly if and only if the typical gap is that delay, or only the root is estimated. |
| `ClockSkewLaws.TypicalIsTrueIff` | analyzer/src/analyzer/clockskew.py:102-115 | When the typical gap is the true delay, for any skew: exactly if no skewed median comes closer to zero and a true one is met first. |
| `ClockSkewLaws.RecoveredIffSomeEdgeIsClean` | analyzer/src/analyzer/clockskew.py:88-94 | Where skew is more than twice the delay, offsets are recovered if and only if some edge joins services whose clocks agree. |
| `ClockSkewLaws.OneCleanEdgeBoundsTheError` | analyzer/src/analyzer/clockskew.py:88-94 | The same bound given the listed pairs, where skew, if there is any, is more than twice the longest delay. |
| `ClockSkewLaws.MostDelaysWithin` | analyzer/src/analyzer/clockskew.py:72-74 | For that it is enough that most calls along each edge are near the true delay. |
| `ClockSkewLaws.CommonSkewIsInvisible` | analyzer/src/analyzer/clockskew.py:6-17 | Skewing all clocks alike changes no estimate: what the rows skewed one way lead to, the rows skewed the other way lead to as well. |
| `ClockSkewLaws.GapsOfSkewedPairs` | loadgen/internal/fault/clockskew.go:110-134 | Skew moves every gap along an edge by the difference of the two offsets, and nothing else the estimator reads. |
| `ClockSkewLaws.PairsOfSkewedRows` | loadgen/internal/fault/clockskew.go:51-66 | The pairs found in skewed rows are the skewed pairs of the rows. |
| `ClockSkewLaws.NoViolationsIff` | analyzer/src/analyzer/clockskew.py:55-66 | Skewed spans of a causal run show no violation if and only if, for every call, the skew between its ends is within the slack between them. |
| `ClockSkewLaws.GeneratedTraceHasNoViolations` | analyzer/src/analyzer/clockskew.py:55-66 | Any part of an unfaulted generated trace shows none. |
| `StartTimes.EqualStartsAreRecoveredIff` | analyzer/src/analyzer/clockskew.py:102-141 | In terms of when spans start: where under the true clocks every call starts equally long after its caller and no skew mirrors that delay, the offsets come out if and only if some call joins agreeing clocks and none is skewed in between, or nothing but the root is estimated. |
| `StartTimes.AgreeingClocksShowNoOffset` | analyzer/src/analyzer/clockskew.py:102-141 | In particular, where the clocks agree no service is estimated to be off. |
| `StartTimes.EndsChangeNoEstimate` | analyzer/src/analyzer/clockskew.py:108-112 | However the ends of spans are changed, no estimate changes. |
| `StartTimes.GapsAre` | analyzer/src/analyzer/clockskew.py:108-112 | The gaps along an edge are the differences of the starts of its calls. |
| `StartTimes.ConfidenceIs` | analyzer/src/analyzer/clockskew.py:117-141 | A service's confidence is how often it is called by the service that calls it most; the root's is zero. |
| `Depths.ComputeDepths` | analyzer/src/analyzer/eval.py:200-235 | Exactly the services reachable from a never-called caller, each at its shortest call distance, on cyclic graphs too. |
| `Depths.ComputeDepthsOfList` | dashboard/src/lib/topologyLayout.ts:17-46 | The same for a list of edges that may repeat. |
| `Depths.DepthsAreUnique` | dashboard/src/lib/topologyLayout.ts:11-16 | The two implementations return the same map. |
| `Depths.Search` | analyzer/src/analyzer/eval.py:222-234 | The frontier loop ends and settles one level per turn. |
| `Statistics.PercentilesAreOrdered` | analyzer/src/analyzer/statutil.py:12-22 | A higher percentile is never a smaller value, and all lie between the least and the largest sample. |
| `Statistics.FiftiethPercentileIsMedian` | analyzer/src/analyzer/statutil.py:12-26 | The interpolated 50th percentile is the median. |
| `Statistics.PercentileAtSample` | analyzer/src/analyzer/statutil.py:12-22 | The k-th of n sorted samples is their 100k/(n-1)-th percentile. |
| `Statistics.AtIsLinear` | analyzer/src/analyzer/statutil.py:12-22 | Between two samples the interpolated value moves on a straight line. |
| `Statistics.MedianSplits` | analyzer/src/analyzer/statutil.py:25-26 | At least half of the samples are no more than the median, and at least half no less. |
| `Statistics.MadSplits` | analyzer/src/analyzer/statutil.py:29-37 | At least half of the samples are within the deviation of the median, and at least half no closer. |
| `Statistics.MedianIsInMajority` | analyzer/src/analyzer/statutil.py:25-26 | If more than half of the samples lie in an interval, so does the median. |
| `Statistics.MadIsWithinMajority` | analyzer/src/analyzer/statutil.py:29-37 | And the median absolute deviation is no wider than the interval. |
| `Statistics.MedianIgnoresOrder` | analyzer/src/analyzer/statutil.py:25-26 | The median depends on the samples only as a multiset. |
| `Statistics.MedianShifts` | analyzer/src/analyzer/statutil.py:25-26 | Moving all samples moves the median by as much. |
| `Detectors.ComputeBaseline` | analyzer/src/analyzer/baseline.py:62-92 | The error rate of a baseline is a fraction. |
| `DetectionLaws.BaselineIs` | analyzer/src/analyzer/baseline.py:62-92 | Half of the lookback lies on either side of each median, and half on either side of each deviation from it; ready exactly with enough calls. |
| `Detectors.DetectPercentileDeviation` | analyzer/src/analyzer/detectors.py:88-123 | The result lists exactly the targets whose percentile alarm is raised, one report each, in the order of the window's stats; what raises one is PercentileDetectionsAre. |
| `Detectors.DetectErrorRateChange` | analyzer/src/analyzer/detectors.py:126-164 | The result lists exactly the targets whose error-rate alarm is raised, one report each, in the order of the window's stats. |
| `Detectors.DetectCallRateDrop` | analyzer/src/analyzer/detectors.py:167-216 | The result lists exactly the baselines whose call-rate alarm is raised, silent targets included, one report each, in their order. |
| `Detectors.RaisedReports` | analyzer/src/analyzer/detectors.py:88-216 | What the three lists contain: as many reports as raised alarms, in order, each that of its target. |
| `Detectors.ReportedIff` | analyzer/src/analyzer/detectors.py:88-216 | A detection is in such a list if and only if it reports the raised alarm of some target. |
| `Detectors.PercentileDetectionsAre` | analyzer/src/analyzer/detectors.py:88-123 | Where p95 is no more than p99, a target is in the percentile detector's list if and only if its baseline is ready with a positive deviation and its p99 exceeds the median by the scaled deviation. |
| `Detectors.MeasuredDetectionsAre` | analyzer/src/analyzer/detectors.py:88-123 | The same of a measured window: as its percentiles come from one set of latencies, the 99th alone decides. |
| `DetectionLaws.CriticalTailsAre` | analyzer/src/analyzer/detectors.py:88-123 | It is listed as critical exactly if p99 also exceeds the median by twice as much. |
| `DetectionLaws.ErrorRateDetectionsAre` | analyzer/src/analyzer/detectors.py:126-164 | For a non-negative threshold, a target is in the error-rate list if and only if its baseline is ready, the window has the minimum number of calls, and the comparison of products holds; and as critical exactly if it also holds for twice the threshold. |
| `DetectionLaws.CallRateDetectionsAre` | analyzer/src/analyzer/detectors.py:167-216 | A target is in the call-rate list if and only if its baseline is ready and its calls, none if it is silent, are below the median by the scaled deviation, or below half of a median that never deviates; and as critical exactly if they also are for twice the threshold. |
| `DetectionLaws.TailDeviationIs` | analyzer/src/analyzer/detectors.py:88-123 | The deviation a tail is listed with is how many scaled deviations its p99 lies above the median. |
| `DetectionLaws.ErrorDeviationIs` | analyzer/src/analyzer/detectors.py:126-164 | The deviation an error rate is listed with exceeds exactly the thresholds that its errors pass. |
| `DetectionLaws.CallRateDeviationIs` | analyzer/src/analyzer/detectors.py:167-216 | The deviation a call rate is listed with is how many scaled deviations, or medians if they never deviate, it lies away from the median. |
| `Detectors.MoreErrorsLoseNoDetection` | analyzer/src/analyzer/detectors.py:126-164 | More errors among the same calls, anywhere in the window, remove no error-rate detection and make none less severe. |
| `Detectors.FewerCallsLoseNoDetection` | analyzer/src/analyzer/detectors.py:167-216 | Fewer calls, anywhere, down to targets that fall silent, remove no call-rate detection and make none less severe. |
| `Detectors.ExceedsIffScaled` | analyzer/src/analyzer/detectors.py:141-152 | For a non-negative threshold the test, square root and division included, is a comparison of products linear in the error count. |
| `Detectors.MoreErrorsNeverQuiet` | analyzer/src/analyzer/detectors.py:138-163 | More errors among the same calls never silence the alarm and never lower its deviation or severity. |
| `Detectors.NeverQuietedIff` | analyzer/src/analyzer/detectors.py:145-152 | Exact condition: against ready baselines of any given size, and with samples of at least the minimum size, more errors never silence the detector if and only if the threshold is not negative. |
| `Detectors.PercentileAlarmIff` | analyzer/src/analyzer/detectors.py:100-111 | As percentiles are ordered, the alarm depends on p99 alone: it fires exactly if p99 exceeds the median by the scaled deviation. |
| `Detectors.ContaminatedBaselineStillDetects` | analyzer/src/analyzer/baseline.py:33-48 | With a ready baseline whose deviation is positive: while more than half of the lookback's calls took between lo and hi, a tail clearly above hi is detected and one not above lo is not, whatever the rest took. |
| `Detectors.FewerCallsNeverQuiet` | analyzer/src/analyzer/detectors.py:174-215 | Fewer calls never silence the call-rate alarm, on a steady baseline or not. |
| `Windowing.WindowTracker.DueWindows` | analyzer/src/analyzer/windowing.py:56-73 | Exactly the windows from the cursor on whose watermark has passed, oldest first; asking again changes nothing, and the loop ends. |
| `Windowing.WindowTracker.MarkProcessed` | analyzer/src/analyzer/windowing.py:75-84 | The cursor never moves back, is past the marked window, and has moved no further than that takes; so after any history of marks it is where CursorAfter has it. |
| `Windowing.CursorIsContiguousIff` | analyzer/src/analyzer/windowing.py:75-84 | Exact condition, over any history of marks: the cursor is at the highest contiguous point if and only if no window from the first on was left out below a marked one. |
| `Windowing.CursorIsPastTheMarks` | analyzer/src/analyzer/windowing.py:75-84 | After any history the cursor is past every marked window, and either has not moved or is just past one of them. |
| `Windowing.Run` | analyzer/src/analyzer/main.py:55-74 | For any clock readings, backwards ones too, the processed windows are consecutive from the first, each once, in order, at a reading past its watermark; the late-check boundary is the start of the next. |
| `Windowing.ProcessedIff` | analyzer/src/analyzer/main.py:60-64 | A window is processed if and only if it is not before the first and some reading was past its watermark. |
| `Windowing.BoundaryNeverDecreases` | analyzer/src/analyzer/windowing.py:86-96 | The late-check boundary never moves back. |
| `Windowing.BoundaryIsLastEnd` | analyzer/src/analyzer/windowing.py:86-96 | It is the end of the last processed window, once there is one. |
| `Windowing.ReadOnceIffBeforeBoundary` | analyzer/src/analyzer/windowing.py:86-92 | A span in or after the first window lies in exactly one processed window if it starts before the boundary, and in none if not. |
| `Windowing.Schedule.WindowsPartitionTime` | analyzer/src/analyzer/windowing.py:26-32 | Every instant lies in exactly one window, that of its index. |

## Left out

- ClickHouse, Kafka, gRPC and HTTP clients, SQL text, metrics, logging and configuration loading: only what the protocol assumes of polls, inserts and commits is kept.
- The API layer and the React views: no state or algorithm of their own.
- Incident specifications, YAML validation, admission control, dispatch by delay: checks and limits that would only add easy members.
- Out-of-order and late-arrival injectors: they only delay sending, and every theorem about landed spans holds for any order and any subset.
- Restarts of the analyzer and row merging in the table: the state lives outside the code shown.
- Incident precision in `compute_incident_metrics`: several true incidents can match one found key.
- `layoutNodes`, `traceTimeBounds`, `spanFraction`: positions and fractions for drawing.
- The interval between late checks and what they count: only the boundary they use is modelled, and that a span which lands after its window was processed is not read.
- The margin around a run's time range when found edges are fetched: fewer windows' edges are still true edges.
- Floating-point rounding and the range of 64-bit integers: real numbers and unbounded integers stand for them; `round` in the offset estimator is modelled exactly.
- Consumer.Consumer.HandleRecord: a push that blocks is a step that does not happen yet; the Go scheduler and select fairness are not modelled, every interleaving and every choice is allowed.
- ConsumerProtocol.LosslessRunIsCommitSafe: covers runs without the three lossy events; the others are covered by the exact condition and by `ConsumerLosses.CarefulRunIsCommitSafe`.
- CallGraph.AggregateEdges: leaves out the latency percentiles of an edge, which are covered by `Statistics`.
- Evaluation.ComputeMetrics: leaves out the per-service clock errors and the copied counts.
- Generator.Generator.GenerateSubtree: call decisions, own latencies (at least one millisecond) and statuses are oracles; span names and attributes are not modelled.
- Faults.ClockSkewInjector.Apply: shifted times are unbounded integers, where the source adds in 64 bits.
- Grouping.GroupDetections: detections carry no observed and baseline values, which grouping never reads.
- Attribution.RootCausesAreNotDerived: one direction only; where a service calls two others that can call it back it can fail, as `Attribution.CyclicRootCauseCanBeDerived` shows, but not every such topology fails, and no simple condition for exactly those is given.
- ClockSkewLaws.OneCleanCallBoundsTheError: needs skew that is more than twice the longest true delay wherever there is any; without that, only uniform delays are settled.
- WindowedRun.EvaluateRun: a window reads what has landed by the clock reading of its poll; the source fetches a moment later in the same pass, so that spans landing in between are read, too.
- Windowing.Run: a finite number of polls, each of which handles its windows without failing.
