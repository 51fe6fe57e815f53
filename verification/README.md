# Verified models of the measurement and deployment tools

The repository holds the tooling around a timed performance contest: it deploys a service, measures it under
load, and shows what happened. Most of that tooling moves files and calls programs. Ten of its source files
decide something that is easy to get subtly wrong, and these are modelled here in Dafny and proved.

- **Layered graph of API calls** (`Digraph`, `LayoutModel`, `DepthFirst`, `BackEdges`, `Layers`,
  `LayoutColumns`, `Layout`, `Chronology`, `ChronologyExamples`). Return edges are marked by a depth-first search
  over an explicit stack, which refines the recursive search, or by a timeline when every API is on it; a queue
  then computes the columns, and six passes order them by barycentres. Every node is placed, columns are longest
  path lengths, unmarked edges run forward, and in the search branch every node that entry points reach stays
  within their reach along unmarked edges.
- **Deployment plans** (`DeployPlan`, `PlanRun`, `ConfigInclude`). Reading a declaration with its includes,
  rejecting plans with a cycle, and running the rest in rounds that skip the dependents of failures. The
  validation is what makes the scheduler's no-progress exit unreachable, so that theorem spans both files.
- **Load window** (`Traffic`, `TrafficSearch`, `TrafficThreshold`). The interval finder over per-second
  request counts, the search that repeats it, and the threshold that both use.
- **Profile captures** (`ProfileCapture`). Concurrent capture and stop requests over a try-lock per kind, an
  owner table and a table of stop channels, as a state machine of atomic steps with an inductive invariant; every
  capture can always get through, and then holds nothing.
- **Protocol Buffers and JSON selection** (`Wire`, `ProtoReader`, `ProtoSelect`, `JsonPointers`,
  `JsonPointerStandard`, `Decimals`). The wire format follows the Protocol Buffers Encoding guide, sections
  "Base 128 Varints", "Message Structure" and "Signed Integers". The escapes of pointers are those of RFC 6901;
  the lookup is more lenient than its section 4, and where it differs is stated exactly.
- **Session transitions** (`TransitionModel`, `Transitions`, `Scenarios`, `TransitionReport`). Consecutive calls
  of a session are counted on edges, globally and per scenario, where a scenario is a set of nodes.
- **Snapshot recordings** (`Snapshots`, `SnapshotIndexText`, `SnapshotRecorder`, `SnapshotReader`,
  `SnapshotFormat`, `SnapshotCoverage`). A recorder that writes an archive, a reader that validates it, and a
  judgement of whether it covers the load window. The recorder's count of bytes is the bytes that the members
  occupy, and its reserve is enough for the byte limit; the reader accepts exactly the recordings of a format
  that is stated without the reader's own functions.

`ApiNodes`, `Options` and `Sequences` hold small shared definitions and facts.

Loops and objects that the sources update in place are methods and classes proved against specification
functions; the properties are then lemmas about those functions or about the states that the methods reach.
Iteration over hash tables is an arbitrary choice of the next key, comparators are arbitrary functions, and the
outcomes of jobs, profilers and decoders are arbitrary inputs.

## What the proofs found

- The comment above the layout suggests that marked edges are drawn as return edges. In the search branch this
  is exactly so. In the chronological branch it is not: a marked edge can be drawn inside a column
  (`ChronologyExamples.MarkedMayBeSibling`) or even forward (`ChronologyExamples.MarkedMayBeForward`), and both
  layouts are constructed. The exact rule is that an edge is drawn by the lengths of the longest paths forward
  in time into its two ends (`Chronology.KindIsDecidedByTime`); all marked edges are drawn back iff every edge
  back in time leads to a node that is less deep (`Chronology.MarkedAreBackIff`).
- A stop request that arrives after a profiler has started, but before the capture is published, is accepted
  and lost; a run of five steps does it (`ProfileCapture.StopCanBeLost`). An accepted stop reaches the capture
  that holds the kind iff that capture is published (`ProfileCapture.AcceptedStopReachesIff`).
- The JSON lookup accepts indexes with a sign or leading zeros, and a tilde without its digit, which RFC 6901
  forbids, and it reports null as missing (`JsonPointerStandard.LenientTokens`). Apart from null, it agrees with
  the standard on every document iff no token is of these kinds (`JsonPointerStandard.AgreesEverywhereIff`).
- Two failure returns of the interval finder cannot be reached from the window search: the collection is
  never too short there, and the end never precedes the start (`Traffic.DetectInterval`,
  `TrafficSearch.SearchWindow`).
- An index entry with the timestamp zero and an unknown name passes the reader's check of that entry when the
  recording starts at or before zero (`SnapshotReader.MissingNameIsChecked`, with a complete index in
  `SnapshotReader.UnknownNameIsChecked`). The comparison of the two counts is what rejects it in the end
  (`SnapshotReader.AllCheckedIsListed`).
- Three intervals can wrap around in 64 bits. An accepted recording cannot profit from it: its bound is still
  positive and no larger than three intervals (`SnapshotCoverage.GapIsPositive`).
- The monotonic, gap and count checks of the coverage judgement repeat what the reader has already ensured and
  never cause a rejection (`SnapshotCoverage.Inspect`).

## Model

| member | source | states |
|---|---|---|
| Layout.LayoutGraph | tools/dashboard/web/src/components/TransitionNodeGraph.tsx:112-331 | for every edge list, timeline and set of comparators: the marked arcs leave an acyclic graph, every node lies in one column, the columns have no gap, each edge is classified by the layers of its ends, and with a full timeline exactly the arcs back in time are marked; in the search branch the marks are those of the search from the entry points, which lose none of their reach; the linked nodes of every column follow the mean rows of their neighbours to the right; an empty edge list gives the empty graph |
| LayoutModel.CollectNodes | tools/dashboard/web/src/components/TransitionNodeGraph.tsx:113-129 | the node list names exactly the ends of the edges, each once |
| LayoutModel.CollectLinks | tools/dashboard/web/src/components/TransitionNodeGraph.tsx:134-142 | the successor lists hold exactly the arcs between different nodes, each list holds what the edges put into it, and an in-degree is zero exactly for a node without an arc into it |
| Layout.ChooseMarked | tools/dashboard/web/src/components/TransitionNodeGraph.tsx:151-207 | the chronological branch is taken iff every node is on the timeline; its positions follow the timeline comparator whenever that is an order, and it marks exactly the arcs that run to an earlier position; the other branch marks what the depth-first search from the seeds and then from all other nodes marks; either way the unmarked arcs are acyclic |
| Layout.SearchOrder | tools/dashboard/web/src/components/TransitionNodeGraph.tsx:172-183 | the search begins at the nodes without an arc into them, in the order of the comparator, or failing those at one node that nothing precedes; all other nodes follow in the order of the node list |
| Layout.SeedsKeepReach | tools/dashboard/web/src/components/TransitionNodeGraph.tsx:179-183 | every node that a node without incoming arcs reaches is still reached from such a node along unmarked arcs |
| BackEdges.MarkBackwards | tools/dashboard/web/src/components/TransitionNodeGraph.tsx:166-170 | with a full timeline an arc is marked iff its target comes earlier |
| BackEdges.ForwardInTimeIsAcyclic | tools/dashboard/web/src/components/TransitionNodeGraph.tsx:155-170 | positions in a total order separate nodes, so what is not marked as running backwards has no cycle |
| BackEdges.MarkBackEdges | tools/dashboard/web/src/components/TransitionNodeGraph.tsx:182-206 | from any start list that covers the nodes, the search finishes every node exactly once, its marked arcs break every cycle, each marked arc has unmarked arcs leading back along it, and an acyclic graph gets no mark; the marks are exactly those of the recursive depth-first search, and what any number of leading starts reach they reach along unmarked arcs |
| BackEdges.Turn | tools/dashboard/web/src/components/TransitionNodeGraph.tsx:187-205 | one turn of the loop over the explicit stack is one step of the search: finish, mark, skip or discover |
| BackEdges.Explore | tools/dashboard/web/src/components/TransitionNodeGraph.tsx:185-205 | running the stack until it is empty keeps the search invariant, colours what the recursive visit of the start node visits and marks what it marks; the loop ends because colours, stack and unexamined successors shrink in this order |
| BackEdges.TurnUnwinds | tools/dashboard/web/src/components/TransitionNodeGraph.tsx:187-205 | a turn does not change what the recursive search, run on what is left on the stack, visits and marks in the end |
| BackEdges.TurnKeepsInvariant | tools/dashboard/web/src/components/TransitionNodeGraph.tsx:187-205 | every step keeps the white, grey and black invariant: grey is exactly what is on the stack, finished nodes only have finished successors apart from marked arcs, and every marked arc returns along the stack |
| BackEdges.MarkKeepsInvariant | tools/dashboard/web/src/components/TransitionNodeGraph.tsx:198-201 | meeting a grey node marks an arc that closes a walk along the stack |
| BackEdges.SearchComplete | tools/dashboard/web/src/components/TransitionNodeGraph.tsx:183-206 | a finished search with every node coloured has an acyclic unmarked graph and marked nothing in a graph that was acyclic |
| Layers.SplitForward | tools/dashboard/web/src/components/TransitionNodeGraph.tsx:209-217 | the forward lists hold exactly the unmarked arcs in the order of the successor lists, and the in-lists mirror the out-lists with multiplicity |
| Layers.AssignLayers | tools/dashboard/web/src/components/TransitionNodeGraph.tsx:219-230 | the queue dequeues every node exactly once and every layer is supported by a predecessor one layer below |
| Layers.HandLayer | tools/dashboard/web/src/components/TransitionNodeGraph.tsx:223-229 | handing one dequeued node's layer to its successors keeps the counts of pending predecessors and the layers |
| Layers.QueueComplete | tools/dashboard/web/src/components/TransitionNodeGraph.tsx:219-230 | nothing is left out of the queue, because a node left out would have a predecessor left out, and so on round a cycle |
| Layout.LayersAreLongestPaths | tools/dashboard/web/src/components/TransitionNodeGraph.tsx:219-230 | in both branches the layer of a node is the length of the longest unmarked path that ends at it |
| Layout.UnmarkedIsForward | tools/dashboard/web/src/components/TransitionNodeGraph.tsx:303-312 | in both branches an unmarked edge between different nodes is classified forward |
| Layout.SearchedEdgesAreDrawnAsMarked | tools/dashboard/web/src/components/TransitionNodeGraph.tsx:172-206 | without a full timeline an edge between different nodes is classified back iff it is marked and forward iff it is not |
| Layout.RepeatedCallIsSelf | tools/dashboard/web/src/components/TransitionNodeGraph.tsx:303-306 | in both branches an edge is drawn as a loop iff its two ends are one node |
| LayoutModel.SortBy | tools/dashboard/web/src/components/TransitionNodeGraph.tsx:158-164 | the sorted list is a permutation, and in order whenever the comparator orders its elements |
| Chronology.RankIsTheTimeOrder | tools/dashboard/web/src/components/TransitionNodeGraph.tsx:155-164 | when the timeline comparator leaves no ties, positions follow it exactly, so the arcs forward in time are those of the comparator |
| Chronology.KindIsDecidedByDepth | tools/dashboard/web/src/components/TransitionNodeGraph.tsx:151-170 | with a full timeline the shape of every edge, marked or not, is decided by the lengths of the longest paths forward in time into its two ends |
| Chronology.KindIsDecidedByTime | tools/dashboard/web/src/components/TransitionNodeGraph.tsx:151-170 | the same rule from the edges and the timeline comparator alone, and an edge is marked iff the comparator puts its target first |
| Chronology.MarkedAreBackIff | tools/dashboard/web/src/components/TransitionNodeGraph.tsx:154-170 | with a full timeline all marked edges are drawn as return edges iff every arc back in time leads to a node that is less deep in time |
| ChronologyExamples.MarkedMayBeSibling | tools/dashboard/web/src/components/TransitionNodeGraph.tsx:154-170 | for three calls between nodes in this order of time, every layout draws a marked edge inside one column |
| ChronologyExamples.SiblingLayout | tools/dashboard/web/src/components/TransitionNodeGraph.tsx:112-331 | and such a layout exists |
| ChronologyExamples.MarkedMayBeForward | tools/dashboard/web/src/components/TransitionNodeGraph.tsx:154-170 | for another three calls, every layout draws a marked edge forward |
| ChronologyExamples.ForwardLayout | tools/dashboard/web/src/components/TransitionNodeGraph.tsx:112-331 | and such a layout exists |
| LayoutColumns.OrderColumns | tools/dashboard/web/src/components/TransitionNodeGraph.tsx:243-266 | six passes run right and left in turn; each leaves every column in the order of the mean rows of its neighbours on the side that the pass comes from, and all nodes in their columns; the last one settles the columns by their neighbours to the right |
| LayoutColumns.SortColumn | tools/dashboard/web/src/components/TransitionNodeGraph.tsx:247-264 | sorting a column by barycentres puts its linked nodes in the order of their neighbours' mean rows, with ties by the comparator, and moves no other column |
| DeployPlan.ValidatePlanAcyclic | tools/deployctl/config.go:155-185 | the recursive search terminates and accepts exactly the plans without a cycle, self-needs included, whatever order the names come in; a reported deployment lies on a cycle |
| DeployPlan.Validator.Visit | tools/deployctl/config.go:162-178 | a visit without an error leaves the name and all its needs visited; a visit with an error names a deployment on a cycle |
| DeployPlan.CheckPlan | tools/deployctl/config.go:135-150 | a plan passes iff it is not empty, knows all its deployments, is closed under needs and has no cycle; every error names a real defect |
| PlanRun.ApplyPlan | tools/deployctl/plan.go:66-153 | the loop terminates; it says that it made no progress iff nothing can be skipped or started any more, for a closed plan without a cycle it ends with nothing pending, and a failed upload ends it with every deployment pending |
| PlanRun.Round | tools/deployctl/plan.go:80-151 | one iteration either reports that it is stuck and is, or makes the pending set smaller, and keeps the run invariant |
| PlanRun.SkipBlocked | tools/deployctl/plan.go:82-100 | the blocked pass goes through the deployments by name and moves each that has a failed need, earlier skips of the pass included, from pending to failed, names in each error needs that failed, and without an error leaves none blocked |
| PlanRun.CollectReady | tools/deployctl/plan.go:102-117 | ready is exactly the pending deployments whose needs have all succeeded, each once, in the order of the names |
| PlanRun.RunJobs | tools/deployctl/plan.go:125-143 | every failing job of every ready deployment is reported and nothing else |
| PlanRun.FailuresMatch | tools/deployctl/plan.go:136-151 | after a wave the errors still name exactly the failed deployments, every reported job ran and fails, and no failing job is missing |
| PlanRun.WaveKeepsInvariant | tools/deployctl/plan.go:131-151 | running a wave keeps the run invariant for any outcome of its jobs |
| PlanRun.BlockKeepsInvariant | tools/deployctl/plan.go:92-99 | skipping a blocked deployment keeps the run invariant |
| PlanRun.AcceptedNeverStuck | tools/deployctl/plan.go:118-123 | being stuck needs a cycle, so the no-progress exit is unreachable for a validated plan |
| PlanRun.SucceededIsHealthy | tools/deployctl/plan.go:73-153 | the succeeded deployments are exactly those for which no job of their own or of anything they transitively need fails, and the error is nil iff that is all of them |
| PlanRun.RanAfterNeeds | tools/deployctl/plan.go:107-116 | a deployment runs only after everything it transitively needs has succeeded in earlier waves |
| PlanRun.RunsIffNeedsAreHealthy | tools/deployctl/plan.go:86-116 | a deployment runs at all iff all its needs are healthy |
| PlanRun.RunsAtItsDepth | tools/deployctl/plan.go:80-151 | it runs in exactly one wave, whose number is the length of its longest chain of needs |
| PlanRun.OrderDoesNotMatter | tools/deployctl/plan.go:156-163 | two runs that list the deployments in different orders succeed, fail and schedule alike |
| PlanRun.LoadAndApply | tools/deployctl/plan.go:66-153 | a plan that passes the load checks always runs to completion, across both files |
| ConfigInclude.ReadConfig | tools/deployctl/config.go:60-88 | reading terminates on every include graph, succeeds iff everything reachable is readable and on no include cycle, allows diamonds, and binds each name to its last definition in depth-first post-order; a reported file is reachable and on a cycle or unreadable |
| ConfigInclude.ReadBelow | tools/deployctl/config.go:60-88 | below any chain of ancestors the merged result is the merge along the post-order of the unfolding |
| ConfigInclude.MergeMap | tools/deployctl/config.go:90-97 | merging binds every name of the source over the destination, in any order |
| ConfigInclude.IncludingFileWins | tools/deployctl/config.go:57-59 | the including file's own definition of a deployment or of a plan wins over included ones |
| ConfigInclude.UnfoldingIsLoadable | tools/deployctl/config.go:60-88 | a file that unfolds into a finite tree reaches no cycle and nothing unreadable |
| ConfigInclude.UnfoldingIsUnique | tools/deployctl/config.go:60-88 | the unfolding, and with it the order of definitions, is determined by the files |
| Traffic.DetectInterval | tools/analysisctl/traffic_window.go:394-457 | the returned interval is the declarative one, lies inside the collection, and ends after the earliest second when it stops short; it fails iff no busy pair is left, and the last failure return is unreachable |
| Traffic.FindStart | tools/analysisctl/traffic_window.go:404-417 | the start is the least qualifying pair of seconds at or after the earliest second, or there is none |
| Traffic.ScanForEnd | tools/analysisctl/traffic_window.go:427-445 | the scan finds the first low run of three seconds that does not begin at the start second, or the low run that is open at the collection end |
| Traffic.LowSecond | tools/analysisctl/traffic_window.go:431-442 | a low second extends the open run or completes the first run of three |
| Traffic.IntervalIsUnique | tools/analysisctl/traffic_window.go:394-457 | the declarative interval leaves no choice |
| Traffic.PairsAreBusyPairs | tools/analysisctl/traffic_window.go:404-417 | the pairs that the search of a collection looks at are the consecutive seconds with ten requests each whose first one reaches past the collection's beginning and whose second one lies in it, in nanoseconds |
| Traffic.LowIsBelowTheShare | tools/analysisctl/traffic_window.go:427-433 | a second is low iff its requests are below the threshold times the part of the second that the collection covers |
| TrafficSearch.SearchWindow | tools/analysisctl/traffic_window.go:368-392 | the search terminates, goes through the whole chain of intervals, and returns the one with the most requests, the earliest on ties; it fails iff no two consecutive seconds of the collection have ten requests each, and the first second of each such pair, from the second on in which the collection begins, lies in a candidate |
| TrafficSearch.ChainIsOrdered | tools/analysisctl/traffic_window.go:374-390 | the candidates are ordered, disjoint and inside the collection |
| TrafficSearch.ChainCovers | tools/analysisctl/traffic_window.go:374-390 | the first second of every busy pair lies in a candidate |
| TrafficSearch.ChainCoversBusyPairs | tools/analysisctl/traffic_window.go:374-390 | the chain leaves out no busy pair of the collection, and is empty iff there is none |
| TrafficSearch.ChainIsUnique | tools/analysisctl/traffic_window.go:374-390 | collection, counts and threshold determine the candidates |
| TrafficSearch.WindowStats | tools/analysisctl/traffic_window.go:488-501 | over the buckets in any order, the requests and active seconds of the seconds that begin inside the window; a fractional first second is not counted |
| TrafficThreshold.EndThreshold | tools/analysisctl/traffic_window.go:461-477 | the threshold is the larger of the floor and five percent of the median busy rate rounded up, where the ranked seconds reach into the collection, end inside it and have at least ten requests; at most half of them are below it |
| TrafficThreshold.MiddleIsMedian | tools/analysisctl/traffic_window.go:471-472 | the middle entry of the sorted rates is the upper median of the rates |
| TrafficThreshold.RatesRankTheSeconds | tools/analysisctl/traffic_window.go:461-470 | the list of rates has one entry for every ranked second, and for every bound as many entries below it as there are such seconds |
| TrafficThreshold.DetectWindow | tools/analysisctl/traffic_window.go:368-392 | the search under the collection's own threshold returns the best candidate of the chain, which leaves out no busy pair, and fails iff there is none |
| ProfileCapture.Tables.StopRequest | tools/measurement/app/profiles.go:49-65 | a stop is refused iff it names no run or another run owns the kind; otherwise it closes and removes the channel on offer, and changes nothing when there is none |
| ProfileCapture.Tables.LockSampling | tools/measurement/app/profiles.go:84-88 | the try-lock succeeds iff the kind is free, and then only this request holds it |
| ProfileCapture.Tables.PublishOwner | tools/measurement/app/profiles.go:98-105 | publishing sets the owner of the kind and puts the request's own channel on offer |
| ProfileCapture.Tables.ClearOwner | tools/measurement/app/profiles.go:106-111 | cleaning up clears the owner and removes whatever channel is on offer |
| ProfileCapture.Tables.UnlockSampling | tools/measurement/app/profiles.go:88 | unlocking frees the kind and touches neither owner nor channel |
| ProfileCapture.StepKeepsInvariant | tools/measurement/app/profiles.go:53-124 | every step of any handler keeps the protocol invariant |
| ProfileCapture.InvariantHolds | tools/measurement/app/profiles.go:31-125 | over every interleaving of any number of captures and stops, every state satisfies the protocol invariant |
| ProfileCapture.OneSamplerPerKind | tools/measurement/app/profiles.go:67-88 | at most one request per kind holds the sampler |
| ProfileCapture.LockedIffKindIsFree | tools/measurement/app/profiles.go:67-88 | a capture gets the lock of its kind iff no capture of that kind holds it, whatever the other kinds do, and is rejected otherwise |
| ProfileCapture.KindsRunTogether | tools/measurement/app/profiles.go:67-88 | for any two kinds a run in which captures of both are published |
| ProfileCapture.StatusShowsThePublishedCapture | tools/measurement/app/profiles.go:36-41 | the status of a kind is nonempty exactly while the lock holder has published and not yet cleared, and shows its owner |
| ProfileCapture.StopChannelIsOpen | tools/measurement/app/profiles.go:98-111 | a channel is on offer exactly for the published capture of the kind while it is still open |
| ProfileCapture.StopClosesOnlyItsOwnRun | tools/measurement/app/profiles.go:55-64 | a stop closes the open channel of the published capture iff it names that capture's run, and touches no other |
| ProfileCapture.AcceptedStopIsDelivered | tools/measurement/app/profiles.go:55-65 | a stop of a published capture is accepted iff it names the owner, and afterwards the capture's channel is closed |
| ProfileCapture.EarlyStopIsLost | tools/measurement/app/profiles.go:55-65 | a stop that names a run while no capture of the kind is published is accepted and changes nothing |
| ProfileCapture.AcceptedStopReachesIff | tools/measurement/app/profiles.go:55-111 | an accepted stop closes the channel of the capture that holds the kind iff that capture is published |
| ProfileCapture.StopCanBeLost | tools/measurement/app/profiles.go:55-105 | a run in which a capture has started, the stop for its run is accepted without effect, and the capture is then published with its channel open |
| ProfileCapture.OwnershipLastsThroughExport | tools/measurement/app/profiles.go:99-124 | ownership lasts from publishing through the export until the capture's own cleanup |
| ProfileCapture.CleanupDeletesOnlyItsOwnChannel | tools/measurement/app/profiles.go:106-111 | a cleanup never removes the channel of another capture |
| ProfileCapture.EveryStartIsStoppedOnce | tools/measurement/app/profiles.go:91-124 | each successful start is stopped exactly once, after the wait is over; a failed start is not stopped |
| ProfileCapture.NoChannelIsClosedTwice | tools/measurement/app/profiles.go:59-64 | over a whole run every channel is closed at most once, and only by a stop that names its owner while it is published |
| ProfileCapture.WokenByItsOwnStop | tools/measurement/app/profiles.go:59-64 | a capture woken by a stop was stopped earlier in the run, while it was published, by a request that named its owner |
| ProfileCapture.StoppedAfterTheWait | tools/measurement/app/profiles.go:112-123 | over a whole run a profiler is stopped only after the wait of its capture has ended |
| ProfileCapture.RefusedSecondsNeverHold | tools/measurement/app/profiles.go:72-83 | a request whose seconds are refused is rejected for the rest of the run, any other goes on to the try-lock |
| ProfileCapture.EveryCaptureCanFinish | tools/measurement/app/profiles.go:84-124 | from every state every handler can get through by at most seven steps of its own; it then holds no lock and has stopped every profiler that it started |
| ProfileCapture.FailedStartFreesTheKind | tools/measurement/app/profiles.go:91-96 | a start can fail whenever it can succeed, and the next step of its handler frees the kind, with no profiler started or stopped |
| Wire.ReadsVarint | tools/portal-bench/decode.go:152-155 | the varint reader accepts exactly the varints of the standard and reads their value |
| Wire.EncodesVarint | tools/portal-bench/config.go:143-144 | the varint writer produces a varint of the standard for every unsigned 64-bit number |
| Wire.VarintThenRest | tools/portal-bench/decode.go:156-164 | what follows a varint does not change how it is read |
| ProtoReader.ProtoFields | tools/portal-bench/decode.go:149-190 | the reader terminates on every byte string, accepts exactly the concatenations of well-formed records, and groups their values by field number in order |
| ProtoReader.FirstRecordIsRecord | tools/portal-bench/decode.go:152-187 | what the reader takes for a record is one |
| ProtoReader.ReadsThisRecord | tools/portal-bench/decode.go:152-187 | a well-formed record in front of anything is read as that record |
| ProtoReader.SpellingIsUnique | tools/portal-bench/decode.go:149-190 | a byte string is the concatenation of at most one list of records |
| ProtoReader.GroupHoldsValuesInOrder | tools/portal-bench/decode.go:187 | the list of a field holds the values of its records in order |
| ProtoReader.ConcatenationAccepted | tools/portal-bench/decode.go:149-190 | after an accepted a, the concatenation a + b is accepted iff b is |
| ProtoReader.ConcatenationGroups | tools/portal-bench/decode.go:187 | then every field's list is that of a followed by that of b |
| ProtoSelect.Follow | tools/portal-bench/decode.go:197-214 | following the path selects an occurrence at every step, reports a missing occurrence, and faults on a malformed message or on a nested field that is not a message |
| ProtoSelect.LeadsToOne | tools/portal-bench/decode.go:197-214 | a path leads to one result only |
| ProtoSelect.Select | tools/portal-bench/decode.go:192-254 | the result is the conversion of what the path leads to by the declared type, which defaults by wire type; missing values and faults are passed on |
| ProtoSelect.SelectionFollowsTheTree | tools/portal-bench/decode.go:192-214 | selecting in the encoding of a message tree is selecting in the tree: existing leaves come back as encoded, and an index past the occurrences is reported missing |
| ProtoSelect.ZigZagRoundTrip | tools/portal-bench/decode.go:192-240 | every 64-bit signed number that a message tree holds in ZigZag form at the end of a path is selected along that path, in the encoding of the tree, as sint |
| ProtoSelect.SignedRoundTrip | tools/portal-bench/decode.go:192-238 | likewise every 64-bit signed number in two's complement as int |
| ProtoSelect.UnsignedRoundTrip | tools/portal-bench/decode.go:192-236 | likewise every 64-bit unsigned number as uint |
| ProtoSelect.LeafIsConverted | tools/portal-bench/decode.go:215-254 | every leaf of every message tree, selected along its path in the encoding, is converted as its own constructor says under each of the declared types, or refused |
| ProtoSelect.ProtoUintRoundTrip | tools/portal-bench/config.go:135-146 | what the repository's own encoder writes is selected as the number it was given |
| Decimals.DecimalIff | tools/portal-bench/decode.go:105-109 | what is read as a natural number is one or more of the ten digits |
| Decimals.AtoiIff | tools/portal-bench/decode.go:105-109 | an index is read as digits behind at most one sign, and nothing else is |
| JsonPointers.TwoPassesAreOne | tools/portal-bench/decode.go:97 | the two replacement passes read every token as one left-to-right pass of RFC 6901 does |
| JsonPointers.EscapeRoundTrip | tools/portal-bench/decode.go:97 | escaping a key and reading it back gives the key |
| JsonPointers.SplitJoin | tools/portal-bench/decode.go:96 | splitting at the slashes undoes joining tokens that have none |
| JsonPointers.JsonPointer | tools/portal-bench/decode.go:88-116 | the loop computes the resolution of the pointer, with its invalid and missing cases |
| JsonPointers.PointerFindsEveryValue | tools/portal-bench/decode.go:88-116 | every non-null value of a document is found under the pointer of its location, whatever its keys contain |
| JsonPointers.FoundIffReached | tools/portal-bench/decode.go:97-115 | the lookup finds a value iff it is not null and lies at the end of moves that the tokens read as, one by one |
| JsonPointerStandard.AgreesIff | tools/portal-bench/decode.go:96-115 | on a document, lookup and RFC 6901 agree, null counting as missing, unless the lookup finds a value by a token that the standard does not allow there |
| JsonPointerStandard.AgreesEverywhereIff | tools/portal-bench/decode.go:96-115 | they agree on every document iff each token has only whole escapes and, if it reads as an index, no sign and no leading zeros |
| JsonPointerStandard.LenientTokens | tools/portal-bench/decode.go:97-110 | indexes 01, +1 and -0 and a lone tilde find values that the standard does not reach |
| Transitions.AddSequence | tools/user-transition-metrics/main.go:440-473 | for every edge and counter the table grows by exactly what the session contributes; the result counts are its overlapping and ambiguous transitions |
| Transitions.BumpAdds | tools/user-transition-metrics/main.go:452-470 | one transition adds to each counter of its edge what it should: gap, idle time, overlap, ambiguity, statuses, and the session only the first time |
| TransitionModel.FlowAfterCall | tools/user-transition-metrics/main.go:452-470 | what a counter of an edge gains is gained on every cut that the edge crosses, and on no other |
| TransitionModel.RequestsComeIn | tools/user-transition-metrics/main.go:540-564 | at every node, the requests of a session are its first visits plus the calls that arrive over edges |
| TransitionModel.RequestsGoOut | tools/user-transition-metrics/main.go:540-564 | at every node, the requests of a session are its last visits plus the calls that leave over edges |
| TransitionModel.GapsTelescope | tools/user-transition-metrics/main.go:457 | the start gaps that a session adds to all edges total its last start minus its first |
| TransitionModel.TalliesAddUp | tools/user-transition-metrics/main.go:440-473 | for every counter, what a session contributes to its edges one by one adds up to its flow over all edges |
| TransitionModel.SessionIsCountedOnce | tools/user-transition-metrics/main.go:453-456 | a session counts once on every edge that it uses and on no other |
| TransitionModel.VisitIsCountedOnce | tools/user-transition-metrics/main.go:548-551 | a session counts once at every node that it visits and at no other |
| TransitionModel.OffsetIsOfFirstVisit | tools/user-transition-metrics/main.go:548-557 | the offset recorded at a node is the time from the start of the session to its first visit there |
| TransitionModel.SortedIsInOrder | tools/user-transition-metrics/main.go:428-438 | sorting orders a session by start, end and position in the log, and keeps its events |
| TransitionModel.OrderedByFields | tools/user-transition-metrics/main.go:428-438 | an earlier event of a sorted session has the smaller start, on ties the smaller end, on further ties the smaller position in the log |
| TransitionModel.GroupsPartition | tools/user-transition-metrics/main.go:374-393 | grouping loses and repeats nothing: for every measure the shares of the groups add up to all sessions |
| TransitionModel.SameScenarioIff | tools/user-transition-metrics/main.go:515-526 | two sessions have one signature iff every node occurs in both or in neither |
| TransitionModel.VisitsAreOfVisitors | tools/user-transition-metrics/main.go:546-551 | a node has visits in a session iff the session counts as visiting it |
| TransitionModel.StatusesByHundreds | tools/user-transition-metrics/main.go:469-470 | a status from 100 to 599 is counted in the bucket of its hundreds, every other in the bucket zero |
| Scenarios.ScenarioAggregate.AddSession | tools/user-transition-metrics/main.go:528-565 | the group's counters, durations, nodes and edges all grow by the contribution of the session; an empty session changes nothing |
| Scenarios.AddNodes | tools/user-transition-metrics/main.go:539-564 | for every node and counter the node table grows by exactly what the session contributes |
| Scenarios.AddedHolds | tools/user-transition-metrics/main.go:528-565 | a group that holds the totals of its sessions still does after one more |
| Scenarios.GroupGapTime | tools/user-transition-metrics/main.go:457 | the start gaps recorded on all edges of a group total its members' last starts minus their first starts |
| Scenarios.AddedConserves | tools/user-transition-metrics/main.go:528-565 | a group stays conserved: at every node requests equal first plus incoming and last plus outgoing, and all edges together carry requests minus sessions |
| TransitionReport.Aggregator.Retain | tools/user-transition-metrics/main.go:334-347 | an event is appended to its session unless the limit is reached, and the number of requests stays the number of retained events |
| TransitionReport.Aggregator.Aggregate | tools/user-transition-metrics/main.go:373-393 | whatever order the sessions come in, all end up sorted, the edge table holds the totals of all sessions, and every group holds the totals of its members and is conserved |
| TransitionReport.AddToGroup | tools/user-transition-metrics/main.go:381-392 | a session is added to the group of its own signature, made when new, and no other group changes; sessions share a group iff they use the same nodes |
| TransitionReport.RankScenarios | tools/user-transition-metrics/main.go:399-407 | the scenarios are ordered by sessions, requests and name, and none is lost or repeated |
| TransitionReport.RankedByFields | tools/user-transition-metrics/main.go:399-407 | an earlier scenario of the ranking has at least as many sessions, on ties at least as many requests, on further ties a name that is not larger |
| TransitionReport.Truncate | tools/user-transition-metrics/main.go:409-415 | the leading scenarios are kept and the sessions of the others counted, so the two add up to all listed sessions |
| TransitionReport.Aggregator.BuildReport | tools/user-transition-metrics/main.go:370-426 | emitted and omitted sessions add up to all sessions under any limit, the listed scenarios hold exactly the totals of their members, and their requests add up to the retained events |
| TransitionReport.EverySessionIsListed | tools/user-transition-metrics/main.go:396-412 | a list that names every group once counts every session once |
| TransitionReport.ScenarioIsItsNodes | tools/user-transition-metrics/main.go:381-392 | a node is in the signature of a listed scenario iff the scenario has visits there, and then every session of the scenario visits it |
| TransitionReport.GroupsAddUpToEdges | tools/user-transition-metrics/main.go:374-393 | for every edge and counter the global table equals the sum over the scenario groups |
| TransitionReport.GapTimeOfAll | tools/user-transition-metrics/main.go:440-473 | the start gaps recorded in the global edge table total the last starts minus the first starts of all sessions |
| TransitionReport.GapsAreNonnegative | tools/user-transition-metrics/main.go:457 | after sorting no edge has recorded a negative start gap |
| Snapshots.NamesAreRecognised | tools/measurement/profileseries/series.go:39-47 | every name that the recorder writes matches the member pattern and has the kind it was written for |
| Snapshots.NamesAreDistinct | tools/measurement/app/profile_series.go:54 | different captures or kinds never share a name |
| SnapshotFormat.NameSpellsSequence | tools/measurement/profileseries/series.go:39-47 | a written name is six digits that spell its sequence number, followed by the suffix of its kind |
| SnapshotReader.ReadMembers | tools/measurement/profileseries/series.go:65-126 | the members are accepted iff they are distinct, valid snapshots within the limits with nothing after the index |
| SnapshotReader.MatchEntries | tools/measurement/profileseries/series.go:127-138 | the entries are accepted iff they list the recorded snapshots one to one with equal timestamps inside the recording |
| SnapshotReader.AllCheckedIsListed | tools/measurement/profileseries/series.go:130-138 | equal counts and deletion make the match a bijection: an entry that only matched a missing name would leave a snapshot over |
| SnapshotReader.MissingNameIsChecked | tools/measurement/profileseries/series.go:130-135 | an entry with an unknown or used name passes its own check iff its timestamp is zero, zero lies within the recording, and its duration is not negative |
| SnapshotReader.UnknownNameIsChecked | tools/measurement/profileseries/series.go:127-135 | a complete index with as many entries as snapshots and an unknown entry that passes its check |
| SnapshotReader.ListsAll | tools/measurement/profileseries/series.go:130-138 | every recorded snapshot is listed |
| SnapshotReader.CheckSpacing | tools/measurement/profileseries/series.go:139-155 | a kind is accepted iff it has at least two observations, increasing and at most three intervals apart in 64-bit arithmetic |
| SnapshotReader.Read | tools/measurement/profileseries/series.go:51-157 | an archive is accepted iff it is a complete recording, and then its index is returned |
| SnapshotFormat.AcceptedIff | tools/measurement/profileseries/series.go:51-157 | an archive is accepted with an index iff both are a complete recording in terms of names, sizes, sample types, times and bounds written out |
| SnapshotFormat.TwoRoundsAreAccepted | tools/measurement/profileseries/series.go:51-157 | for every interval and beginning a recording of two rounds exactly three intervals apart is accepted, with its own index |
| SnapshotReader.EverySnapshotIsListed | tools/measurement/profileseries/series.go:127-138 | in an accepted recording every member has exactly one entry, with the timestamp it carries |
| SnapshotCoverage.Inspect | tools/measurectl/capture_artifacts.go:416-474 | the verdict is valid iff the recording is accepted, the window is usable and both kinds span it; the monotonic, gap and count checks are never the reason of a rejection, and the verdict counts all observations and the largest gap |
| SnapshotCoverage.LargestGapIsLargest | tools/measurectl/capture_artifacts.go:439-446 | over regular times the reported gap is no smaller than any gap and no larger than the bound |
| SnapshotCoverage.ScanKind | tools/measurectl/capture_artifacts.go:430-454 | over an accepted recording the pass over a kind finds its first and last times, its number of observations and its largest gap, and never a decrease |
| SnapshotCoverage.GapIsPositive | tools/measurement/profileseries/series.go:147 | the wrapped bound of an accepted recording is positive and at most three intervals |
| SnapshotCoverage.WindowIsCovered | tools/measurectl/capture_artifacts.go:414-474 | with a valid verdict every instant of the load window lies between two neighbouring snapshots of each kind, at most three intervals apart, with no snapshot of the kind between them |
| SnapshotIndexText.IndexIsShort | tools/measurement/profileseries/series.go:18-37 | the text of an index of at most 4000 entries takes at most half a mebibyte |
| SnapshotIndexText.IndexRoundTrip | tools/measurement/profileseries/series.go:23-37 | reading the text of an index gives back the index |
| SnapshotRecorder.Recorder.CaptureKind | tools/measurement/app/profile_series.go:41-63 | a profile is recorded iff it was taken, can be decoded and fits the limits; a refused one leaves nothing behind |
| SnapshotRecorder.Recorder.Capture | tools/measurement/app/profile_series.go:40-66 | a round is recorded iff both kinds fit, and only then counts |
| SnapshotRecorder.Recorder.Record | tools/measurement/app/profile_series.go:35-100 | recording succeeds iff every capture from start to stop fits, and then the archive is exactly the snapshots in order and their index; otherwise it is what was taken before the first failure and an index that reports it, which the reader rejects; in both cases its size is what its members occupy and the 1024 bytes that end it |
| SnapshotRecorder.UsedIsBounded | tools/measurement/app/profile_series.go:47-62 | whole blocks are written, and the space used never exceeds the limit less the reserve by more than one block |
| SnapshotRecorder.WrittenIsOccupied | tools/measurement/app/profile_series.go:61 | the space counted is what the members occupy: for each 512 bytes and the least multiple of 512 that is not below its size |
| SnapshotRecorder.FitsIff | tools/measurement/app/profile_series.go:47 | a profile is recorded iff it was taken and decoded, is one of the first 4000, has at most 8 MiB, and leaves 1 MiB of 64 MiB free behind the bytes of the members before it |
| SnapshotRecorder.IndexIsReadBack | tools/measurement/app/profile_series.go:85-98 | the index that closes a recording without a failure can be read back from its text |
| SnapshotRecorder.RecordingFits | tools/measurement/app/profile_series.go:47-98 | the reserve covers the index, all padding and the end of the archive, so the bytes of a recording stay within 64 MiB and its entries within the limit |
| SnapshotRecorder.RecordingIsAccepted | tools/measurement/app/profile_series.go:35-100 | a recording without a failure is accepted by the reader iff its profiles are good, the clock stayed inside the recording, and each kind was taken in order and at most three intervals apart |
| SnapshotRecorder.FailureIsRejected | tools/measurement/app/profile_series.go:81-84 | the archive of a recording that failed, at whichever capture, is never accepted by the reader |

## Left out

- SearchOrder: the comparator that ranks entry points is an arbitrary function; its average offsets, net flows, weights and names are not modelled.
- SortBy: states that a list is sorted whenever the comparator orders its elements; the layout's comparators by weight, name and timeline are arbitrary functions, and for one that is no order only the permutation is stated.
- LayoutGraph: the timeline is an arbitrary comparator, which the positions follow when it is an order, instead of averages of positions and offsets; barycentres are exact fractions, so their rounding is not modelled; coordinates, curves, radii, labels and widths are not modelled.
- RunJobs: a wave is a set of job results; the order and the parallelism of the jobs inside one wave are not modelled.
- ApplyPlan: resolving hosts and jobs, the dry run and the upload jobs themselves are not modelled; the upload phase is one success or failure.
- CheckPlan: name patterns, upload and activation fields and local paths of a declaration are not checked.
- ReadConfig: a file is its include list and its own definitions; YAML decoding, joining of relative paths and the text of errors are not modelled.
- EndThreshold: five percent is an exact fraction, so rounding of the floating-point product is not modelled.
- DetectWindow: the access log is a table of counts per second; decompression, parsing and the reading of the collection markers are not modelled.
- StopRequest: requests with a wrong method or an unknown kind are rejected before they touch the tables and are not modelled.
- InvariantHolds: timeouts, the length of a capture, the contents of responses and the fairness of the scheduler are not modelled; that no capture is stuck is proved, but not that it is scheduled.
- Select: base64 and number formatting are not modelled, floating-point values stay bit patterns, and the check for valid UTF-8 is a parameter; the path is taken after it has been parsed into steps.
- JsonPointer: a document is a tree; decoding JSON text is not modelled, and numbers, strings and booleans are leaves.
- AddSequence: times are integer microseconds, so averages, percentiles and the order of floating-point additions are not modelled.
- AddNodes: the average position of a node inside a session is a floating-point sum and not modelled.
- BuildReport: digests that name scenarios are an arbitrary function used only to break ties, identities and route names are opaque, and the observation window of the summary is not modelled. A node is a pair of a method and a route, so joined names are taken to be unambiguous.
- Read: decoding of archives and profiles and the parser of JSON are an input per member, and visitors are not modelled.
- Record: failures of the underlying stream are not modelled, and the message of a failure with the length of the index text that holds it is an input, because JSON escapes of messages are not modelled.
- Inspect: the percentage of the window that is covered is a floating-point value and not modelled.
- Machine integers are unbounded except where a wrap-around can matter: timestamps, intervals and the gap bound of recordings, and the values of the wire format.
- Collectors, dashboards, ssh, rsync, DuckDB, HTTP routing and file access would only add easy members.
