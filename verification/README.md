# Verification of the Qst job pipeline and probe link

This project models two parts of Qst and proves properties of the models.

**The job pipeline** of the host program: matrices are multiplied into tagged jobs (`JobMultiplier`), dependencies
between testcases are checked for cycles and lifted to dependencies between jobs (`DependencyResolver`), and the jobs
are run one by one in dependency order (`SerialJobScheduler`), each receiving the exports of its predecessors. Loading
a project's documents (`ProjectResolver`) is modelled as well. `Pipelines.Run` composes the stages.

**The probe link** between the host and the LaunchPad firmware: STP frames on a serial line, ROC messages in them, and
below both, on the firmware, reference-counted message buffers that interrupt handlers and the main task share. The
firmware is modelled as atomic steps that interleave freely, the ROC protocol as two parties and two channels; `Link`
puts the layers together and proves that every run of all of them is a run of the protocol.

Code that changes state is modelled by classes with the same fields and by loops where the original has loops; each
method is proved against a function on values, and what the protocol or the documentation promises is proved about
these functions, for every run.

## What the properties found in the code

* The cycle check follows only the first-listed predecessor (`src/qst/dependencyresolver.cpp:164-167`).
  `CycleChecks.MissedCycle` is a cyclic graph that passes; `CycleChecks.CheckDecidesFirstCycles` says exactly when it
  is silent, `CycleBlindness.SilenceIsPossible` for which graphs some order of the items keeps it silent. Such a run
  does not hang: `Pipelines.Run` shows that it starts and runs the jobs without a cycle at or above them.
* `edge()` returns one of several parallel edges (`src/qst/directedgraph.h:85-88`), so exports can be filed under a
  wrong key; `Handovers.HandoverServesEdges` says exactly when they are not, `JobGraphs.AliasesCollide` is a job graph
  where they are.
* `doc/depends-item.rst:134-138` says that a tagged job depends on the tagged jobs that have at least the same tags.
  The code compares for equality and stops at the first (`src/qst/dependencyresolver.cpp:309`), and takes a testcase
  with a single job for untagged (`src/qst/dependencyresolver.cpp:284`). `Matchings.MatchesAsDocumented` says exactly
  when that is the same, `Matchings.MoreTagsAreAMismatch` and `Matchings.SingleJobIsMatched` are inputs where it is
  not. The model follows the code.
* A missing file that is referenced right after a broken one ends the program: the error message asks the current
  document for its path, and the document of a broken file is gone (`src/qst/projectresolver.cpp:181-191`).
  `ProjectResolvers.ProjectResolver.BeginLoad` has the exact condition, `ProjectResolvers.BrokenThenMissing` an input.
* The host asserts that a ROC payload has at most 65535 bytes (`src/qst/rochostcontroller.cpp:150`). The probe takes 24
  (`RocMessages.CommandLengthLimit`); 25 stop its receiver (`RocMessages.PayloadStopsProbe`).
* A ping that is sent while the only object is being deleted makes the probe spin
  (`src/launchpad-probe/roctargetcontroller.cpp:66-69`); `RocTheorems.TickIsHarmless` is the exact condition, and
  `RocTheorems.TickCanStrand` a run that leads there.
* A change of the pin number is never answered, although the host waits for it (`Pins.NumberChangeUnanswered`);
  `Pins.OneReply` is the exact condition for one reply. Deleting an object that was never initialised can disable
  another one (`Pins.DestroyDisables`, with a table in `Pins.DestroyDisablesAnother`).
* `allocateAtBack` asserts less than it needs (`src/launchpad-probe/messagebuffer.cpp:47`);
  `MessageBuffers.MessageBuffer.AllocateAtBack` is the exact condition, `HeadroomIsOverlooked` a call that passes the
  assertion and leaves the memory; `sendToHost` meets the condition.
* After a trailing delimiter byte the host decoder does not read the next frame as one frame; it is out of step
  afterwards (`StpHosts.ResynchronisesExactly`). After a header mismatch it keeps its buffer, so a stray byte between
  two frames costs it the next one (`StpHosts.StrayByteCostsAFrame`), and no more (`StpHosts.HostRecovers`); the probe
  loses none (`StpTargets.TargetRecovers`).

## How to read it

| files | part |
|---|---|
| Graphs, DirectedGraph, Schedule, RunOrder, Handover, SerialJobScheduler, RunLoop | the scheduler |
| FirstPredecessors, CycleCheck, CycleBlindness | the cycle check |
| Matching, DependencyResolver, JobGraph | from the testcase graph to the job graph |
| Tags, Jobs, Digits, Expansion, Globs, JobMultiplier, Dimension, JobTable, OneToOne | from matrices to jobs |
| Pipeline, Arrival, ProjectResolver | the whole run, what each job receives in it, and the documents it begins with |
| Frames, StpHost, StpSocket, StpTarget | STP on both ends |
| BufferPool, Firmware, FirmwareRuns, TaskBuffers, SharedPointer, SerialInterface, MessageBuffer | the firmware below ROC |
| RocMessage, RocWire | ROC messages as bytes, and why they may be modelled as messages |
| Pins, PinTargetObject, RocTarget, RocHost, RocRuns, RocTheorems, RocRequests, RocHostController, RocTargetController | the ROC protocol |
| Link | everything between host controller and pins in one state machine, a refinement of the protocol |

`dafny verify dfyconfig.toml` checks the project.

Assumptions of the model:

* `qHash` is injective on testcase names and jobs; nodes of a graph are their ids. Values of a `QMultiMap` under one
  key come most recent first, as Qt documents.
* A buffer or object address that is handed out is not in use. In the buffer model addresses are never reused, in the
  protocol model they may be.
* The header pointer that `StpSocket::onUartReadyRead` takes before it appends to the buffer is read as pointing into
  the buffer as it is after the append, and the byte it tests as the byte appended last.
* A handler or a gated section is not interrupted by another one. A step of the main task is taken to be atomic also
  where it counts a reference without a lock; `TaskBuffers.NoUpdateIsLost` is why this loses nothing.
* The ROC channels are lossless and the STP handshake of a connection leaves them empty. One request is outstanding at
  a time. A host object is registered once, initialised once with a free number, and unregistered once, as a PinProbe
  does when its testcase ends (`src/qst/pinprobe.cpp:42-45`). Its own copy of the id agrees with the controller's map
  while it is registered. That copy is never cleared, so the destructor would unregister it again
  (`src/qst/rochostobject.cpp:33-39`); this second call is not modelled.
* The loop over project references holds a reference into the list that it extends
  (`src/qst/projectresolver.cpp:127-135`); it is read as a copy of the path.
* Calls into the pin driver succeed, and what it reads is an input of the step.

## Model

| member | source | states |
|---|---|---|
| Pipelines.Run | src/qst/main.cpp:160-200 | For any testcases, dependencies, matrices, properties, tags and outcomes: the run is refused for a cycle iff a testcase returns to itself by following first-listed dependencies; it stops for a matrix iff one is unusable, and for a job with a missing partner or an item that cannot be evaluated; otherwise the jobs are exactly those of the matrices with their interned tags and the exports of their testcases, the dependencies those of the Depends items with name, alias and count, exactly the jobs without a cycle at or above them run, once each, in dependency order, and that is every job when the testcase graph is acyclic; the jobs that ran end with the result and exports that executing them yields and with the exports of their predecessors, and all other jobs are as they were made |
| Pipelines.RunHandsOver | src/qst/serialjobscheduler.cpp:54-75 | After a whole run, where parallel edges agree on their key: every job that ran holds under every key the non-empty final exports, as given by the outcome of executing them or else by their testcases, of exactly the jobs with an edge of that alias or name to it, and these ran before it |
| Arrivals.RunArrives | src/qst/serialjobscheduler.cpp:54-75 | The same told by the Depends items: under every key, in order, the final non-empty exports of what the items with that alias, or without an alias for a testcase of that name, have matched for the job, latest edge first |
| Arrivals.FoundUnderItsName | src/qst/serialjobscheduler.cpp:66-69 | Whatever an item has matched is found under the alias of the item or, without one, under the name of the testcase |
| Arrivals.ArrivesAsMade | src/qst/dependencyresolver.cpp:290-299 | An untagged job finds the exports of the jobs of a testcase in the order in which these jobs were made |
| Arrivals.MadeInTagOrder | src/qst/jobmultiplier.cpp:101-146 | That is the order of the tag sets of the testcase |
| Arrivals.EqualTagsMatchLatest | src/qst/dependencyresolver.cpp:303-316 | A tagged job with several jobs to choose from gets the one with equal tags that was made last |
| Arrivals.RowsArrive | src/qst/dependencyresolver.cpp:337-351 | For an item with tags the matches are told by its rows, then by the table, and arrive the other way round |
| Pipelines.ResolveAndRun | src/qst/main.cpp:178-200 | The same for any job table that fits the arena, told from the arena before the run, and a failure names a job with a missing one-to-one partner or an item that cannot be evaluated for it |
| Pipelines.SilentHasRoot | src/qst/serialjobscheduler.cpp:91 | A silent cycle check leaves a testcase without dependencies, even when cycles went unseen |
| Pipelines.RootJobs | src/qst/serialjobscheduler.cpp:91 | Jobs of such a testcase are roots of the job graph, so the assertion that there is a root holds |
| SerialJobSchedulers.SerialJobScheduler.Start | src/qst/serialjobscheduler.cpp:83-109 | An empty graph finishes at once; otherwise one root runs, and done, running, ready and todo partition the jobs with the right counters |
| SerialJobSchedulers.SerialJobScheduler.TakeRoots | src/qst/serialjobscheduler.cpp:94-99 | The ready list is exactly the roots, and the rest stays on the todo list |
| SerialJobSchedulers.SerialJobScheduler.CountDependencies | src/qst/serialjobscheduler.cpp:101-104 | Every counter is the number of incoming edges, with multiplicity |
| SerialJobSchedulers.SerialJobScheduler.OnJobFinished | src/qst/serialjobscheduler.cpp:38-81 | The finished job joins the done list with its result; then either one next job is dispatched with its hand-over or finished() is emitted and nothing is ready |
| SerialJobSchedulers.SerialJobScheduler.ReleaseDependents | src/qst/serialjobscheduler.cpp:44-52 | The loop over the successors keeps the counters consistent at every iteration |
| SerialJobSchedulers.SerialJobScheduler.CollectExports | src/qst/serialjobscheduler.cpp:58-70 | The data of the next job is, per alias or name, the exports of exactly its senders, in order |
| Schedules.FinishingCloses | src/qst/serialjobscheduler.cpp:44-46 | Finishing a job closes exactly its outgoing edges, with multiplicity: the open in-degree of every job drops by the number of edges from it |
| Schedules.SuccessorWaits | src/qst/serialjobscheduler.cpp:46-50 | A successor still to be counted down is on the todo list and its counter is positive: the unsigned counter cannot underflow and indexOf cannot miss |
| Schedules.CountDownKeeps | src/qst/serialjobscheduler.cpp:46-51 | One count-down keeps the mid-loop invariant, whether or not the job becomes ready |
| Schedules.FinishKeeps | src/qst/serialjobscheduler.cpp:41-44 | Moving the running job to done leaves the invariant with all its successors pending |
| Schedules.DispatchKeeps | src/qst/serialjobscheduler.cpp:54-74 | A dispatched job has all predecessors done |
| Schedules.StartEstablishes | src/qst/serialjobscheduler.cpp:93-106 | The two loops of start establish the invariant |
| Schedules.WhereIs | src/qst/serialjobscheduler.cpp:93-104 | Every node is in exactly one of the four lists |
| Schedules.StoppedIsComplete | src/qst/serialjobscheduler.cpp:77-80 | When nothing is ready or running, a job is done iff there is no cycle at or above it |
| RunOrders.AfterJobLined | src/qst/serialjobscheduler.cpp:41-75 | Jobs stand in line: roots first, then in the order in which their last predecessors ran, and of two that the same job has freed the one with the later edge first; finishing a job keeps that |
| RunOrders.RootsLined | src/qst/serialjobscheduler.cpp:93-99 | At the start the roots stand in line, by their ids |
| RunLoops.RunToCompletion | src/qst/main.cpp:185-200 | For every multigraph with a root and every behaviour of the jobs: termination, finished() emitted once and last, no job dispatched twice or before its predecessors, done is exactly the jobs without cyclic ancestry, results in order, everything in turn (RunOrders); each of them ends with the result and exports of its execution and with the hand-over from the final exports of its predecessors, and no other job of the arena changes |
| RunLoops.Dispatch | src/qst/jobdispatcher.cpp:140-146 | Result and exports of the dispatched job change in the arena, and nothing else |
| RunLoops.RunKeepsReceived | src/qst/serialjobscheduler.cpp:54-75 | Running a job changes no hand-over made before: its successors are dispatched later |
| Handovers.HandoverServesEdges | src/qst/serialjobscheduler.cpp:60-70 | The hand-over serves every edge under its own key iff parallel edges agree on the key, because edge() sees only the last inserted one |
| Handovers.SingleEdgesAgree | src/qst/serialjobscheduler.cpp:67-69 | With at most one edge per pair of jobs they agree |
| Jobs.JobArena.Create | src/qst/job.cpp:93-105 | A new job goes to the end of the arena, and no other job changes |
| DirectedGraphs.DirectedGraph.InsertEdge | src/qst/directedgraph.h:62-70 | The paired multimaps keep representing one list of edges, extended at its end |
| DirectedGraphs.DirectedGraph.InsertNode | src/qst/directedgraph.h:72-76 | The node is in the ascending list of nodes once |
| DirectedGraphs.DirectedGraph.Roots | src/qst/directedgraph.h:132-144 | Exactly the nodes without predecessors, ascending |
| DirectedGraphs.DirectedGraph.TheEdge | src/qst/directedgraph.h:84-88 | The most recently inserted of the parallel edges |
| Graphs.AcyclicHasRoot | src/qst/serialjobscheduler.cpp:91 | An acyclic graph with a node has a root |
| CycleChecks.CycleCheck.CyclicDependency | src/qst/dependencyresolver.cpp:147-170 | The recursion ends; what it returns lies on a cycle of first-listed predecessors, although the visited set is shared across starting nodes |
| CycleChecks.CycleCheck.Check | src/qst/dependencyresolver.cpp:172-184 | Every reported item is an edge on a cycle of the first-predecessor relation, and every such cycle is reported |
| CycleChecks.CheckDecidesFirstCycles | src/qst/dependencyresolver.cpp:145-189 | No report iff no testcase returns to itself along first-listed predecessors; with at most one distinct dependency per testcase, iff the graph is acyclic; an acyclic graph is never reported |
| CycleChecks.MissedCycle | src/qst/dependencyresolver.cpp:164-167 | A concrete graph with a cycle that is not reported |
| CycleBlindness.SilenceIsPossible | src/qst/dependencyresolver.cpp:164-169 | Some order of the same Depends items keeps the check silent iff every testcase descends from one without dependencies |
| FirstPredecessors.FirstCycleIsCycle | src/qst/dependencyresolver.cpp:150-167 | A cycle of first-listed predecessors is a cycle of the graph |
| FirstPredecessors.SingleCyclesAreFirstCycles | src/qst/dependencyresolver.cpp:164-167 | With at most one distinct predecessor per node the two notions of cycle agree |
| DependencyResolvers.DependencyResolver.CompleteResolve | src/qst/dependencyresolver.cpp:251-355 | Every job is a node; every Depends item is evaluated once per job that declares it; the edges are those of the evaluations; or a job with a missing partner, or with an item that cannot be evaluated for it, is named |
| DependencyResolvers.DependencyResolver.ResolveItem | src/qst/dependencyresolver.cpp:269-351 | The inserted edges are those to the matched jobs, in the order of the matches, and there is an error iff the tags of the item cannot be evaluated for the job or nothing matches in the one-to-one case |
| Matchings.MatchesCounts | src/qst/dependencyresolver.cpp:283-351 | The exact multiset of matches in the three cases, and the exact condition of the mismatch error |
| Matchings.MatchesInOrder | src/qst/dependencyresolver.cpp:289-351 | The order of the matches, and so of the edges: row by row and then as listed, as listed, or only the first entry with equal tags |
| Matchings.MatchesAsDocumented | src/qst/dependencyresolver.cpp:283-334 | A tagged job gets what is documented for tagged dependencies, all jobs with at least its tags, iff, of several jobs, just one has at least its tags and that one has no others, or the only job has at least its tags |
| Matchings.MoreTagsAreAMismatch | src/qst/dependencyresolver.cpp:309 | Where it does not: tag x, and two jobs with x and one more tag each, is a mismatch error instead of two dependencies |
| Matchings.SingleJobIsMatched | src/qst/dependencyresolver.cpp:284-299 | And where it does too much: tag x, and one job with tag y only, is a dependency where none is documented |
| Matchings.EvaluationShares | src/qst/dependencyresolver.cpp:278-282 | All edges of one evaluation, and no others, carry its Dependency |
| JobGraphs.EdgeProjects | src/qst/dependencyresolver.cpp:264-351 | Every edge of the job graph projects to an edge of the testcase graph, for any tags |
| JobGraphs.JobGraphClosed | src/qst/dependencyresolver.cpp:253-256 | Both ends of every edge are nodes |
| JobGraphs.JobGraphAcyclic | src/qst/dependencyresolver.cpp:251-355 | An acyclic testcase graph gives an acyclic job graph, for any table and any tags |
| JobGraphs.ResolvedMeansNoMismatch | src/qst/dependencyresolver.cpp:317-334 | A resolved table has no job that asks for a missing partner or has an item that cannot be evaluated |
| JobGraphs.CountIsShared | src/qst/dependency.h:33-54 | The shared count of a Dependency is the number of edges with its handle |
| JobGraphs.AliasesCollide | src/qst/directedgraph.h:84-88 | A resolved job graph from two items with different aliases: the exports arrive twice under one alias and never under the other |
| MixedRadix.DigitsOfIndex | src/qst/jobmultiplier.cpp:93-100 | Every combination of rows has an index below the product of the lengths, and the index gives the combination back |
| MixedRadix.IndexOfDigits | src/qst/jobmultiplier.cpp:129-136 | Every index below the product belongs to exactly its combination |
| MixedRadix.DigitByDivider | src/qst/jobmultiplier.cpp:117-136 | The digit is the index divided by the product of the earlier lengths, modulo the length |
| JobMultipliers.Measure | src/qst/jobmultiplier.cpp:107-127 | Lengths and dividers of the dimensions; an error iff two dimensions share a label |
| JobMultipliers.Expand | src/qst/jobmultiplier.cpp:101-146 | One tag set per combination of rows, first dimension varying fastest, product of the lengths many; an error iff labels overlap |
| Expansions.ExpandedDiffer | src/qst/jobmultiplier.cpp:129-145 | All expanded tag sets differ iff the rows within each dimension differ |
| Expansions.DenotesSame | src/qst/tag.cpp:75-79 | Interned tag sets are equal iff they denote the same labels and values |
| Expansions.CombinationDetermines | src/qst/jobmultiplier.cpp:119-139 | With disjoint labels the combined tags determine the row of every dimension |
| Tags.TagTable.Create | src/qst/tag.cpp:35-58 | The tag names the two strings, and earlier ids keep theirs |
| Tags.TagEquality | src/qst/tag.cpp:75-79 | Tags are equal iff label and value strings are, however much the table grew between the two calls |
| Dimensions.Transpose | src/qst/dimension.cpp:192-213 | Row i of the result holds the i-th value of every list and the value of every single one; an error iff lists differ in length |
| Dimensions.EvaluateTags | src/qst/depends.cpp:90-111 | The same rows as tag sets |
| Globs.MatchIsGlob | src/qst/jobmultiplier.cpp:149-159 | The one anchored expression accepts a name iff some pattern glob-matches it; the empty list of patterns is the exception, for the empty name |
| Globs.Match | src/qst/jobmultiplier.cpp:149-171 | Exactly the names that the joined expression accepts, in order; for patterns without other special characters these are the names that some pattern matches |
| JobTables.JobMultiplier.Multiply | src/qst/jobmultiplier.cpp:52-90 | Every testcase has one job per expanded tag set of each matrix whose expression accepts its name, or one untagged job; an error iff a matrix has overlapping labels, accepts no testcase, or accepts one without a writable property for a label |
| JobTables.JobMultiplier.AddUntagged | src/qst/jobmultiplier.cpp:80-89 | Exactly the testcases that no matrix covers get an untagged job |
| OneToOnes.SameMatrixMatchesOneToOne | src/qst/dependencyresolver.cpp:303-316 | Two testcases with the same different tag sets: the k-th job matches the k-th job and nothing else |
| OneToOnes.CoveredTestcasesMatchOneToOne | src/qst/dependencyresolver.cpp:289-336 | Two testcases covered by only one same matrix whose rows differ: an untagged Depends gives a bijection of their jobs and never the mismatch error |
| ProjectResolvers.ProjectResolver.BeginLoad | src/qst/projectresolver.cpp:119-136 | Terminates for any files; gets through iff no missing file comes right after a broken one in the load order; then the repeated-reference error is raised iff the references reached from the root do not form a tree, and without it exactly what is reached is loaded, each once, and exactly the missing and broken files are reported |
| ProjectResolvers.NoTrapMeansIntact | src/qst/projectresolver.cpp:181-186 | The same condition file by file: a missing file is survived iff the last existing one before it was not broken |
| ProjectResolvers.BrokenThenMissing | src/qst/projectresolver.cpp:181-191 | Two references, to a broken and then to a missing file, do not get through |
| ProjectResolvers.ProjectResolver.ResolveProjectReference | src/qst/projectresolver.cpp:177-209 | A missing or broken file is an error and has no references; any other is a document; a missing file fails when the current document is gone, and a broken one leaves it gone |
| ProjectResolvers.AgainMeansNoTree | src/qst/projectresolver.cpp:128-133 | A path that comes up again is the target of two references, or the root |
| ProjectResolvers.DoneMeansTree | src/qst/projectresolver.cpp:125-136 | An empty worklist: every reference has a target of its own, and the resolved paths are those reached |
| StpSockets.StpSocket.OnUartReadyRead | src/qst/stpsocket.cpp:96-148 | The read loop ends, also for empty payloads, in the state that the decoder gives for the stream, and announces one message per payload once connected |
| StpSockets.StpSocket.SendMessage | src/qst/stpsocket.cpp:185-196 | Appends exactly one encoded frame |
| StpSockets.StpSocket.ReadNextMessage | src/qst/stpsocket.cpp:198-201 | The oldest message leaves the queue |
| StpHosts.ChunksDoNotMatter | src/qst/stpsocket.cpp:96-148 | Final state, messages and unread bytes depend on the concatenated stream only |
| StpHosts.DrainAppend | src/qst/stpsocket.cpp:98-147 | Bytes that arrive later change nothing about what was read before |
| StpHosts.HostRoundTrip | src/qst/stpsocket.cpp:96-196 | From the constructor state, any frames with payloads up to 65535 bytes, in any pieces, decode to exactly the payloads in order |
| StpHosts.LengthLimit | src/qst/stpsocket.cpp:118-133 | The host takes the length modulo 65536 as the whole message: a message from the probe arrives iff it has at most 65535 bytes |
| StpHosts.HostResynchronises | src/qst/stpsocket.cpp:104-117 | Garbage without four delimiter bytes in a row and not ending in one costs no frame |
| StpHosts.ResynchronisesExactly | src/qst/stpsocket.cpp:104-123 | And only then is the next frame read as one frame: after a trailing delimiter byte the decoder is out of step with it |
| StpHosts.HostRecovers | src/qst/stpsocket.cpp:104-125 | Between two frames: after eight bytes that are no header, any number of delimiter bytes and noise that does not end in one, every frame is delivered |
| StpHosts.FrameAfterMismatchIsLost | src/qst/stpsocket.cpp:118-125 | A frame directly after those eight bytes is lost, since the buffer is not cleared, and no frame after it is |
| StpHosts.StrayByteCostsAFrame | src/qst/stpsocket.cpp:118-125 | One stray byte between two frames costs the host the next frame and no other |
| StpTargets.DrainAppend | src/launchpad-probe/serialinterface.cpp:100-180 | Bytes that arrive later change nothing about what was handed on before |
| StpTargets.TargetRoundTrip | src/launchpad-probe/serialinterface.cpp:100-180 | Any messages of 1 to 32 bytes mixed with reset requests: exactly the messages are posted, in order, and exactly one reset reply per request |
| StpTargets.TargetResynchronises | src/launchpad-probe/serialinterface.cpp:112-135 | Garbage without a complete delimiter and not ending in a delimiter byte costs no frame |
| StpTargets.TargetRecovers | src/launchpad-probe/serialinterface.cpp:129-135 | Between two frames: eight bytes that are no header and noise without a delimiter cost the probe no frame |
| StpTargets.UnknownTypeStops | src/launchpad-probe/serialinterface.cpp:128-148 | A header of an unknown type ends in the stopped receiver |
| StpTargets.DamagedFrameLost | src/launchpad-probe/serialinterface.cpp:150-157 | A frame damaged in its checksum byte alone is lost, and no other is |
| StpTargets.TargetLengthLimit | src/launchpad-probe/serialinterface.cpp:131-140 | A message of any length is posted as it was sent iff it has 1 to 32 bytes |
| BufferPools.LiveMeansReferenced | src/launchpad-probe/sharedpointer.h:121-156 | A buffer is live iff something refers to it, is deleted at most once, and is nowhere referred to after that |
| BufferPools.Unbind | src/launchpad-probe/sharedpointer.h:94-101 | A pointer that goes away keeps count and references equal for every buffer, deletes at zero, and leaks nothing |
| BufferPools.Bind | src/launchpad-probe/sharedpointer.h:67-85 | A new pointer keeps count and references equal |
| BufferPools.Decrement | src/launchpad-probe/sharedpointer.h:135-149 | A decrement by hand gives up one counted reference and does not delete what the pointer holds |
| SharedPointers.Heap.IncrementRefCount | src/launchpad-probe/sharedpointer.h:151-156 | The count in the buffer grows by one |
| SharedPointers.Heap.DecrementRefCount | src/launchpad-probe/sharedpointer.h:135-149 | The count drops by one; at zero the buffer is deleted and the pointer is null |
| SharedPointers.Heap.Construct | src/launchpad-probe/sharedpointer.h:67-85 | The constructor is the counted operation on the pool |
| SharedPointers.Heap.Destruct | src/launchpad-probe/sharedpointer.h:94-101 | So is the destructor |
| SharedPointers.Heap.Reset | src/launchpad-probe/sharedpointer.h:121-133 | So is reset without a buffer |
| SharedPointers.Heap.AssignBuffer | src/launchpad-probe/sharedpointer.h:87-92 | Assignment of a temporary gives up the old buffer, takes the new one and leaves one reference |
| Firmwares.Written | src/launchpad-probe/serialinterface.cpp:182-201 | The write interrupt keeps counts, order of the queue and txActive consistent, hands over the head of the queue or goes idle |
| Firmwares.Received | src/launchpad-probe/serialinterface.cpp:100-180 | The read interrupt posts exactly the message, or submits exactly one reset reply, that the decoder says, and keeps the invariant |
| Firmwares.Submit | src/launchpad-probe/serialinterface.cpp:219-230 | The gated section queues the buffer, counts the queue and starts an idle transmitter |
| Firmwares.PinEvent | src/launchpad-probe/pintargetobject.cpp:105-114 | A pin interrupt submits one whole message at any point of the main task |
| Firmwares.TaskPend | src/launchpad-probe/main.cpp:118-119 | The main task takes the oldest posted message |
| Firmwares.TaskSubmit | src/launchpad-probe/serialinterface.cpp:219-230 | What enters the queue is the message under construction, whatever interrupts came before |
| Firmwares.TaskRelease | src/launchpad-probe/main.cpp:122 | The reference that the mailbox held is given up, the pointer keeps the message |
| FirmwareRuns.CountsAreConserved | src/launchpad-probe/sharedpointer.h:121-156 | In every reachable state, for every buffer: live iff referenced; the count equals the SharedPointers plus queue and mailbox entries plus the one raw reference of the main loop; deleted exactly once if not live any more, and never while queued, posted, in flight or held |
| TaskBuffers.NoUpdateIsLost | src/launchpad-probe/sharedpointer.h:151-156 | The count is raised without an InterruptLock: for a message that the main task takes from the mailbox or is about to send, whatever interrupts come between reading and writing the count, the memory ends as if counting were one step, in every reachable state |
| TaskBuffers.MessageStaysWhole | src/launchpad-probe/main.cpp:118-122 | The buffer that the main task took from the mailbox holds the bytes of the message posted, until it is given up, whatever interrupts come |
| FirmwareRuns.HostReceivesWhatWasSent | src/launchpad-probe/serialinterface.cpp:182-231 | In every reachable state: handed plus queued is submitted in order, a non-empty queue implies txActive, the driver has exactly one unreported write while txActive, of the buffer that txBuffer holds, and none otherwise, and a host that reads the buffers handed over gets exactly the payloads submitted first |
| FirmwareRuns.TargetReceivesWhatWasSent | src/launchpad-probe/serialinterface.cpp:100-180 | With interrupts and task steps interleaved in any way, the mailbox was posted exactly the messages sent, the main task took a prefix, and one reset reply was submitted per request |
| FirmwareRuns.QueueDrains | src/launchpad-probe/serialinterface.cpp:182-201 | As many write interrupts as queued buffers put everything submitted on the wire |
| SerialInterfaces.Probe.OnUartBytesWritten | src/launchpad-probe/serialinterface.cpp:182-201 | The method is the specified step |
| SerialInterfaces.Probe.OnUartBytesReceived | src/launchpad-probe/serialinterface.cpp:100-180 | The method is the specified step, in every state of the receiver |
| SerialInterfaces.Probe.Write | src/launchpad-probe/serialinterface.cpp:208-231 | The method is pointer copy, header, gated section and the end of the copy, with an idle transmitter started inside |
| SerialInterfaces.TaskWrites | src/launchpad-probe/serialinterface.cpp:208-231 | In the main task, write is the four atomic steps of the model |
| SerialInterfaces.HandlerWrites | src/launchpad-probe/serialinterface.cpp:141-148 | In an interrupt, allocation, write and release are the one step of the model |
| SerialInterfaces.Probe.SendToHost | src/launchpad-probe/roctargetcontroller.cpp:124-136 | Allocation, write and release of the message |
| SerialInterfaces.Probe.DrainMailbox | src/launchpad-probe/main.cpp:116-123 | The main loop handles every waiting message in order, submits exactly their replies, releases every buffer and empties the mailbox |
| MessageBuffers.MessageBuffer.AllocateAtBack | src/launchpad-probe/messagebuffer.cpp:45-52 | Inside the memory iff there is room behind the tail, which the asserted condition guarantees without headroom only |
| MessageBuffers.MessageBuffer.HeadroomIsOverlooked | src/launchpad-probe/messagebuffer.cpp:47 | A buffer that is all headroom passes the assertion for as many bytes as it is long, and they lie behind the memory |
| MessageBuffers.MessageBuffer.AllocateAtFront | src/launchpad-probe/messagebuffer.cpp:54-60 | Room in front, and the contents stay |
| MessageBuffers.MessageBuffer.TakeAtFront | src/launchpad-probe/messagebuffer.h:81-88 | The bytes at the front are copied out and skipped |
| MessageBuffers.SendToHost | src/launchpad-probe/roctargetcontroller.cpp:124-136 | The buffer holds STP header, ROC header and payload, and they fill it exactly |
| MessageBuffers.ResetReply | src/launchpad-probe/serialinterface.cpp:146-147 | The reset reply is exactly an STP header |
| MessageBuffers.Open | src/launchpad-probe/roctargetcontroller.cpp:62-64 | The header that the host encoded is read, and the payload is what follows |
| RocMessages.HeaderRoundTrip | src/shared-types/protocols/roc.h:61-67 | Reading a header back gives its fields |
| RocMessages.BytesRoundTrip | src/shared-types/protocols/roc.h:61-67 | Writing a header that was read gives the same eight bytes |
| RocMessages.MessageRoundTrip | src/qst/rochostcontroller.cpp:152-159 | The host accepts every message of this form: the length assertion holds and header and payload come back |
| RocMessages.CommandLengthLimit | src/qst/rochostcontroller.cpp:149-159 | The asserted limit of 65535 bytes is not enough: the probe gets the message iff its payload has at most 24 bytes |
| RocMessages.PayloadStopsProbe | src/qst/rochostcontroller.cpp:150 | A payload of 25 bytes passes the assertion and stops the receiver of the probe |
| RocMessages.ReplyLengthLimit | src/launchpad-probe/roctargetcontroller.cpp:124-136 | In the other direction the host gets a message iff its payload has at most 65527 bytes |
| RocWires.ReplyRoundTrip | src/qst/rochostcontroller.cpp:201-240 | Every reply is recognised, with the blocking mark iff it ends a call |
| RocWires.CommandRoundTrip | src/launchpad-probe/roctargetcontroller.cpp:62-122 | Every command is understood, and fits the 32 bytes that the probe accepts |
| RocWires.RequestBytes | src/shared-types/protocols/pin.h:32-77 | The bytes of every request to a pin, headers of both layers included |
| RocWires.CommandBytes | src/shared-types/protocols/roc.h:46-67 | The bytes of the other commands |
| RocWires.ReplyBytes | src/shared-types/protocols/roc.h:46-67 | The bytes of the replies |
| RocWires.RepliesArrive | src/qst/stpsocket.cpp:96-148 | Through both layers and any chunks the host hears exactly the replies sent, in order |
| RocWires.CommandsArrive | src/launchpad-probe/serialinterface.cpp:100-180 | Through both layers the probe understands exactly the commands sent, in order |
| Pins.OneReply | src/launchpad-probe/pintargetobject.cpp:53-75 | Given that the driver accepts the pin: a request causes exactly one blocking reply iff its pin number is in use (changes) or free (initialisation), and never for a change of the number |
| Pins.ChangeBeforeInitUnanswered | src/launchpad-probe/pintargetobject.cpp:53-75 | Nor is a change of the value before the initialisation, while number 0 is free |
| Pins.NumberChangeUnanswered | src/launchpad-probe/pintargetobject.cpp:121-139 | No change of the number is answered |
| Pins.AnswerIs | src/launchpad-probe/pintargetobject.cpp:77-103 | That reply is StatusOk and comes first; anything else names the object; no other object changes |
| Pins.RequestLeaves | src/launchpad-probe/pintargetobject.cpp:53-103 | What a request leaves behind: of its own object exactly the field asked for, and of the static table, after a change of the number in use, the new number in place of the old one |
| Pins.TypeDecidesEdges | src/launchpad-probe/pintargetobject.cpp:105-114 | After a change of the direction, edges at its number are reported iff it is an input |
| Pins.ReportsAreTrue | src/launchpad-probe/pintargetobject.cpp:95-114 | The value reported to the host is the one the object holds: what was read for an input, what was requested for an output; edges are reported for inputs only |
| Pins.ParseKeeps | src/launchpad-probe/pintargetobject.cpp:116-119 | The static table stays consistent |
| Pins.DestroyKeeps | src/launchpad-probe/pintargetobject.cpp:47-51 | A deleted object is out of the static table, so no edge reaches it |
| Pins.DestroyDisables | src/launchpad-probe/pintargetobject.cpp:116-119 | Deleting an object disables another one iff both have the same number, which happens for an object that was never initialised |
| Pins.DestroyDisablesAnother | src/launchpad-probe/pintargetobject.cpp:47-51 | A consistent table where it happens: the other object is not answered any more and reports no edge |
| PinTargetObjects.PinTargetObject.ParseMessage | src/launchpad-probe/pintargetobject.cpp:53-75 | Fields, static table and replies are those of the specification |
| PinTargetObjects.PinTargetObject.Init | src/launchpad-probe/pintargetobject.cpp:77-103 | The same for init, including the extra replies on a used number |
| PinTargetObjects.PinTargetObject.SetIoid | src/launchpad-probe/pintargetobject.cpp:121-139 | The entry moves to the new number and nothing is answered |
| PinTargetObjects.PinTargetObject.Destruct | src/launchpad-probe/pintargetobject.cpp:47-51 | No entry of the table leads to the deleted object |
| PinTargetObjects.OnPinEvent | src/launchpad-probe/pintargetobject.cpp:37-45 | An edge is reported by the object in the table unless its pin is an output |
| RocTargets.DestructKeeps | src/launchpad-probe/roctargetcontroller.cpp:92-109 | Exactly the entry of the object goes, the count stays the number of live objects, and the probe disconnects iff none is left |
| RocTargets.ConnectKeeps | src/launchpad-probe/roctargetcontroller.cpp:73-88 | Nothing that lived before survives Connect |
| RocTargets.ConstructKeeps | src/launchpad-probe/roctargetcontroller.cpp:138-153 | One live object more, counted, and no table entry changes |
| RocTargetControllers.RocTargetController.ProcessMessage | src/launchpad-probe/roctargetcontroller.cpp:62-122 | State and replies are those of the specification, for every message the probe gets on with |
| RocTargetControllers.RocTargetController.DestructObject | src/launchpad-probe/roctargetcontroller.cpp:92-109 | The in-place loop nulls exactly the entries of the object and counts them |
| RocHostControllers.RocHostController.RegisterObject | src/qst/rochostcontroller.cpp:69-107 | Up to its first request: Connect for the first object, Construct otherwise |
| RocHostControllers.RocHostController.UnregisterObject | src/qst/rochostcontroller.cpp:117-121 | The request names the id of the object |
| RocHostControllers.RocHostController.SendToTarget | src/qst/rochostcontroller.cpp:139-168 | A request of an object goes out under its id |
| RocHostControllers.RocHostController.Proceed | src/qst/rochostcontroller.cpp:93-136 | What each blocking call does after its reply |
| RocHostControllers.RocHostController.OnReadyRead | src/qst/rochostcontroller.cpp:189-242 | All waiting messages are processed in order |
| RocHostControllers.RocHostController.OnPingTimerTick | src/qst/rochostcontroller.cpp:244-255 | Gives up iff more than two pings are unanswered; otherwise counts and sends one |
| RocTheorems.NothingFails | src/qst/rochostcontroller.cpp:117-255 | In every run no assertion of a call, a message or a ping tick fails on the host, and the probe never spins, runs into a missing object or follows a dangling table entry |
| RocTheorems.Agreement | src/qst/rochostcontroller.cpp:69-136 | Between two calls the two maps are inverse, their ids are exactly the live objects of the probe, probeCount is their number, and host Connected iff probe connected iff there are any |
| RocTheorems.OneReplyPerCall | src/qst/rochostcontroller.cpp:161-168 | While a call waits, exactly one of request, reply and arrived reply exists; between calls none, so no reply ends a later call |
| RocTheorems.PingsConserved | src/qst/rochostcontroller.cpp:229-255 | Unanswered pings equal pings plus pongs on their way, are at most 3, positive when a pong arrives and 0 when disconnected |
| RocTheorems.MessagesFindTheirObject | src/qst/rochostcontroller.cpp:234-240 | Every user message on its way names a registered object |
| RocTheorems.TickIsHarmless | src/launchpad-probe/roctargetcontroller.cpp:66-69 | A ping tick lets the probe get through all messages iff no Destruct for the only object is unfinished |
| RocTheorems.TickCanStrand | src/qst/rochostcontroller.cpp:117-136 | A run in which such a tick can come: one object registered and unregistered |
| RocTheorems.CallEnds | src/qst/rochostcontroller.cpp:146-169 | From every reachable state, delivering what is on its way ends the call: no deadlock |
| RocRequests.RequestsConserved | src/qst/rochostcontroller.cpp:139-168 | In every run, the requests that the steps of the host ask for are exactly those that the probe took and those on their way, in order |
| RocRequests.RequestIsTheOneGiven | src/qst/rochostcontroller.cpp:139-168 | From a request of an object to the end of its call, that request under the id of the object is the only one on its way or taken |
| RocRequests.CallTakesEffect | src/launchpad-probe/pintargetobject.cpp:53-103 | When its reply has come, the request had its effect on that object, and nothing but edges at inputs changed anything else |
| RocRequests.ValueArrives | src/qst/pinprobe.cpp:136-141 | So a pin that was set holds the value when the call ends, with number and direction as before, if it is an output or no edge came in |
| Links.StepRefines | src/launchpad-probe/main.cpp:111-123 | Every step of host, wires, interrupts and main task together is one step of the ROC protocol on what was sent and not taken in, or none that the protocol notices |
| Links.LinkRunsTheProtocol | src/qst/rochostcontroller.cpp:146-242 | Every run of the whole link, with any interleaving and any chunks, is a run of host and probe over two channels that lose and reorder nothing |
| Links.WorksOnNext | src/launchpad-probe/roctargetcontroller.cpp:62-64 | The buffer that the main task took holds the bytes of the next command that the host asked for |
| Links.HearsWhatWasSaid | src/qst/rochostcontroller.cpp:189-207 | The next message of the host is the next one that the firmware submitted, with its blocking mark |
| Links.NothingFails | src/qst/rochostcontroller.cpp:117-255 | So in no run of the whole link does an assertion fail, the probe spin or a message get misunderstood |
| Links.LinkAgrees | src/qst/rochostcontroller.cpp:69-136 | And between two calls host and probe know the same objects |
| Links.RequestTakesEffect | src/qst/rochostcontroller.cpp:139-168 | The same through all layers: the request of an object is the only one on its way or taken, and has its effect on exactly that object when the host has heard the reply |

## Left out

- QML engine and parser: evaluated tag values, names and references are inputs; the tag rows that a Depends item yields for a job, or that it has none, are given as a function.
- Sanity checks of names and aliases (`src/qst/dependencyresolver.cpp:104-138`): error messages without influence on what is proved.
- Preliminary exports before bindings are resolved (`src/qst/dependencyresolver.cpp:191-220`).
- Exclusion of jobs: `removeExcluded` returns its argument.
- Duplicate testcase names (`src/qst/projectresolver.cpp:138-163`) and the generated default project of a single testcase; paths are taken as `makeAbsolute` returns them.
- A run without any job: `finished()` reaches `QEventLoop::quit` before `exec` (`src/qst/main.cpp:196-200`) and is lost, so the program waits for ever; the model ends with the signal.
- Execution of a testcase: its result and exports are any function of the job.
- Iteration order of a `QMultiMap` across different keys, beyond the order in which the table lists them.
- Regular expressions beyond what the two replacements can produce; patterns with other special characters.
- Timers, timeouts and retries: a tick is a step that can come at any time, a blocking call waits for its reply.
- The watchdog, the connection clock, the activity light, UART and pin drivers, and the capacity of the mailbox.
- An STP header of an unknown type, or a message of 0 or more than 32 bytes, stops the modelled receiver of the firmware, where the code runs into an assertion or reads into no buffer.
- A ROC message shorter than its header, for which the code reads beyond the message.
- Pull modes of pins, except that they are transmitted and acknowledged; the level that the driver puts on an output, which follows its value.
- What a host object does with a message from its pin (`src/qst/pinprobe.cpp`), beyond that the message finds it.
- Processes, files, Xds and signal probes, loggers, profiles and the command line.
- Links.StepRefines: processMessage changes the objects in one step, so an interrupt between two of its statements finds them as they are afterwards; the handshake that begins a connection is not part of it.
- Pipelines.Run: takes the dependency graph with names that exist, as the sanity checks before it guarantee.
- SerialInterfaces.Probe.OnUartBytesReceived: stands for one whole handler; interrupts between its statements are covered only as far as they are held off by the driver.
- SerialInterfaces.Probe.DrainMailbox: runs without interrupts in between; interleavings are the subject of FirmwareRuns.
- RocHostControllers.RocHostController.RegisterObject: ends at the event loop, because a blocking call is cut where it waits; Proceed is the rest, and the connection retries after a timeout are not modelled.
