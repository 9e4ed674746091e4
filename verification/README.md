# Dafny models of qemu-gzvm

This project models the parts of the emulator whose correctness depends on more than one function at a time, and proves what
they promise for all inputs, all graphs and all interleavings. `dafny verify dfyconfig.toml` verifies everything.

| file | subject |
|---|---|
| `Dag.dfy`, `BlockGraph.dfy` | reachability in finite graphs; nodes, edges and the two kinds of edge lists of the block graph |
| `Drain.dfy` | drained sections: `quiesce_counter` of nodes and `quiesced_parent` of edges |
| `Topology.dfy` | attaching, moving and detaching edges, with the undo log of a transaction |
| `Permissions.dfy` | the default permission policies and the refresh pass with its undo log |
| `PermissionPolicies.dfy` | what the policies mean in a refreshed graph: backing files, filters, data and metadata |
| `GraphChanges.dfy` | replacing and appending nodes: changes of links that need permissions, as one transaction |
| `CpuExclusive.dfy` | `start_exclusive`/`end_exclusive` against `cpu_exec_start`/`cpu_exec_end`, step by step |
| `GraphLock.dfy` | the reader/writer lock with one reader counter per context, step by step |
| `TrackedRequests.dfy` | tracked and serialising requests of one node |
| `FlushGenerations.dfy` | `write_gen`, `flushed_gen` and overlapping flushes |
| `ImageLocks.dfy` | byte locks that carry permissions between processes, lock call by lock call |
| `Jobs.dfy` | the job status table and transactions of jobs |
| `DiskBytes.dfy`, `RequestPadding.dfy`, `DiskRequests.dfy` | unaligned writes and zero writes against a disk of bytes |
| `ConcurrentWrites.dfy` | unaligned writes in flight together, byte by byte, under the tracking of requests |
| `BlockStatus.dfy` | block status of a node and of a backing chain |
| `Resampler.dfy`, `PlaybackVoice.dfy` | the fixed-point resampler, its predictions, and writes to a playback voice |
| `AudioRing.dfy` | the byte ring between the audio thread and the AAudio callback |
| `Alignment.dfy`, `IdLists.dfy`, `Options.dfy` | rounding to multiples; lists of numbered things; an option type |

## How the code is represented

- **Graphs.** A `Shape` holds the block graph: nodes, edges, the owner and the target of each edge, and the parents and children lists
  that the code keeps. Classes hold a `Shape` and change it as the code does; the work is done on values, so that each proof is about
  one change. A transaction is its list of undo records, undone last in, first out.
- **Concurrent protocols** are step machines. One step makes at most one access to data that is not protected by a lock, under
  sequential consistency. Coroutines of one context are cut where they wait. A run is either a sequence of states or a list of moves;
  the main theorems speak of every state of every run.
- **Numbers** are unbounded, with the width written out where wrap-around matters: the reader counters, the positions of the byte
  ring, and the frame predictions.
- **What drivers and the outside do** (results of driver calls, `prepare`, lock calls that fail, memory that cannot be had, spurious
  wake-ups) is chosen freely by the environment; what it chose to fail is recorded, so that contracts can say that nothing else fails. Disk
  reads succeed.
- **History.** Some states carry values that no step looks at, such as all bytes ever accepted by a ring; the declarations say which.

## Where the code does not do what one might expect

- **Loosening permissions** never creates a conflict, but it can be refused, for two reasons. Giving up RESIZE while keeping WRITE on a
  node whose size is not a multiple of its request alignment fails, and so does a loosening that a driver does not accept.
  `LooseningRefusedIff` says exactly when, `LooseningRefusedExample` shows one.
- **A serialising request that grows** its range between read and write can be parked, and from then on it no longer keeps others out of
  the bytes that it has read. `GrowthParksIff` and `GrowthLetsInIff` say exactly when, `GrowthLetsInExample` is a run.
- **The graph lock's sign assertion** can fail in the scan that waits while `has_writer` is 0: a reader may enter on a context already
  summed and leave on one still to be summed. `WaitScanAssertIff` says exactly when, `WaitScanAssertFailsExample` shows a run. There the
  model stops, as the assertion would. In the scan that decides it never fails.
- **A transaction of jobs is not all-or-nothing.** If another job than the one at whose instance it is finalized fails to prepare, that one
  commits. It is the job that was asked, or, if all are to be finalized by themselves, the last one to complete. `FinalizeOutcome`,
  `ExitOutcome` and `AbortOutcome` say exactly when, `SplitOutcomeExample` is a run.
- **An empty vector element, or more than IOV_MAX elements,** can make an assertion of `bdrv_create_padded_qiov` fail. `Pwritev` says for
  exactly which requests, none of which reaches the driver: only padded ones, and only the part of the vector that is written counts.
  `CountFailsExample` shows one, and `CountHolds` that there is none if no element is empty and IOV_MAX is kept to.
- **The AAudio ring** plays in order in every run exactly if its size divides 2^32 or is a single frame: `AlwaysInOrderIff`. Any ring plays
  in order until the positions wrap (`PlaysInOrder`); for every other size `PlaysWrong` gives a run that plays a wrong byte after that.
- **`flushed_gen` can go back**, without harm: `GoesBack` and `GoesBackExample`.

## Model

| member | source | states |
|---|---|---|
| Drain.Graph.ParentDrainedBeginSingle | block/io.c:93-103 | marking one unmarked edge keeps every counter equal to direct drains plus marked child edges, and changes nothing below the rank it starts at |
| Drain.Graph.ParentDrainedEndSingle | block/io.c:37-47 | unmarking one marked edge keeps the same balance |
| Drain.Graph.ParentDrainedBegin | block/io.c:22-35 | all parent edges of a node are marked, each once, and their parents are drained in turn |
| Drain.Graph.ParentDrainedEnd | block/io.c:49-62 | all parent edges of a node are unmarked, each once |
| Drain.Graph.DoDrainedBegin | block/io.c:302-325 | the first drain of a node climbs to its parents; the balance of the whole graph above it is restored |
| Drain.Graph.DoDrainedEnd | block/io.c:339-362 | the last end of a node climbs to its parents; its assertion on the counter holds |
| Drain.Graph.DrainedBegin | block/io.c:332-337 | the graph stays balanced: an edge is marked exactly if the node below it has a nonzero counter |
| Drain.Graph.DrainedEnd | block/io.c:364-368 | the graph stays balanced with one direct drain less |
| Drain.Graph.Drain | block/io.c:370-375 | a matched begin and end restore every counter and every mark |
| Drain.Graph.ReplaceChildNoperm | block.c:2422-2458 | moving a quiesced edge to another node, or detaching it, leaves the graph balanced and relinks exactly that edge |
| Drain.Graph.ReplaceChildTran | block.c:2040-2084 | replacing or detaching a quiesced child in a transaction keeps the balance; an abort, which drains a detached edge again first, restores all attachments, counters and marks |
| Drain.Graph.ReplaceChildBs | block.c:4309-4339 | draining both nodes around the replacement; on failure counters and marks are as before |
| Drain.Graph.AttachChild | block.c:2581-2583 | a new edge is drained first, so attaching it below a drained or undrained node keeps the balance |
| Drain.DrainStateDetermined | block/io.c:302-362 | counters and marks are a function of the attachments and the direct drains alone, so any matched run restores them |
| Drain.QuiescedIffDrainedBelow | block.c:1002-1018 | a node has a nonzero counter exactly if it, or a node below it, is drained directly |
| Topology.RecurseHasChild | block.c:3423-3439 | the recursive walk decides reachability, and terminates on every acyclic graph |
| Topology.ShouldUpdateChild | block.c:4089-4129 | the breadth-first search decides whether the edge is among those below the new target |
| Topology.RetargetAcyclic | block.c:4089-4129 | moving an edge keeps the graph acyclic exactly if its owner is not below the new target |
| Topology.AttachAcyclic | block.c:2596-2628 | attaching a child keeps the graph acyclic exactly if the parent is not reachable from the child |
| Topology.MoveParents | block.c:4155-4187 | the loop over the parent edges moves exactly those that may move, fails exactly if one is not allowed to, and stays undoable |
| Topology.Graph.ReplaceNodeNoperm | block.c:4155-4187 | every edge to the old node that may move leads to the new one, no other edge changes, and the graph stays acyclic |
| Topology.Graph.AttachChildNoperm | block.c:2517-2628 | succeeds exactly if it closes no cycle, puts no inactive node below an active one and asks an inactive node for nothing that it cannot give; the graph stays acyclic |
| Topology.DetachChild | block.c:4141-4153 | detaching an edge takes it out of both lists, keeps the graph acyclic and stays undoable |
| Topology.FindCowEdge | block.c:4204-4213 | the walk down a chain ends at the edge of the chain that leads to its target |
| Topology.Graph.Abort | block.c:2040-2056 | the undo records restore the links that the transaction began with |
| Topology.Graph.Finalize | block.c:4189-4237 | commit keeps the links, abort restores them |
| Permissions.ChildPermMonotone | block.c:2296-2403 | every default policy, and the raw override, gives looser child permissions for looser parent permissions |
| Permissions.TopologicalDfs | block.c:1912-1935 | the list it builds has parents before children and no node twice, and holds just the nodes reached |
| Permissions.RefreshOrder | block.c:2172-2185 | for any list of start nodes the order of a refresh is topological, without a node twice, and consists of exactly the nodes reachable from them |
| Permissions.GetCumulativePerm | block.c:2187-2203 | the loop gives the union of what users need and the intersection of what they share |
| Permissions.ParentPermsConflict | block.c:1874-1893 | the double loop finds a conflict exactly if some user needs what another one does not share |
| Permissions.NodeRefreshPerm | block.c:2086-2147 | a node is accepted exactly if it passes the checks; then its edges follow its policy; the undo log stays exact |
| Permissions.DoRefreshPerms | block.c:2149-2171 | the pass over the list succeeds exactly if every check passes at its moment, and is undone by its log |
| Permissions.PropagateSettles | block.c:2149-2171 | one pass over a topological order leaves every visited node's edges equal to the policy of its final cumulative permissions |
| Permissions.PassOkIff | block.c:2086-2171 | checks made during the pass succeed exactly if the permissions at its end pass them all |
| Permissions.PropagateUnique | block.c:2149-2171 | the pass finds the only permissions that settle its nodes and change nothing else |
| Permissions.ListRefreshPerms | block.c:2172-2185 | succeeds exactly if some permissions below the start nodes would do; then they are settled, free of conflict and accepted, and all else is as it was; the undo log stays exact |
| Permissions.RefreshPerms | block.c:2234-2253 | succeeds exactly if some permissions below the node would do; then all nodes below are settled, free of conflict and accepted |
| Permissions.Graph.Abort | block.c:1943-1951 | the undo log restores every edge's permissions |
| Permissions.Graph.ChildTrySetPerm | block.c:2255-2280 | the change takes effect everywhere below or nothing changes; a refused change is reported exactly if it was not a loosening |
| Permissions.LooseningIsSafe | block.c:2255-2280 | loosening one edge of a settled graph without conflicts loosens every edge below and creates no conflict |
| Permissions.LooseningRefusedIff | block.c:2086-2147 | a loosening is refused exactly if it leaves a writer without RESIZE on an image of odd size or a driver does not accept the looser permissions |
| Permissions.LooseningRefusedExample | block.c:2086-2147 | a settled graph in which that happens |
| PermissionPolicies.FilteredEdge | block.c:2296-2304 | in a settled graph a filter asks for exactly what its users need and shares what they all share |
| PermissionPolicies.BackingEdge | block.c:2307-2332 | a backing edge never carries more than CONSISTENT_READ, always shares that and WRITE_UNCHANGED, and the rest exactly if all users share WRITE or the overlay is inactive |
| PermissionPolicies.StorageEdgeNeeds | block.c:2334-2380 | each of the four permissions of a data or metadata edge, for default drivers and for the raw format: exactly when it is needed |
| PermissionPolicies.StorageEdgeShares | block.c:2334-2380 | each of the four, exactly when it is shared: an active node shares neither writing nor resizing of its metadata, nor resizing of its data |
| PermissionPolicies.NodeOkIff | block.c:2086-2120 | the checks of a node in terms of its users: writers only on a writable node, without RESIZE only on a size that fits the alignment, and the driver agrees |
| PermissionPolicies.DataNotResized | block.c:2334-2380 | after a refresh no other user resizes the data child of an active node |
| PermissionPolicies.MetadataAlone | block.c:2334-2380 | after a refresh no other user writes or resizes the metadata child of an active node |
| PermissionPolicies.BackingNotWritten | block.c:2307-2332 | a node that only serves as backing file is never written |
| PermissionPolicies.WritesReachDown | block.c:2296-2403 | after a refresh everything that filters and data children lead to below a writer is writable, and someone may write it |
| GraphChanges.Tree.ReplaceNodeCommon | block.c:4189-4237 | succeeds exactly if all users may move and, in the graph so changed, some permissions below both nodes would do; then exactly these users have moved, with `detach_subchain` the end of the chain is cut off, and permissions are those; else links, roles and permissions are as before |
| GraphChanges.Tree.Append | block.c:4265-4307 | succeeds exactly if the new edge closes no cycle, puts no inactive node below an active one and asks it for nothing that it cannot give, no user that should move is frozen, and in the graph so changed some permissions below the new node would do; then the new node is on top, has taken over the users of the old one, and permissions are those; else nothing changes |
| CpuExclusive.StepKeeps | cpu-common.c:173-263 | every atomic step of the four functions keeps the invariant |
| CpuExclusive.ExclusiveAlone | cpu-common.c:180-263 | in every state of every run: no CPU runs guest code while another holds the section, one holder at most, `pending_cpus` is one plus the CPUs with `has_waiter` after the scan, and the assertion on `running` holds |
| CpuExclusive.NoLostWakeup | cpu-common.c:173-263 | a CPU parked on either condition variable still has what it waits for, so no wake-up is lost |
| CpuExclusive.SectionGiven | cpu-common.c:180-215 | when nobody has claimed the section and no CPU runs, `start_exclusive` runs through to the end |
| CpuExclusive.SectionLeft | cpu-common.c:217-228 | `end_exclusive` opens the section and leaves nobody parked before it |
| CpuExclusive.RunGiven | cpu-common.c:230-245 | while nobody has claimed the section, `cpu_exec_start` goes straight to guest code |
| CpuExclusive.Reported | cpu-common.c:247-263 | a CPU that was asked to reports when its guest code ends, and the last one wakes the owner |
| CpuExclusive.SomebodyAwake | cpu-common.c:173-263 | in no state of any run do all wait: for each parked CPU one is awake that it waits for |
| CpuExclusive.HolderMoves | cpu-common.c:173-263 | whoever holds the list lock can go on |
| GraphLock.ScanEnds | block/graph-lock.c:49-63 | a finished scan passes its assertion, and a sum of zero means that no reader is inside |
| GraphLock.StepKeeps | block/graph-lock.c:33-136 | every step of readers, the writer and context registration keeps the invariant |
| GraphLock.NoReaderBesideWriter | block/graph-lock.c:65-122 | in every run no reader is inside together with the writer, though counters are read one at a time and readers may leave on another context |
| GraphLock.SleepersWoken | block/graph-lock.c:84-122 | a reader sleeps only while a writer is under way, and the end of its unlock leaves no reader asleep |
| GraphLock.ScanAssertHolds | block/graph-lock.c:49-63 | the sign assertion never fails in the scan that decides |
| GraphLock.WriterAdmitted | block/graph-lock.c:65-82 | when no reader counts, `bdrv_graph_wrlock` runs through to the end |
| GraphLock.WriterLeaves | block/graph-lock.c:84-96 | `bdrv_graph_wrunlock` takes back `has_writer` and wakes every sleeper |
| GraphLock.ReaderAdmitted | block/graph-lock.c:98-122 | without a writer a reader gets in, also one that was just woken |
| GraphLock.HolderMoves | block/graph-lock.c:49-122 | whoever holds the list lock can go on, except a writer whose sum fails the assertion |
| GraphLock.WaitScanAssertIff | block/graph-lock.c:49-63 | the scan that waits sums the readers that count, less what the counters it had read have grown by since; its sign assertion holds exactly if that growth is not more than those readers |
| GraphLock.WaitScanAssertFailsExample | block/graph-lock.c:72-75 | a run in which one reader makes that assertion fail, for any two contexts |
| TrackedRequests.OverlapsIff | block/io.c:510-522 | two ranges overlap exactly if they have a byte in common |
| TrackedRequests.BeginWaitsIff | block/io.c:524-557 | a newcomer waits exactly if a running serialising request is in its way |
| TrackedRequests.ResumeWaitsIff | block/io.c:524-557 | a request whose wait ends waits again exactly if another running one conflicts with it |
| TrackedRequests.FindConflicting | block/io.c:524-545 | the loop finds the first conflicting request that does not wait itself |
| TrackedRequests.GrownNests | block/io.c:559-575 | with alignments that divide one another, growing a range never gives up a byte |
| TrackedRequests.ConflictingWait | block/io.c:471-557 | after every run: of two conflicting requests one waits, `waiting_for` has no cycle, every request guards its own bytes |
| TrackedRequests.RecheckIdle | block/io.c:640-652 | looking again never stops a running request, with and without the shortcut on `serialising_in_flight` |
| TrackedRequests.ReadModifyWriteAlone | block/io.c:1904-1911 | between read and write of a padded request everything else that touches its range waits, as long as the range does not grow |
| TrackedRequests.SomebodyMoves | block/io.c:547-557 | no deadlock: some tracked request runs or has been woken |
| TrackedRequests.GrowthParksIff | block/io.c:654-665 | growing stops a running request exactly if another running one is in the way |
| TrackedRequests.GrowthLetsInIff | block/io.c:1632-1643 | a newcomer gets at bytes already guarded exactly if the growth parked their guard |
| TrackedRequests.GrowthLetsInExample | block/io.c:1632-1643 | a run in which that happens, for every block size |
| FlushGenerations.ApplyKeeps | block/io.c:2390-2489 | every move of flushes and finishing writes keeps the invariant |
| FlushGenerations.FlushedIsDurable | block/io.c:2440-2479 | in every run all writes up to `flushed_gen` are durable |
| FlushGenerations.FlushDurable | block/io.c:2390-2489 | a flush that returns 0 has made every write durable that had finished before its call, also when it skipped the disk |
| FlushGenerations.FlushReturns | block/io.c:2390-2489 | a flush fails only if one of its calls has, and returns after nine moves at most, whatever else happens |
| FlushGenerations.FlushSucceeds | block/io.c:2390-2489 | a flush none of whose calls fails returns 0 |
| FlushGenerations.FailureReported | block/io.c:2440-2489 | a flush one of whose calls fails does not return 0 |
| FlushGenerations.CleanSkips | block/io.c:2440-2479 | after a flush that returns 0 another one of the same generation does not go to the disk |
| FlushGenerations.SomebodyFlushes | block/io.c:2406-2415 | flushes do not wait for each other for ever: as long as one has not returned, some flush can move |
| FlushGenerations.GoesBack | block/io.c:2477-2479 | `flushed_gen` may go back, and nothing durable is lost by it |
| FlushGenerations.GoesBackExample | block/io.c:2390-2489 | a run in which it does |
| ImageLocks.MoveWins | block/file-posix.c:748-787 | a process comes to rely on a byte only when nobody has locked the opposite one |
| ImageLocks.MoveKeeps | block/file-posix.c:678-841 | every lock call and every transition of prepare, commit and abort keeps the invariant |
| ImageLocks.PermissionsExclusive | block/file-posix.c:789-841 | in every run no process uses a permission that another does not share, and locked bytes cover the permissions |
| ImageLocks.CommitOnlyUnlocks | block/file-posix.c:3023-3049 | commit and abort have nothing to lock, so no failing call uncovers a permission |
| ImageLocks.LockCallMeans | block/file-posix.c:678-746 | a call locks its byte if it is wanted and unlocks it otherwise, and touches no other |
| ImageLocks.CallsLeadTo | block/file-posix.c:678-841 | as long as no call of a process fails, each brings it nearer to the end: a prepare ends prepared, a commit with the new permissions, an abort with the old ones |
| ImageLocks.PrepareAsks | block/file-posix.c:807-815 | a prepare is skipped exactly if it wants no byte beyond those of its permissions; otherwise it locks exactly the missing ones |
| ImageLocks.ChangeGranted | block/file-posix.c:789-841 | a change can be prepared and committed if nobody has locked the opposite of a byte that it wants; then the process has the new permissions and exactly their bytes |
| ImageLocks.NoLockLeft | block/file-posix.c:825-841 | in every run without a failing unlock, whoever is at rest has locked exactly the bytes of its permissions |
| Jobs.RunOutcome | job.c:689-982 | in every run: no assertion fails, members are PENDING only together and without error, a concluded job ran exactly one of commit and abort |
| Jobs.TableForward | job.c:16-28 | the status table lets no job go back, and to the end only by way of PENDING or an abort |
| Jobs.CompletedStays | job.c:16-28 | a completed job never becomes uncompleted |
| Jobs.AbortOutcome | job.c:793-822 | once a transaction aborts every job aborts, except that its initiator commits exactly if it had neither failed nor been force-cancelled |
| Jobs.DoFinalizeOutcome | job.c:846-857 | finalizing at the instance of a job commits all if all prepare; else an abort begins, and that job is doomed exactly if it was the one that failed |
| Jobs.FinalizeOutcome | job.c:859-866 | the same for finalizing on request |
| Jobs.ExitOutcome | job.c:884-916 | what the end of a job leads to, in all cases: an abort, waiting for others, PENDING for all, or the same finalizing at the instance of the last job |
| Jobs.CancelOutcome | job.c:966-982 | a job that was cancelled by force never commits, in no run, and neither does any other of its transaction |
| Jobs.FailureOutcome | job.c:905-916 | the same for a job whose driver returned an error |
| Jobs.SoftCancelOutcome | job.c:765-791 | a cancel that is not forced only leaves a mark |
| Jobs.PeacefulOutcome | job.c:689-982 | if nothing fails and nobody is cancelled by force, no transaction aborts, and whoever has left has committed |
| Jobs.SomebodyMoves | job.c:689-982 | in every run, as long as a transaction has jobs, one of them or the abort loop can go on: jobs never all wait for each other |
| Jobs.CancelAllowed | job.c:966-982 | any job that has not come to its end can be cancelled by force, unless the abort loop is at work |
| Jobs.SplitOutcomeExample | job.c:846-857 | a run from two new jobs to the end, in which one has committed and one has aborted |
| RequestPadding.SliceVec | util/iov.c:309-341 | the slice holds the requested bytes, cut from the vector without loss |
| RequestPadding.ConcatIov | util/iov.c:278-301 | the loop appends the requested part of a vector |
| RequestPadding.CutGather | util/iov.c:278-301 | that part names exactly the requested bytes |
| RequestPadding.InitPaddingOk | block/io.c:1220-1257 | head and tail complete the request to whole blocks, and the buffer sizes fit |
| RequestPadding.CreatePadded | block/io.c:1337-1392 | the padded vector names padding, payload, padding, in at most IOV_MAX elements; the assertion on its count holds exactly if no element that stays apart is empty |
| RequestPadding.PaddedBytes | block/io.c:1337-1392 | the bytes it names follow what the padding buffer holds later |
| DiskRequests.CheckRequestIff | block/io.c:667-740 | a request passes exactly if it ends within the largest image and within its vector and its size fits, also an empty one |
| DiskRequests.PadRequest | block/io.c:1394-1444 | the caller's bytes stand between the two pieces of padding; whether both assertions hold |
| DiskRequests.CountHolds | block/io.c:1344-1390 | both assertions hold for all vectors of at most IOV_MAX elements of which none is empty |
| DiskRequests.CountFailsExample | block/io.c:1390 | a request for which the second one fails, for every alignment of more than two bytes |
| DiskRequests.LimitsGreatest | block/io.c:1720-1721 | requests are cut by the largest multiples of the alignments that the driver allows |
| DiskRequests.Disk.AlignedWrite | block/io.c:1698-1776 | splitting by the transfer limit writes the payload, in aligned pieces that the driver accepts; the result is 0 exactly if no driver call failed, and otherwise the error of the one that did |
| DiskRequests.Disk.AlignedRead | block/io.c:1117-1203 | splitting by limit and length reads the bytes, zeroes past the end |
| DiskRequests.Disk.RmwRead | block/io.c:1259-1318 | the padding buffer holds the old bytes at both ends |
| DiskRequests.Disk.PaddedWrite | block/io.c:1904-1911 | read-modify-write changes exactly the payload, and succeeds exactly if no driver call fails |
| DiskRequests.Disk.Pwritev | block/io.c:1850-1920 | for every offset, length and alignment: on success exactly the requested bytes are the payload, on failure nothing outside the aligned range differs, a well-formed request succeeds exactly if no driver call fails and else returns that error, malformed requests are refused, and there is no result, and no change, exactly if an assertion on the number of elements fails |
| ConcurrentWrites.ApplyKeeps | block/io.c:1850-1920 | every byte read or written by a padded or unpadded write, and every move of the tracking, keeps the invariant: what a write holds of the bytes around its own is what the disk holds |
| ConcurrentWrites.WriteBackInvisible | block/io.c:1904-1911 | in every interleaving the padding that is written back makes no difference: no update of another write is lost |
| ConcurrentWrites.WriteGoesThrough | block/io.c:1850-1920 | a write that runs can go through to its end with all its bytes written, whatever else is in flight |
| ConcurrentWrites.FirstWriteRuns | block/io.c:1850-1920 | any write to a disk at rest runs at once, and can go through |
| ConcurrentWrites.SerialOrder | block/io.c:1850-1920 | in every interleaving, once nothing is in flight, the disk is what the writes leave one after the other, in the order in which they ended; of a failed one the part that it had written |
| ConcurrentWrites.ConcurrentAsAlone | block/io.c:1850-1920 | unaligned writes in flight together leave what they leave when each has the disk to itself |
| DiskRequests.WrittenMeans | block/io.c:1850-1920 | what a write means for each byte |
| DiskRequests.NextOffer | block/io.c:1550-1563 | what is offered to the driver is whole blocks, as many as there are or as the limit allows, or a part of one block up to its end, to that of the range or as much as the buffer takes |
| DiskRequests.Disk.ZeroChunk | block/io.c:1565-1602 | the driver, or, exactly if it refuses and a fallback is allowed, a buffer of zeroes that is large enough, zeroes the chunk |
| DiskRequests.Disk.DoPwriteZeroes | block/io.c:1505-1613 | what the driver is offered tiles the range, in shape until it first refuses; on success exactly the range is zero; it fails exactly if a driver call or the allocation of the buffer fails, or the driver refuses and no fallback is allowed |
| DiskRequests.Disk.ZeroPwritev | block/io.c:1778-1840 | head, middle and tail zero exactly the requested bytes; it fails for the same reasons only |
| BlockStatus.StatusTrue | block/io.c:1952-2120 | with truthful drivers, ALLOCATED holds exactly for bytes the node provides, ZERO only for bytes that read as zero, what is provided is DATA or ZERO, EOF is set at the end, and nothing but zeroes follows it |
| BlockStatus.FailedErrs | block/io.c:2041-2044 | a node fails only with an error of the driver that was asked |
| BlockStatus.UnallocatedZeroIff | block/io.c:2069-2083 | what an image does not hold is ZERO exactly if there is no backing file, or it is too short and zeroes are asked for |
| BlockStatus.DataZeroIff | block/io.c:2085-2105 | data is ZERO exactly if the driver says so, or zeroes are asked for and the data file knows or is too short |
| BlockStatus.ForwardedOk | block/raw-format.c:247-256 | a node that hands requests on answers as the node behind it does |
| BlockStatus.DataFileOk | block/io.c:2085-2105 | asking the data file sharpens the answer and keeps it true |
| BlockStatus.StatusAbove | block/io.c:2122-2204 | 0 bytes exactly for an empty request or past the end of the top layer; the walk ends at the topmost layer that provides the bytes, at one that is too short, with all bytes left to it ZERO and ALLOCATED, or at the last one; ZERO means the chain reads zero; it fails only with the error of a driver |
| Resampler.FlowClosed | audio/rate_template.h:39-84 | the loop equals a closed form: how many frames it takes and makes, each output frame, the phase it ends with |
| Resampler.FlowPlays | audio/rate_template.h:64-84 | each output frame is on the line between the two input frames around its position, up to one and a half, and between them, less at most one; at a whole position it is the frame there, less at most one |
| Resampler.BlendMonotone | audio/rate_template.h:70-72 | the fraction moves the result from the first sample towards the second |
| Resampler.StartStep | audio/mixeng.c:349-361 | the step is the ratio of the rates, rounded down, with the drift that `m` steps make; equal rates pass frames through |
| Resampler.RebasedSame | audio/rate_template.h:56-59 | rebasing changes neither the phase nor the fraction |
| Resampler.FramesOutIs | audio/mixeng.c:376-401 | the predicted number in 32 and 64 bit words is the number of output positions |
| Resampler.OutPredicted | audio/mixeng.c:376-401 | with room enough the loop makes exactly the predicted frames and takes all input |
| Resampler.InPredicted | audio/mixeng.c:403-427 | the predicted input is the least that gives the wanted output |
| Resampler.FramesInNone | audio/mixeng.c:416-426 | the prediction for no output, in words, is the same formula cut off at zero |
| Resampler.LastLeft | audio/mixeng.c:403-427 | of no more input than predicted at most the last frame is not taken |
| Resampler.RateFlowSplit | audio/rate_template.h:32-84 | cutting input and output anywhere gives the same frames and the same state |
| Resampler.StreamContinuous | audio/rate_template.h:32-84 | any series of calls on a stream is on the track of a single call |
| Resampler.SeriesPrefix | audio/rate_template.h:32-84 | what the series makes is a prefix of what a single call makes |
| Resampler.FitsWords | audio/mixeng.c:342-347 | the positions never leave their words |
| Resampler.BlendFits | audio/rate_template.h:70-72 | interpolating 32-bit samples does not overflow 64 bits and gives 32-bit samples |
| Resampler.RateConverter.constructor | audio/mixeng.c:349-361 | a new converter is valid for all rates |
| Resampler.RateConverter.Run | audio/rate_template.h:2-85 | the nested loops over two arrays compute the flow and store or add it in place |
| PlaybackVoice.RingMeans | audio/audio.c:618-647 | each frame is added at its place around the ring, channel by channel, and the rest stays |
| PlaybackVoice.MixCommutes | audio/audio.c:618-647 | voices can be mixed in any order |
| PlaybackVoice.SwVoiceOut.ResampleOut | audio/audio.c:618-647 | two calls around the end of the ring are one call into an endless ring |
| PlaybackVoice.SwVoiceOut.Write | audio/audio.c:649-716 | the write on values in place: state, leftover, what is accepted, and the ring with exactly the output added; all frames given to the resampler are accepted |
| PlaybackVoice.WriteConserves | audio/audio.c:649-716 | what was left and what is accepted is what the resampler took and what is left now |
| PlaybackVoice.WriteAcceptsGiven | audio/audio.c:697-704 | every frame given to the resampler is accepted, and all but the one that is kept are taken |
| PlaybackVoice.WriteFills | audio/audio.c:668-681 | a write goes on until all frames are accepted, the output is full or its own buffer is |
| PlaybackVoice.WritesAsOneCall | audio/audio.c:649-716 | any series of writes gives the output and the state of one call of the resampler on all frames accepted: each has entered it once and in order, but for a last one that is kept |
| AudioRing.BeginWriteKeeps | audio/aaudioaudio.c:153-177 | what a write takes fits the ring and is in whole frames |
| AudioRing.CopyInKeeps | audio/aaudioaudio.c:170-174 | no byte that is still to be read is overwritten |
| AudioRing.CopyOutKeeps | audio/aaudioaudio.c:50-66 | the callback copies the next accepted byte |
| AudioRing.WriteTakesMost | audio/aaudioaudio.c:166-169 | a write takes as many whole frames as it is given and as fit |
| AudioRing.ReadFindsAll | audio/aaudioaudio.c:55-58 | a callback finds all that has been published and not been played, up to what it asks for |
| AudioRing.PlaysInOrder | audio/aaudioaudio.c:50-72 | in every interleaving, for a size that divides 2^32 or is one frame and for any size before the positions wrap, the callback gives the accepted bytes in order, then silence only for what had not been published |
| AudioRing.PlaysWrong | audio/aaudioaudio.c:153-177 | for every other size, a run from a fresh ring that plays a wrong byte once the positions have wrapped |
| AudioRing.AlwaysInOrderIff | audio/aaudioaudio.c:50-72 | a ring plays in order in every run exactly if its size divides 2^32 or is one frame |

## Left out

- Opening and reopening of images, options, filenames and everything in `blockdev.c`.
- System calls, io_uring, zoned devices and alignment probing in `block/file-posix.c`; swapping of file descriptors while permissions change.
- Polling while a drain begins, the parent that a drain may skip (all callers pass none), and moves between AioContexts.
- Topology.Graph.AttachChildNoperm: does not model the refusal when a child cannot be moved to its parent's AioContext.
- CPUs that come and go (`cpu_list_add`, `cpu_list_remove`): the exclusive sections are between a fixed set of CPUs.
- GraphLock.NoReaderBesideWriter: is for fewer than 2^30 reading coroutines, so that no sum of counters reaches the sign bit.
- `BDRV_REQ_NO_WAIT` requests, several AioContexts for one node, and copy-on-read.
- BlockStatus.StatusAbove: does not model the block status cache, nor which file and offset the walk reports. The EOF of bytes that no layer
  provides may be that of the last layer, while the top layer goes on.
- Durability of emulated FUA, and early exits of a flush on read-only or removed media.
- DiskRequests.Disk.Pwritev: does not model failing reads of the padding, whose result the code ignores, nor zero detection and compression.
- ConcurrentWrites.SerialOrder: is for unpadded writes that do not overlap each other while in flight, as the code does not keep those apart;
  `WriteBackInvisible` needs no such condition.
- ConcurrentWrites.ApplyKeeps: no write grows its range once it has read padding; `GrowthLetsInIff` says what such growth would give up.
- Jobs.RunOutcome: pause counters, timers and events are not modelled; a driver's `cancel` honours `force`, and a job that has not started is
  always cancelled for good.
- The floating-point variant of the resampler.
- Conversion between sample formats.
- PlaybackVoice.WritesAsOneCall: is for steps and buffer sizes with which the prediction of input fits its words, as `Predictable` says;
  for others `WriteConserves` still holds of each write.
- PlaybackVoice.SwVoiceOut.Write: takes frames already converted and scaled by the volume.
- FlushGenerations.FlushDurable: takes the flush of all children as one call that may fail.
- Character devices, migration, the monitor, accelerators, disassemblers and other directories.
