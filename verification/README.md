# A Dafny model of the peer-to-peer sync core

The repository keeps folders in step between peers. A Go coordinator on each peer stores one
metadata row per file (hash, version, time, deletion flag), sends it to other peers, and settles
differences by last-write-wins; a queue schedules the downloads that follow; connections carry
length-prefixed messages; a C++ daemon moves the bytes and watches the tree. This project models
those parts and proves what they guarantee, for every input and over whole runs.

`dafny verify dfyconfig.toml` checks everything.

## How it is organised

| file | part of the system |
|---|---|
| `Base`, `PeerIds` | identifiers; Go's byte-wise order on peer ids |
| `Conflict` | the conflict detector and folding many versions |
| `Clocks` | Lamport and vector clocks, their lattice |
| `TaskQueue`, `QueueRuns` | the sync queue, and all its runs |
| `Dispatcher` | the queue processor with its two semaphores |
| `Replication` | every handler of the coordinator as a function on one peer's state, and the system of peers and messages |
| `Paths`, `Effects`, `Retries` | what each handler leaves behind and sends, in the fields of the change, message, file or response it was called with; how often a download is tried |
| `Invariants`, `Causality`, `Drain` | what all runs of the system keep |
| `Downloads`, `Fetches` | how a download ends, and what a peer is fetching |
| `Convergence`, `Exchange` | two peers, without and with downloads that end meanwhile |
| `Gossip`, `Ties`, `Redating` | any connected network; rows that tie; rows dated anew by downloads |
| `Reachable` | runs from new peers into the states where promises fail |
| `Scan` | the start-up scan |
| `Coordinator` | the coordinator and the metadata table as objects, proved against `Replication` |
| `Registry`, `Framing` | connection registry; framed streams |
| `Transfer`, `Watcher` | transfer loops; polling watcher |

The coordinator is modelled twice on purpose: `Replication` says what one handler call does to a
peer's state as a value, over which runs of many peers are stated; `Coordinator` is the object with
its mutable table, clocks, queue and pending map, and each of its methods is proved to do exactly
that; `Effects` and `Retries` say what that is, field by field and without the functions themselves. A handler call is one atomic step, although the code reads a row and writes it back in two
statements. The network is a multiset: messages are delivered in any order, late, or lost.
Times are as the code has them: the daemon's change events and inline content carry seconds, the
start-up scan milliseconds, and task times read either as seconds.

## Where the code does less than its description promises

Each of these is proved, with the condition under which the promise holds.

- Folding versions is not independent of their order, because equal hashes are skipped without
  looking at versions (`OrderIndependentIff`, `StaleCopyMakesOrderMatter`).
- A download that completes inline keeps the row's version and gives it the current time in
  seconds. Offers that were refused are then accepted again (`CompletionReopensIff`); a peer between
  two neighbours changes its row forever although nothing ties (`RedatedRowFlipsForever`), and even
  if times only ever rise, three peers pass two contents round forever (`RaisedRowsFlipForever`).
  Exchanges settle when downloads date nothing anew (`WithoutTiesGossipSettles`).
- A download still under way can undo an exchange between two peers, by bringing in older content
  or by making the winner lose a tie (`TwoPeersConvergeIff`, `SpoiltExchangeIsReachable`).
- Rows that tie in version and time are settled by each receiver's own id, not the author's. Where
  two peers without a greater neighbour hold different content, no exchange settles while downloads
  date no row above the tie and end at no such peer (`AgreementReachableIff`), and a peer between
  them changes its row forever (`TiesFlipForever`). Changes of one file in the same second lead there
  (`UnsettledTieIsReachable`). A download that completes later does settle it
  (`LateDownloadSettlesTie`).
- A deletion noticed by the start-up scan keeps the hash, so peers that were in sync ignore it
  (`OfflineDeletionSpreadsIff`).
- A file whose size and time cannot be read during the start-up scan is announced as deleted
  (`PresentFileSurvivesIff`).
- A file whose name contains `..` is indexed and announced, and refused by every peer
  (`RefusedPathNeverReplicates`, `TwoPeersConvergeIff`).
- A restart forgets vector clock entries that no row carries any more (`RestartIsCausalIff`,
  `ForgetfulRestartIsReachable`).
- Requeueing into a repository removed meanwhile strands the task for good (`WellFormedIff`,
  `StrandedForever`).
- A failed send closes whatever connection is stored by then (`FailedSendClosesItsConnectionIff`,
  `ReconnectedPeerIsCutOff`), and a connection registered after `Stop` survives every later one
  (`StopClosesAllIff`, `LateConnectionSurvivesEveryStop`).
- The writer of a frame checks neither of the limits that its reader enforces (`FrameParsesIff`).
- After a failed write the connection stays in use, and the frames behind the one cut off are
  swallowed by it (`CutFrameSwallowsIff`).
- An exception during a watcher pass reports every file not yet visited as deleted
  (`CutScanAgreesIff`).
- A failed flush when the downloaded file is closed goes unnoticed, unless a hash was given that no
  shorter front of the file has (`LostFlushSucceeds`, `SuccessIsExactIff`).

## Model

| member | source | states |
|---|---|---|
| `Conflict.ResolveIsLastWriteWins` | src/backend/go/pkg/versioning/conflict.go:62-133 | the remote version is accepted exactly when content differs and it is later by version, time, peer; conflict exactly on equal versions; of two different peers exactly one gives way |
| `Conflict.OrderIndependentIff` | src/backend/go/pkg/versioning/conflict.go:50-96 | the surviving hash is the same for every order of arrival if and only if one version outranks all other content and no other content outranks an older copy of it |
| `Conflict.EveryOrderLeavesTheMaximum` | src/backend/go/pkg/versioning/conflict.go:50-133 | when hash and rank determine each other, every permutation leaves the one version that outranks all the rest |
| `Conflict.StaleCopyMakesOrderMatter` | src/backend/go/pkg/versioning/conflict.go:64-71 | any stale copy of the newest content, with other content between, makes two orders disagree |
| `PeerIds.IsStrictTotalOrder` | src/backend/go/pkg/versioning/conflict.go:118-131 | the byte-by-byte order of the peer-id tie-break is a strict total order |
| `PeerIds.TextLessIff` | src/backend/go/pkg/versioning/conflict.go:118-131 | it is the order of a dictionary: at the first difference one id ends or has the smaller character |
| `Clocks.LamportClock.Witness` | src/backend/go/pkg/versioning/lamport.go:39-49 | past both the old value and the one witnessed |
| `Clocks.VectorClock.Merge` | src/backend/go/pkg/versioning/vector_clock.go:71-81 | the loop computes the pointwise maximum, adding no zero entries |
| `Clocks.VectorClock.Compare` | src/backend/go/pkg/versioning/vector_clock.go:102-152 | the early-exit loop decides the pointwise order, missing entries read as 0; a nil clock compares After |
| `Clocks.MergedIsLeastUpperBound` | src/backend/go/pkg/versioning/vector_clock.go:71-81 | merging is the least upper bound in that order |
| `Clocks.MergeOrderIrrelevant` | src/backend/go/pkg/versioning/vector_clock.go:71-81 | sequences with the same clocks, in any order and repetition, merge to the same clock up to zeros |
| `Clocks.OrderIsCausal` | src/backend/go/pkg/versioning/vector_clock.go:102-152 | Before means nowhere greater and somewhere smaller, Concurrent both, Equal equal entries; comparison is mirrored by swapping and Before is transitive |
| `Clocks.TickIsLater` | src/backend/go/pkg/versioning/vector_clock.go:62-69 | a tick is strictly Before-to-After and touches no other entry |
| `TaskQueue.SyncQueue.Push` | src/backend/go/pkg/sync/queue.go:59-88 | the method makes one `Pushed` step of the queue |
| `QueueRuns.PushEffect` | src/backend/go/pkg/sync/queue.go:59-88 | a push is dropped exactly when its repository has a task for the same path, kind and hash; any other leaves the repository's tasks and the new one smallest and oldest first, and a new repository at the end of the round |
| `TaskQueue.SyncQueue.Pop` | src/backend/go/pkg/sync/queue.go:90-118 | takes the first task of the first non-empty repository of the round and moves the round past it, or nothing when no listed repository has a task |
| `TaskQueue.SyncQueue.Requeue` | src/backend/go/pkg/sync/queue.go:120-128 | puts the task in front, listed or not |
| `QueueRuns.RequeuedComesNext` | src/backend/go/pkg/sync/queue.go:120-128 | a task that was put back is the next one its repository gives out |
| `TaskQueue.SyncQueue.HasPending` | src/backend/go/pkg/sync/queue.go:130-144 | whether a download of that path and hash is queued |
| `TaskQueue.SyncQueue.RemoveRepository` | src/backend/go/pkg/sync/queue.go:146-165 | drops the repository's tasks and its first place in the round, resetting an index out of range |
| `QueueRuns.RemovalEffect` | src/backend/go/pkg/sync/queue.go:146-165 | the other repositories keep their tasks, their order in the round and, where the index stays in range, their turn |
| `TaskQueue.SyncQueue.Size` | src/backend/go/pkg/sync/queue.go:167-177 | the sum of all queue lengths |
| `QueueRuns.WellFormedIff` | src/backend/go/pkg/sync/queue.go:60-165 | from a well-formed queue, a call leads to a well-formed one unless it requeues into an unknown repository, and then never |
| `QueueRuns.DisciplinedRunStaysWellFormed` | src/backend/go/pkg/sync/queue.go:60-165 | over whole runs: repository list duplicate-free and equal to the map's keys, index in range, tasks under their own repository |
| `QueueRuns.PopIsNoneWhenEmpty` | src/backend/go/pkg/sync/queue.go:90-118 | a pop returns nil exactly when the size is 0 |
| `QueueRuns.StrandedForever` | src/backend/go/pkg/sync/queue.go:120-128 | once stranded, a repository is served by no pop of any run until it is removed |
| `QueueRuns.RemovalBeforeRequeueStrands` | src/backend/go/pkg/sync/coordinator.go:757-801 | a removal between the pop and the requeue of a request that could not be sent reaches that state: pop finds nothing, size is 1 |
| `QueueRuns.NextKeepsFiled` | src/backend/go/pkg/sync/queue.go:60-165 | whatever is called, stranding included, every task is filed under its own repository |
| `QueueRuns.PopApproaches` | src/backend/go/pkg/sync/queue.go:101-115 | a pop that serves another repository strictly lowers the circular distance to a waiting one |
| `QueueRuns.ServedWithinARound` | src/backend/go/pkg/sync/queue.go:42-44 | while nothing is removed, a waiting repository is served within as many pops as repositories listed at the end |
| `QueueRuns.TasksAreConserved` | src/backend/go/pkg/sync/queue.go:60-128 | per repository, tasks taken plus remaining equal tasks at the start plus accepted and requeued |
| `QueueRuns.EveryQueueIsOrdered` | src/backend/go/pkg/sync/queue.go:70-87 | after any pushes and pops of a new queue every repository has its tasks by size, then by time, and no two for the same path, kind and hash |
| `QueueRuns.TakenSmallestFirst` | src/backend/go/pkg/sync/queue.go:33-40 | while nothing enters a repository, its tasks come out by size, then by time, and none left behind is smaller, or as small and older |
| `Dispatcher.EveryRunIsSafe` | src/backend/go/pkg/sync/coordinator.go:706-752 | in every interleaving tokens match goroutines plus the dispatcher, running tasks stay within both capacities, every popped task is in dispatch, running, executed, requeued or dropped, and dropped only after stop |
| `Dispatcher.BlockedIsFreedByFinishing` | src/backend/go/pkg/sync/coordinator.go:730-749 | a blocked dispatcher waits for tokens of running tasks, and at most two finishing steps free it |
| `Dispatcher.ProceedsIff` | src/backend/go/pkg/sync/coordinator.go:706-752 | the dispatcher waits for a token exactly when all of them are with tasks at work, and pops nothing after stop |
| `Replication.UpdateRows` | src/backend/go/pkg/sync/coordinator.go:439-621 | a peer's update changes the table only by storing the sender's row when accepted, and merges the clock unless the path is refused |
| `Replication.UpdateReplies` | src/backend/go/pkg/sync/coordinator.go:591-597 | the receiver answers exactly when it holds other content of a strictly newer version, with that row |
| `Paths.RefusedIff` | src/backend/go/pkg/sync/coordinator.go:443-452 | refused are exactly the paths that end in `.tmp`, begin with a slash or contain two dots |
| `Paths.EscapesIff` | src/backend/go/pkg/sync/coordinator.go:987-992 | the check before a stream: begins with a slash or two dots, or contains two dots and a slash |
| `Effects.AcceptsIff` | src/backend/go/pkg/sync/coordinator.go:477-501 | an offer is accepted exactly when its path is acceptable, its content differs, and it is later by version, time, peer than the row, an absent row counting as empty, version 0, time 0 |
| `Effects.UpdateStores` | src/backend/go/pkg/sync/coordinator.go:509-569 | a delivery stores the offer field by field exactly when accepted, touches no other row, and moves both clocks just far enough |
| `Effects.UpdateQueues` | src/backend/go/pkg/sync/coordinator.go:564-619 | a delivery queues exactly one download, of the offer's content, from its sender, without retries, when that content is wanted and not on its way, and otherwise none |
| `Effects.WantedIsRequestedFromItsSource` | src/backend/go/pkg/sync/coordinator.go:754-805 | taken and sent, it is pending from the peer that offered it, and the queue is as before |
| `Effects.UnsentIsBackInItsQueue` | src/backend/go/pkg/sync/coordinator.go:757-801 | a request that does not go out puts its task back and forgets at most itself |
| `Effects.LocalChangeEffect` | src/backend/go/pkg/sync/coordinator.go:319-436 | a change is ignored, or stored as it is under the right version and announced, once to each connected peer, unless it is of an empty file |
| `Effects.ChangeReplicates` | src/backend/go/pkg/sync/coordinator.go:319-621 | once delivered, a change or deletion that outranks other content is held there in full; anything else is left alone |
| `Effects.ScanFileEffect` | src/backend/go/pkg/sync/coordinator.go:1325-1436 | a file met by the scan is passed over, re-dated, or stored with its own hash under the next version and announced unless empty |
| `Effects.ScanMissingEffect` | src/backend/go/pkg/sync/coordinator.go:1451-1484 | a live row older than the scan becomes a tombstone of the next version, else unchanged, and is announced to all |
| `Effects.SyncAllEffect` | src/backend/go/pkg/sync/coordinator.go:1246-1272 | a new connection is offered every live row of a tracked repository, and nothing else |
| `Effects.DecisionEffect` | src/backend/go/pkg/sync/coordinator.go:1198-1244 | "local" sends the row, "remote" drops it and sends an empty probe to that peer |
| `Effects.RemoveRepoEffect` | src/backend/go/pkg/sync/coordinator.go:300-316 | exactly the repository's rows and queued tasks go |
| `Effects.RestartEffect` | src/backend/go/pkg/sync/coordinator.go:96-126 | the Lamport clock is the greatest stored version, the vector clock the least above all stored ones, and nothing is queued or pending |
| `Invariants.EveryRunIsSafe` | src/backend/go/pkg/sync/coordinator.go:96-126 | in every run from new peers, restarts included, every stored version is between 1 and the Lamport counter, a counter of 0 means no downloads, every message is a real version or a probe |
| `Invariants.ReachableStatesAreSafe` | src/backend/go/pkg/sync/coordinator.go:96-126 | the same from every state in which it holds |
| `Invariants.HandlerKeepsInv` | src/backend/go/pkg/sync/coordinator.go:319-1489 | the same for each handler |
| `Invariants.ProbeAndReplySafe` | src/backend/go/pkg/sync/coordinator.go:591-597 | a probe is never adopted and a reply always has a row to quote |
| `Invariants.HandlerKeepsVersions` | src/backend/go/pkg/sync/coordinator.go:319-1489 | no handler lowers a version, peer updates never lower version and time, and a row goes away exactly by a "remote" decision, the removal of its repository or a download given up |
| `Invariants.VersionNeverFalls` | src/backend/go/pkg/sync/coordinator.go:358-392 | over any run without those, failed and retried downloads included, a row stays and its version never falls |
| `Causality.EveryRunIsCausal` | src/backend/go/pkg/sync/coordinator.go:466-475 | in every restart-free run from new peers no peer, row or message knows more of a peer than the peer itself |
| `Causality.RunsAreCausal` | src/backend/go/pkg/sync/coordinator.go:466-475 | the same from every state in which it holds |
| `Causality.RestartKeepsOwnCountIff` | src/backend/go/pkg/sync/vector_persistence.go:35-58 | a restart keeps a peer's own entry exactly when it is 0 or some stored row carries it |
| `Causality.RestartIsCausalIff` | src/backend/go/pkg/sync/vector_persistence.go:35-58 | a restart keeps the system causal exactly when no other peer, no row and no message has an entry for the restarted peer above the one it gets back from its rows |
| `Causality.RestartBesideAnUpToDatePeerIff` | src/backend/go/pkg/sync/vector_persistence.go:35-58 | beside a peer that is up to date: exactly when nothing was counted or some row carries the latest count |
| `Reachable.ForgetfulRestartIsReachable` | src/backend/go/pkg/sync/vector_persistence.go:35-58 | new peers reach a state in which a restart breaks causality: index a file, announce it, restart |
| `Drain.ReplyIsNewer` | src/backend/go/pkg/sync/coordinator.go:501-597 | at most one reply, to the sender, about the same file, of a strictly newer version |
| `Drain.QuietStepDrains` | src/backend/go/pkg/sync/coordinator.go:501-597 | the greatest version never rises, and each delivery lowers the sum over messages of (bound − version + 1) |
| `Drain.TrafficDrains` | src/backend/go/pkg/sync/coordinator.go:501-597 | any run without edits, connects or user decisions delivers at most that many messages |
| `Downloads.RespondSeenFrom` | src/backend/go/pkg/sync/coordinator.go:895-1023 | a response completes the download and re-dates the row, gives it up and drops the row, or leaves the row alone |
| `Retries.RespondEffect` | src/backend/go/pkg/sync/coordinator.go:895-1023 | what a response does to request, row and queue in every case, a failed stream being asked of the same peer again with one retry more |
| `Retries.FourthFailurePurges` | src/backend/go/pkg/sync/coordinator.go:995-1022 | three failures in a row leave the row and queue the download again, the fourth drops the row |
| `Retries.EveryRunStaysWithinRetries` | src/backend/go/pkg/sync/queue.go:17-18 | in every run from new peers nothing queued, taken or pending was retried more than three times |
| `Downloads.CompletionReopensIff` | src/backend/go/pkg/sync/coordinator.go:967-984 | a completed download, of the row's or of older content, makes a refused offer acceptable exactly when the offer is of other content than came in and has either the row's version and (time, peer) above the completion's, or a newer version and the content just replaced |
| `Exchange.TwoPeersConvergeIff` | src/backend/go/pkg/sync/coordinator.go:439-621 | after two peers exchanged rows, every run of deliveries, dispatches, requests, retries and completions ends in agreement, if and only if no download under way could bring in other content or make the winner lose a tie, and the path is acceptable or they agreed before |
| `Reachable.SpoiltExchangeIsReachable` | src/backend/go/pkg/sync/coordinator.go:439-621 | new peers reach an exchange that some run ends in disagreement: change a file, let the other request it, change it again, exchange |
| `Convergence.ExchangeTakesTheWinner` | src/backend/go/pkg/sync/coordinator.go:439-621 | while no download ends, they agree exactly when they agreed before or the path is acceptable, and then both hold the winner's row in full |
| `Convergence.RefusedPathNeverReplicates` | src/backend/go/pkg/sync/coordinator.go:443-452 | a refused path stays where it is in every run of deliveries |
| `Convergence.TakeTheirsWorksIff` | src/backend/go/pkg/sync/coordinator.go:1219-1228 | a probe is answered exactly when the other peer stores a non-empty hash under an acceptable path; the asker then takes over that row and, if live, has its content queued or requested |
| `Convergence.OfflineDeletionSpreadsIff` | src/backend/go/pkg/sync/coordinator.go:1451-1484 | a scan tombstone deletes another peer's row exactly when that peer holds other content that it outranks |
| `Gossip.StableMeansOneHash` | src/backend/go/pkg/versioning/conflict.go:50-55 | in a connected network a state where no offer along a link would be accepted has one hash everywhere, and one deletion flag where tombstones are the empty hashes |
| `Gossip.WithoutTiesGossipSettles` | src/backend/go/pkg/sync/coordinator.go:501-621 | if no two contents share version and time and downloads leave only such versions, not below those they replace, any exchange, downloads included, changes rows at most (peers × versions) times |
| `Gossip.OfferingIsSteady` | src/backend/go/pkg/sync/coordinator.go:501-621 | runs without completions always meet that condition |
| `Gossip.SettledOnTheGreatest` | src/backend/go/pkg/versioning/conflict.go:50-55 | when such an exchange has settled in a connected network, everybody holds the content of the greatest version and time |
| `Redating.RedatedRowFlipsForever` | src/backend/go/pkg/sync/coordinator.go:967-984 | between two neighbours whose rows of the same version are dated after the download, a peer accepts, fetches and re-dates any number of times |
| `Redating.RaisedRowsFlipForever` | src/backend/go/pkg/sync/coordinator.go:967-984 | three peers pass two contents round any number of times although no row's version or time ever falls |
| `Reachable.SeesawIsReachable` | src/backend/go/pkg/sync/coordinator.go:1401-1420 | new peers that index three files reach the first of these states |
| `Reachable.CarouselIsReachable` | src/backend/go/pkg/sync/coordinator.go:358-392 | and three changes in successive seconds reach the second |
| `Ties.LocalMaximumNeverMoves` | src/backend/go/pkg/versioning/conflict.go:118-131 | a peer without a greater neighbour keeps a top row in every run of exchanges whose downloads end at no such peer and date no row above it |
| `Ties.AgreementReachableIff` | src/backend/go/pkg/sync/coordinator.go:488-501 | from a full tie such a run reaches one hash exactly when the peers without a greater neighbour agree |
| `Ties.TiesFlipForever` | src/backend/go/pkg/sync/coordinator.go:488-501 | between two greater neighbours that disagree a peer's row changes any number of times, without any download |
| `Reachable.UnsettledTieIsReachable` | src/backend/go/pkg/sync/coordinator.go:358-392 | new peers that change one file in the same second reach a tie that no such run settles |
| `Redating.LateDownloadSettlesTie` | src/backend/go/pkg/sync/coordinator.go:967-984 | a peer linked with all others settles any tie with a greater peer: its download completes after the tie's time and its row wins everywhere |
| `Reachable.ADownloadSettlesTheTie` | src/backend/go/pkg/sync/coordinator.go:967-984 | so the tie reached above is settled by one download |
| `Scan.ScanAgreesWithDisk` | src/backend/go/pkg/sync/coordinator.go:1274-1489 | after the scan every file that could be read has a live row with its size, time and mode, and with its hash unless the row had the rest before; and any other live row was written after the scan began or is of a file that could not be hashed |
| `Scan.ScanAnnounces` | src/backend/go/pkg/sync/coordinator.go:1274-1489 | the scan announces every new or changed file that is not empty, with its hash and the next version, and every live row without a file, each to all connected peers; and nothing else |
| `Scan.PresentFileSurvivesIff` | src/backend/go/pkg/sync/coordinator.go:1313-1323 | a file on disk with a live row keeps one exactly when its size and time could be read |
| `Coordinator.MetadataStore.Save` | src/backend/go/pkg/storage/sqlite/metadata.go:29-59 | upsert with a refreshed time, refused for an untracked repository |
| `Coordinator.MetadataStore.ListByRepository` | src/backend/go/pkg/storage/sqlite/metadata.go:109-143 | each matching key once, in order of path, tombstones on request |
| `Coordinator.MetadataStore.MaxVersion` | src/backend/go/pkg/storage/sqlite/metadata.go:164-176 | the greatest stored version, 0 for none |
| `Coordinator.Coordinator.constructor` | src/backend/go/pkg/sync/coordinator.go:96-126 | a new process: Lamport clock at the greatest version, vector clock at the join of the stored ones, nothing queued |
| `Coordinator.Coordinator.HandleLocalFileChanged` | src/backend/go/pkg/sync/coordinator.go:318-436 | the new state and broadcast of a local change |
| `Coordinator.Coordinator.HandlePeerMetadataUpdate` | src/backend/go/pkg/sync/coordinator.go:438-621 | the new state and reply for a peer's update |
| `Coordinator.Coordinator.AdoptRemote` | src/backend/go/pkg/sync/coordinator.go:509-585 | witness, store, and queue a download unless one is on its way |
| `Coordinator.Coordinator.ExecuteSyncTask` | src/backend/go/pkg/sync/coordinator.go:754-805 | some time after a task was taken: the request is pending, or the task is back in its queue; the queue stays well formed exactly unless the repository was removed meanwhile |
| `Coordinator.Coordinator.TakeNext` | src/backend/go/pkg/sync/coordinator.go:714-728 | takes the next task out of the queue, or nothing when no listed repository has one |
| `Coordinator.Coordinator.HandleFileResponse` | src/backend/go/pkg/sync/coordinator.go:895-1024 | the pending entry is used up; an inline file is stored under the row's version, a failed stream is retried three times and then purges the row |
| `Coordinator.Coordinator.HandleConflictResolution` | src/backend/go/pkg/sync/coordinator.go:1198-1244 | "local" sends the row, "remote" drops it and probes, anything else is refused |
| `Coordinator.Coordinator.SyncAllRepositoriesWithPeer` | src/backend/go/pkg/sync/coordinator.go:1246-1272 | one message for every live row of every repository and no other |
| `Coordinator.Coordinator.ScanAndIndexLocalFiles` | src/backend/go/pkg/sync/coordinator.go:1274-1489 | both passes, or the first alone when the walk fails; live rows and readable files on disk agree |
| `Coordinator.Coordinator.BuryUnseen` | src/backend/go/pkg/sync/coordinator.go:1445-1484 | the second pass: listed rows that were not seen become tombstones |
| `Coordinator.Coordinator.ScanFileFound` | src/backend/go/pkg/sync/coordinator.go:1325-1436 | one file of the walk |
| `Coordinator.Coordinator.ScanFileGone` | src/backend/go/pkg/sync/coordinator.go:1451-1484 | one row without a file |
| `Coordinator.Coordinator.RemoveRepository` | src/backend/go/pkg/sync/coordinator.go:300-316 | rows and tasks of the repository are gone |
| `Registry.EveryManagerIsConsistent` | src/backend/go/pkg/network/connection_manager.go:94-490 | in every interleaving from a new manager the open registered connections are exactly those stored, each with a last-seen time and the mutex created with it |
| `Registry.EveryRunIsConsistent` | src/backend/go/pkg/network/connection_manager.go:216-490 | the same from every consistent state, and a connection never changes its mutex |
| `Registry.WritersOfAConnectionShareItsMutex` | src/backend/go/pkg/network/connection_manager.go:436-450 | two writers, at any two moments of a run, hold the same mutex exactly when they write to the same connection |
| `Registry.StoredUntilItsOwnEnd` | src/backend/go/pkg/network/connection_manager.go:404-426 | a stored connection stays, whatever stale readers do, until it is closed, replaced, its own reader exits or the manager stops |
| `Registry.FailedSendClosesItsConnectionIff` | src/backend/go/pkg/network/connection_manager.go:436-469 | whatever happens between fetching a connection and closing after a failed write, the close hits no other connection exactly when the peer has no other one stored by then; so it is when the peer was not registered again |
| `Registry.ReconnectedPeerIsCutOff` | src/backend/go/pkg/network/connection_manager.go:461-468 | when it was, the new connection is closed |
| `Registry.StopClosesAllIff` | src/backend/go/pkg/network/connection_manager.go:471-490 | no registered connection stays open exactly when the manager ran or stored none |
| `Registry.LateConnectionSurvivesEveryStop` | src/backend/go/pkg/network/connection_manager.go:471-490 | a connection registered before the server is started or after it was stopped survives every later stop, until it is closed, replaced, its own reader exits or the server is started |
| `Registry.ConnectionManager.RegisterConnection` | src/backend/go/pkg/network/connection_manager.go:216-224 | replaces and closes the old connection, with a new mutex and time |
| `Registry.ConnectionManager.CloseConnection` | src/backend/go/pkg/network/connection_manager.go:384-402 | closes and forgets the stored connection |
| `Registry.ConnectionManager.CloseConnectionIfMatch` | src/backend/go/pkg/network/connection_manager.go:404-426 | the same, only for the reader's own connection |
| `Registry.ConnectionManager.ConnectionForSend` | src/backend/go/pkg/network/connection_manager.go:436-450 | an open stored connection together with its mutex |
| `Registry.ConnectionManager.StopAll` | src/backend/go/pkg/network/connection_manager.go:471-490 | closes every stored connection, once |
| `Framing.PrefixRoundTrip` | src/backend/go/pkg/ipc/ipc_server.go:321-322 | the four bytes carry the length modulo 2^32 |
| `Framing.PrefixIsBigEndian` | src/backend/go/pkg/ipc/ipc_server.go:321-322 | the highest byte of the length goes first |
| `Framing.FrameParsesIff` | src/backend/go/pkg/ipc/ipc_server.go:283-332 | a frame, of whatever length, reads back as its message exactly for bodies of 1 to 1048576 bytes and a non-empty type |
| `Framing.FramesParse` | src/backend/go/pkg/ipc/ipc_server.go:283-332 | a concatenation of frames parses to exactly the written messages |
| `Framing.StreamRoundTrip` | src/backend/go/pkg/network/connection_manager.go:436-450 | whatever the turns, chunks and failures of the writers under the mutex, the stream parses to the messages completed before the first frame cut off, in order, followed by what the bytes from there parse to; to all completed messages if none was cut off |
| `Framing.CutFrameSwallowsIff` | src/backend/go/pkg/ipc/ipc_server.go:268-332 | behind a frame cut off in its body nothing is read exactly until as many bytes have followed as were missing |
| `Framing.ReadFull` | src/backend/go/pkg/ipc/ipc_server.go:253-266 | fills the buffer with the next bytes for every split of the reads |
| `Framing.WriteFull` | src/backend/go/pkg/ipc/ipc_server.go:268-281 | appends all bytes, or a prefix on failure |
| `Framing.ReadMessage` | src/backend/go/pkg/ipc/ipc_server.go:283-312 | reading is parsing, however reads are split |
| `Framing.WriteMessage` | src/backend/go/pkg/ipc/ipc_server.go:314-332 | appends one frame, or a prefix of it on failure |
| `Framing.ReadLoop` | src/backend/go/pkg/network/connection_manager.go:338-375 | hands on the stream's messages in order, all of them unless the transport fails |
| `Transfer.ReceiveInto` | src/backend/cpp/src/file_transfer.cpp:125-148 | the temporary file holds the front of the stream |
| `Transfer.TempIsIgnored` | src/backend/cpp/src/file_transfer.cpp:114 | the temporary file of a download is neither indexed nor accepted from a peer |
| `Transfer.Download` | src/backend/cpp/src/file_transfer.cpp:105-187 | success exactly when the temporary file was made, all bytes arrived, the hash read back, if any, is the one given, and the rename worked; then the destination is what closing kept of the stream, otherwise it is untouched |
| `Transfer.LostFlushSucceeds` | src/backend/cpp/src/file_transfer.cpp:150-172 | a download of which closing kept nothing can succeed |
| `Transfer.SuccessIsExactIff` | src/backend/cpp/src/file_transfer.cpp:150-172 | every success that was compared with the hash given is of the whole file exactly when the size is 0 or the hash is that of no shorter front of the file |
| `Transfer.Upload` | src/backend/cpp/src/file_transfer.cpp:188-229 | a prefix of the file goes out, all of it up to the size if nothing fails |
| `Transfer.SendAll` | src/backend/cpp/src/file_transfer.cpp:211-223 | partial writes send a prefix, everything if nothing fails |
| `Transfer.LimitedCopy` | src/backend/go/pkg/transfer/file_transfer.go:239-253 | a prefix of at most the limit is passed on; completed only with exactly that many bytes |
| `Transfer.TransferFile` | src/backend/go/pkg/transfer/file_transfer.go:209-313 | upload, relays and download in a row: a failure leaves the destination untouched, success makes it what closing kept of the first bytes of the source, with the hash given if that was compared; success is certain when nothing fails and the hash is right |
| `Watcher.PollingWatcher.VisitEntries` | src/backend/cpp/src/filesystem_watcher.cpp:49-74 | visited files are known as seen, with one event for each that changed |
| `Watcher.PollingWatcher.ForgetUnseen` | src/backend/cpp/src/filesystem_watcher.cpp:79-89 | unseen files are reported and forgotten |
| `Watcher.PollingWatcher.Scan` | src/backend/cpp/src/filesystem_watcher.cpp:47-89 | after a pass the known files are those it visited, each path got exactly the event it deserves, and all events so far rebuild the known paths |
| `Watcher.PollingWatcher.WatchLoop` | src/backend/cpp/src/filesystem_watcher.cpp:34-93 | the same over any number of passes |
| `Watcher.ReportedIff` | src/backend/cpp/src/filesystem_watcher.cpp:60-89 | a path is reported as created, deleted or modified exactly when it is new, gone, or of another time or size |
| `Watcher.SnapshotIff` | src/backend/cpp/src/filesystem_watcher.cpp:49-58 | a pass knows exactly the regular files it visited whose name is not empty and does not begin with a dot, with their time and size |
| `Watcher.CutScanAgreesIff` | src/backend/cpp/src/filesystem_watcher.cpp:75-77 | a pass cut short by an exception agrees with the tree exactly when it missed only files that are not watched |

## Left out

- Atomicity: the code reads a row and saves it in two statements; interleavings inside one handler are not modelled, nor are changes by other handlers between two files of the start-up scan.
- Hashes, JSON, base64 and SQL are a hash type with equality, an invertible encoding given as a parameter, and a map.
- Machine integers: versions and clocks are unbounded; JSON's conversion of numbers to floating point is not modelled.
- Clocks, file contents on disk, connectivity, send failures and directory walks are parameters of the calls.
- Scan broadcasts read the vector clock when they are sent, a little after the row is stored; the model sends them in the same step.
- The retry of a failed download is queued at once, without the back-off timer.
- AgreementReachableIff: downloads that date a row above the tie are covered by `LateDownloadSettlesTie` for a peer linked with all others, not for every network.
- ExchangeTakesTheWinner: about runs in which no download ends; `Exchange.TwoPeersConvergeIff` covers those that do, for hashes without a colon.
- TwoPeersConvergeIff: runs that give up a download of the file, and so drop its row, are left out.
- Upload: a socket that accepts zero bytes without an error would loop; the model's writes make progress.
- A response that reports an error leaves its pending entry, and nothing is claimed about eventual delivery of content.
- Heartbeats, reconnection back-off, dialing and handshakes, TLS, discovery, the health endpoint: plumbing around the registry.
- The native watchers, the chunked transfer functions that nothing calls, daemon spawning, IPC replay of cached messages, most payload validation and the JavaFX frontend.
- History logging and conflict notifications to the user interface, which change no replicated state.
