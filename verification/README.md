# A verified model of the peer-to-peer file downloader

This project models, in Dafny, the parts of the repository in which state, concurrency or text handling make
correctness hard to see, and proves what they are for:

- the **parallel download engine**: worker tasks that share a chunk scheduler, a status vector, a saved state file and
  the download directory, as a system in which any worker may take the next step;
- the **thread pool** under it, with its condition variables;
- the **tracker's store**: peer records, the index from files to peers and the load counters, all with a time to live;
- the **chunk pipeline**: split, header line, send loop, receive loop, digest check, merge, the line protocol and its
  lenient parser, the state file, the peer list and its hand-written JSON scan.

Methods follow the loops and classes of the source and are proved against specification functions; lemmas say what
those functions achieve. `dafny verify dfyconfig.toml` checks everything.

## How the pieces fit

| files | what they hold |
|---|---|
| `Text`, `InputStream`, `Hex` | decimal numbers, `stoll`, the stream extractions, digest text |
| `Protocol` | message builders, parser, round trips |
| `ChunkFiles`, `Transfer`, `Delivery` | split and merge; sockets, header and payload loops, the server's side; one whole request |
| `Service` | what servers make of whole and cut requests, what the client then takes, and peers that serve while they download |
| `StateFile` | saving, loading and interrupted saving of the status vector |
| `Restart` | a download that is stopped at any step and started again from what is on disk |
| `Scheduler`, `Engine`, `EngineFetch`, `EngineSafety`, `EngineProgress`, `EngineOutcome`, `EndToEnd` | the parallel download: steps, how they follow the receiving code, invariant, termination, outcome, delivery of the original bytes |
| `Attempts`, `ChunkStatus` | one worker's attempts for a chunk among the others, as the ring of peers has them; what the status vector says |
| `ThreadPool`, `ThreadPoolLaws` | the pool's critical sections and its system of threads |
| `Download` | engine and pool together: the workers as tasks, and the thread that adds them and waits |
| `TrackerStore`, `TrackerLaws`, `LoadLedger` | the tracker's store, the index against the plain scan, the load counters |
| `LoadedDownload` | engine, ring of peers and load counters together |
| `PeerList`, `PeerJson`, `PeerScan` | usable peers, the ring of attempts; the scan of the tracker's answer, its fields, and which peers come through it |

Modelling decisions:

- A byte is a character. The digest is an arbitrary function, a parameter of every statement that needs one; where
  its text must fit a header line this is a stated condition, and `Hex` proves it of hexadecimal text.
- A connection delivers any bytes in any nonempty pieces and then closes or breaks; it takes any
  number of bytes before it breaks, and one `send` any part of those.
- In the engine one step is one critical section, one received piece or one call over the network, and the adversary
  chooses the worker, the bytes and the failures. The state mutex is explicit in the second critical section, where
  the scheduler is told and the state saved in separate steps; a worker that needs the mutex then waits. The first
  critical section only touches what the mutex protects and is one step.
- `entered`, `receipts` and `failures` in the engine, and `added`, `started` and `completed` in the pool, only record
  history for the statements; no step depends on them. Chunk files that are there at the start count as whole: their
  receipt is their own size and digest.
- Each store operation of the tracker is one atomic step on a clock of whole seconds, and Redis commands have their
  plain meaning on maps with deadlines. Records and counters are in one map, by what stands behind `peer:` in their
  keys, as Redis has them; the peer sets of files have keys that never meet those (`KeysDistinct`).

## Where the code falls short of the obvious expectation

Each of these is proved with the exact condition:

- A header line is read whatever the segmentation exactly when it has at most 8192 bytes before its newline; a longer
  one is read or refused depending on how it is cut (`SegmentationIndependentIff`).
- The server reads a request with a single `recv`. When that read ends inside the number, it answers for the chunk
  whose number is left without the last digits (`RequestSeen`), and the client, which does not compare the answer with
  its request (`src/peer/peer.cpp:163-173`), stores that chunk as the one it asked for (`CutStoresAnother`). A read
  that ends before the number is refused and does no harm. From a seed the client fails or has the right chunk exactly
  when the read ended before the number or behind it, the reply did not arrive whole, or both chunks are the same
  (`SeedRightIff`; for any store, `ReplyRightIff`). With servers that get each number whole, or none of it, the
  delivery theorem holds (`ServedDeliversIff`).
- A peer announces the files that it is still downloading, and serves each chunk file as it is. A client that asks it
  for a chunk of which it has part stores the part, with a valid header and digest, as the chunk (`PartIsTaken`); its
  answers are right exactly when no worker has a nonempty part of the chunk in its file and no wrong file was there at
  the start (`DownloaderServesIff`).
- A header line of up to 24575 bytes can be read, if the first 8192 come by themselves (`SegmentationPossibleIff`).
- Only a chunk header is refused as an unsupported command: other messages than requests carry no file id, and are
  refused for that (`UnsupportedIff`).
- A chunk that counts as done because of the state file or the shared directory alone is never fetched, but the merge
  reads only the download directory (`DeliversOriginalIff`, `SharedAloneReturns`).
- A process that stops while a worker has part of a chunk in its file leaves that part, and the next start counts it
  as done for good (`RestartSoundIff`, `PartialFileCounted`, `ResumedDeliversIff`).
- The scan of the tracker's answer neither undoes escapes nor knows where a string ends: the answer comes out as it
  went in exactly when every id and address is nonempty and has no closing brace and no character that Go's encoder
  escapes, such as `&`, a quote or a backslash, and every port is in range; file names do not matter
  (`ScanReadsBackIff`, `AmpersandStaysEscaped`, `BrokenIdIsLost`).
- A peer that registers again after its record lapsed, with fewer files, is still found under the old ones
  (`StaleEntryReturned`, `UpsertExactIff`, `AlwaysScanIff`).
- A load counter that lapses under an outstanding reservation loses it (`TimeBalancedIff`, `ReservationLapses`).
- The counter of peer `x` has the key of the record of peer `x:load`, and registration accepts any id. The one's
  heartbeat then renews the other's record (`ClashMissesPeer`), and the other's registration overwrites the one's
  counter (`CounterOverwritten`). The statements over all runs hold exactly for sets of ids without such a pair
  (`NoPeerMissedIff`, `LookupIsScanOnRunsIff`, `LoadConservedIff`).

## Model

| member | source | states |
|---|---|---|
| `EngineOutcome.NothingStranded` | src/peer/peer.cpp:791-883 | In every interleaving, with any failures, once all workers have returned every chunk is done, by scheduler and status vector, and none is missing. |
| `Download.WaitMeansAllDone` | src/peer/peer.cpp:789-883 | With the workers as tasks of the pool: however threads, workers, failures and spurious wakeups interleave, when `pool.wait()` has returned every chunk is done and none is missing. |
| `Download.NeverHangs` | src/peer/peer.cpp:789-866 | Until `pool.wait()` returns, some thread can always move without a spurious wakeup, whatever the network does. |
| `Download.EveryDownloadReturns` | src/peer/peer.cpp:789-866 | Whatever possible moves are made, without spurious wakeups and with any bound on failed chunk attempts, `pool.wait()` returns after finitely many. |
| `Download.DownloadSucceedsIff` | src/peer/peer.cpp:749-906 | Pool, engine and the checks behind them, with honest peers: once `pool.wait()` has returned, the checks against the original's digest succeed exactly when every chunk counted done at the start had its file, and the output is then the original. |
| `Download.StepInv` | src/peer/peer.cpp:789-866 | Every move of pool and engine keeps both invariants and the link between tasks and workers. |
| `EngineSafety.StepInv` | src/peer/peer.cpp:797-848 | Every step of every worker keeps the whole invariant: claims, mutex, coherence, saved state, chunk files, and undone chunks covered by running workers. |
| `EngineSafety.RunInv` | src/peer/peer.cpp:797-848 | Every schedule keeps the invariant. |
| `EngineSafety.CoveredStep` | src/peer/peer.cpp:798-802 | As soon as one worker has left, there are no more undone chunks than workers still running; every step keeps this. |
| `EngineSafety.UndoneInHands` | src/peer/chunkScheduler.cpp:8-22 | When the scheduler has nothing to hand out, there are no more undone chunks than busy workers. |
| `EngineOutcome.ClaimsExclusive` | src/peer/chunkScheduler.cpp:8-43 | In every reachable state a chunk is claimed exactly when one worker, and only one, is busy with it, and no chunk is both done and claimed. |
| `EngineOutcome.CoherentWhenFree` | src/peer/peer.cpp:831-846 | Whenever the state mutex is free, a status is DONE exactly when the scheduler has the chunk done, and the state file holds the status vector and loads back as it. |
| `EngineOutcome.UnclaimedFilesWhole` | src/peer/peer.cpp:319-395 | In every reachable state an unclaimed chunk's file has the announced size and digest; any other file is in the hands of a worker that is receiving it. |
| `Restart.DiskSound` | src/peer/peer.cpp:985-1008 | At whatever step a download is stopped, and whatever part of a write of the state file was done, the file has no chunk as done that the scheduler has not. |
| `Restart.RestartInventsNothing` | src/peer/peer.cpp:769-778 | Hence a restart after any stop, inside or outside the critical sections, counts a chunk done only if it was done or a file of it exists. |
| `Restart.RestartSoundIff` | src/peer/peer.cpp:972-983 | With honest peers, whatever the state file says: every file that a restart counts as done holds its original bytes exactly when that was so at the start before, and no worker had part of a chunk in its file at the stop. |
| `Restart.PartialFileCounted` | src/peer/peer.cpp:771-778 | A run that is stopped behind the first byte of a chunk, after which the restart counts that chunk done. |
| `Restart.ResumedDeliversIff` | src/peer/peer.cpp:749-906 | A download from any state file, genuine chunk files and shared files that is stopped any number of times at any steps, each time resumed from what is on disk with the same shared files, and finished at last merges to the original bytes exactly when at none of the stops a worker was in the middle of a file and the last start counted no chunk done without its file. |
| `Restart.WithoutFileIff` | src/peer/peer.cpp:771-778 | Over any number of such stops the chunks that the last start counts done without a file are exactly those that the first start counted so and that after every stop were shared, or done by the state file. |
| `Restart.WithoutFileIs` | src/peer/peer.cpp:771-778 | A start counts a chunk done without a file exactly when it is shared or DONE by the state file, and not in the download directory. |
| `Restart.ShortNeverDelivers` | src/peer/peer.cpp:771-778 | A download that starts with a file shorter than its chunk, and with none longer, never merges to the original, whatever is shared. |
| `EngineProgress.NeverStuck` | src/peer/peer.cpp:797-848 | While some worker has not returned, some worker can take a step, whatever the network does. |
| `EngineProgress.StepDrops` | src/peer/peer.cpp:797-848 | Every step lowers the lexicographic measure of failures left and undone chunks, then worker ranks with remaining ring attempts, then unread bytes. |
| `EngineProgress.EveryScheduleEnds` | src/peer/peer.cpp:1095-1135 | For any bound on failed chunk attempts no schedule goes on for ever. |
| `Engine.Next` | src/peer/peer.cpp:797-848 | A step moves only its own worker, keeps vector lengths, never takes a chunk back from done, and a worker returns only from asking for a chunk. |
| `Engine.PeerLoopStep` | src/peer/peer.cpp:1095-1135 | A step inside the peer loop changes nothing but its worker and chunk files, and the worker keeps its chunk until it finishes; which step comes next is in `Attempts.StepBetween`. |
| `Attempts.StepBetween` | src/peer/peer.cpp:1104-1130 | The first attempt is number 0; a refused reservation and a failed delivery lead to the next attempt, a delivery to success, and only behind the last peer comes failure. |
| `Attempts.AttemptsInOrder` | src/peer/peer.cpp:1095-1135 | In any schedule, whatever the other workers do meanwhile: from a claim on a worker makes attempts 0, 1, 2 and so on one after another, and is through behind the first that is granted and delivers, or, with failure, behind as many as there are peers. |
| `Attempts.FailoverIff` | src/peer/peer.cpp:1095-1135 | With what each peer grants and delivers given: the worker has the chunk exactly when some peer grants and delivers, it asked the peers round the ring from the chunk's own one on, and when it does not have it, it asked every one. |
| `Attempts.ReachesFinish` | src/peer/peer.cpp:1095-1135 | Whatever the network answers, a worker in the peer loop gets through with its chunk by its own steps. |
| `ChunkStatus.StatusTells` | src/peer/peer.cpp:797-848 | At any moment of any download an unclaimed chunk is DONE, or FAILED if a worker was through with it, or has the status of the start; a claimed one is IN_PROGRESS from the first critical section to the second, and then DONE or FAILED as the outcome was. |
| `ChunkStatus.StartLaw` | src/peer/peer.cpp:749-778 | A start counts a chunk done exactly when the state file has it DONE or one of the directories has its file, gives it that status, and leaves the others as loaded, NOT_STARTED without a state file. |
| `EngineOutcome.AsksForFirst` | src/peer/peer.cpp:798-802 | A worker that asks for a chunk claims the first that is neither done nor claimed, and nothing else, and returns exactly when there is none. |
| `EngineFetch.WorkerFollowsFetch` | src/peer/peer.cpp:319-439 | Whatever a connection delivers in whatever pieces, the header and receive loops run in one piece are a run of one engine worker's steps: same outcome, same chunk file, nothing else changed. |
| `EngineFetch.PayloadFollows` | src/peer/peer.cpp:344-392 | The receive loop and digest check, likewise. |
| `Engine.MarkFinishedChunks` | src/peer/peer.cpp:771-778 | Status vector and scheduler both get exactly the chunks that were saved as done or have a file in either directory. |
| `EngineOutcome.VerifyAllChunksComplete` | src/peer/peer.cpp:1061-1093 | True exactly when every status is DONE and every chunk has a nonempty file, the downloaded one first. |
| `EngineOutcome.FinishDownload` | src/peer/peer.cpp:874-906 | Succeeds exactly when all chunks are done by both records, each has a nonempty downloaded file, and the merged bytes have the recorded digest. |
| `EngineOutcome.FinishesIff` | src/peer/peer.cpp:874-906 | That success means, chunk by chunk: done for the scheduler, DONE, with a nonempty downloaded file; and the recorded digest is that of the merged bytes. |
| `EndToEnd.DeliversOriginalIff` | src/peer/peer.cpp:749-906 | For any file and chunk size up to 64 MiB, honest peers, any interleaving, failover and segmentation: a finished download merges to the original bytes exactly when every chunk counted done at the start had its file in the download directory. |
| `EndToEnd.FreshDownloadDelivers` | src/peer/peer.cpp:749-906 | A finished download from empty directories merges to the original bytes. |
| `EndToEnd.FilesAtEnd` | src/peer/peer.cpp:797-848 | At the end each chunk's file is the one it had at the start, or else the original chunk, but for chunks counted done at the start without a file. |
| `EndToEnd.SharedAloneIsMissing` | src/peer/peer.cpp:977-978 | Whatever else is on disk, a chunk found in the shared directory and not in the download directory is never fetched, and the merge of any such finished download fails. |
| `EndToEnd.SharedAloneReturns` | src/peer/peer.cpp:771-778 | One such download: the only chunk is shared, and the worker returns at once. |
| `EndToEnd.HonestRun` | src/peer/peer.cpp:120-179 | Along every schedule with honest peers, connections, partial files and finished files agree with the original chunks. |
| `Service.ReplyRightIff` | src/peer/peer.cpp:214-251 | For any store, any number of request bytes in the server's one read, and any part of the reply in any pieces: the client fails or has the chunk it asked for exactly when the reply did not arrive whole, no number was seen, or the server has nothing else that is acceptable under the number it saw. |
| `Service.SeedRightIff` | src/peer/peer.cpp:214-289 | From a peer that shares the whole split that is so exactly when the read ended before the number or behind it, the reply did not arrive whole, or the chunk whose number was left is the same. |
| `Service.CutStoresAnother` | src/peer/peer.cpp:163-173 | When the read ended inside the number, the client takes the chunk whose number is left without the missing digits, a smaller one, and reports success. |
| `Service.FetchOfAnswer` | src/peer/peer.cpp:120-289 | For any store and any prefix of its answer in any pieces: the client succeeds exactly when the whole answer arrived and is a chunk file of 1 byte to 64 MiB, and then has that file. |
| `Service.ServedIsHonest` | src/peer/peer.cpp:214-289 | A server that has nothing but original chunks and gets the number whole, or none of it, sends an honest stream, however much of it arrives. |
| `Service.ServedDeliversIff` | src/peer/peer.cpp:749-906 | With such servers a finished download merges to the original bytes exactly when every chunk counted done at the start had its file in the download directory. |
| `Service.AnswerRightIff` | src/peer/peer.cpp:253-289 | Clients of a store fail or have the right chunk, whatever part of its answer arrives, exactly when it has nothing but that chunk, or nothing acceptable, under the number. |
| `Service.DownloaderServesIff` | src/peer/peer.cpp:466-477 | For a peer that is itself downloading from honest peers, in every state it reaches: clients that ask it for a chunk which it does not share fail or have the right chunk exactly when no worker has a nonempty part of it in its file, and no acceptable wrong file of it was there at the start. |
| `Service.PartIsTaken` | src/peer/peer.cpp:466-477 | When a worker has a nonempty part of the chunk, such a client takes that proper part for the chunk and reports success. |
| `Scheduling.FirstFreeIsLeast` | src/peer/chunkScheduler.cpp:12-21 | The scan finds the least chunk neither done nor claimed, and gives up only when there is none. |
| `Scheduling.DisjointKept` | src/peer/chunkScheduler.cpp:8-43 | Claiming, finishing and failing keep done and claimed apart. |
| `Scheduling.ChunkScheduler.constructor` | src/peer/chunkScheduler.cpp:6 | Nothing is done or claimed at first. |
| `Scheduling.ChunkScheduler.GetNextChunk` | src/peer/chunkScheduler.cpp:8-22 | Returns the first free chunk or -1, and claims exactly that. |
| `Scheduling.ChunkScheduler.MarkDone` | src/peer/chunkScheduler.cpp:24-33 | Sets done and clears the claim of one chunk in range; other ids change nothing. |
| `Scheduling.ChunkScheduler.MarkFailed` | src/peer/chunkScheduler.cpp:35-43 | Clears the claim of one chunk in range; other ids change nothing. |
| `Scheduling.ChunkScheduler.AllDone` | src/peer/chunkScheduler.cpp:45-59 | True exactly when every chunk is done. |
| `ThreadPoolLaws.StepInv` | src/peer/threadPool.cpp:10-77 | Every event, in any order, keeps the active count exact, tasks conserved and in order, and no wakeup lost. |
| `ThreadPoolLaws.NobodySleepsThrough` | src/peer/threadPool.cpp:10-61 | In no run does a thread sleep in `wait` with nothing queued or running, or do all workers sleep over a queued task without a notification under way. |
| `ThreadPoolLaws.TasksConserved` | src/peer/threadPool.cpp:10-61 | In every run the tasks added are those queued, running and completed; tasks start in the order they were added, each once. |
| `ThreadPoolLaws.WaitReturnsDone` | src/peer/threadPool.cpp:20-27 | When `wait` returns, every task added so far is completed and none is running. |
| `ThreadPoolLaws.JoinedMeansDrained` | src/peer/threadPool.cpp:63-77 | When every worker has left, a stop was requested and every task ever added is completed. |
| `ThreadPoolLaws.QuiescentIsDone` | src/peer/threadPool.cpp:10-61 | Where nothing can happen without an outside cause, no task is queued or running, no waiter sleeps, and after a stop every worker has left. |
| `ThreadPoolLaws.InternalDrops` | src/peer/threadPool.cpp:29-61 | Every internal event lowers a measure, so no run of internal events goes on for ever. |
| `ThreadPoolLaws.InternalRunsFinish` | src/peer/threadPool.cpp:20-61 | From every reachable state internal events lead to one in which nothing is left to do. |
| `ThreadPool.PoolState.AddTask` | src/peer/threadPool.cpp:10-15 | The task goes to the end of the queue. |
| `ThreadPool.PoolState.TakeTask` | src/peer/threadPool.cpp:34-48 | Sleeps, leaves or takes the oldest task, and only the last changes the pool. |
| `ThreadPool.PoolState.FinishTask` | src/peer/threadPool.cpp:53-59 | One task fewer is active; waiters are notified exactly when nothing is queued or active. |
| `ThreadPool.PoolState.BeginStop` | src/peer/threadPool.cpp:63-68 | Only the stop flag changes. |
| `TrackerLaws.NoPeerMissedIff` | service/store.go:98-212 | For any set of peer ids: over every run of registrations, heartbeats, lookups, load changes and time on these peers no lookup misses a record that the plain scan returns, exactly when no id is another one with `:load` behind it. |
| `TrackerLaws.LiveIsListed` | service/store.go:98-212 | Over those runs each file of a live record has the peer in its set, and the set outlives the record. |
| `TrackerLaws.ClashMissesPeer` | service/store.go:203-204 | For any ids `x` and `x:load`, a run in which the heartbeat of the one keeps the other's record alive but not its index entry, so that a lookup misses it. |
| `TrackerLaws.LookupIsScanOnRunsIff` | service/store.go:89-184 | Over the runs on a set of ids in which a peer that registers after its record lapsed lists at least its former files, every lookup returns exactly the plain scan's records, exactly when no id is another one with `:load` behind it. |
| `TrackerLaws.LookupIsScanAfter` | service/store.go:89-184 | After each such run index membership is exact, and lookup and plain scan agree. |
| `TrackerLaws.LookupMissesNothing` | service/store.go:31-53 | In every state that keeps the invariant the plain scan's records are among those a lookup returns. |
| `TrackerLaws.LookupIsScan` | service/store.go:31-53 | Where index membership is exact, lookup and plain scan return the same records. |
| `TrackerLaws.ScanIsRecentRecords` | service/postgres.go:191 | The plain scan returns the records the database query asks for: online, seen within one time to live, listing the file. |
| `TrackerLaws.UpsertExactIff` | service/store.go:98-127 | A registration keeps index membership exact exactly when it lists every file under which a stale entry of the peer is left. |
| `TrackerLaws.OthersKeepExact` | service/store.go:156-242 | Lookups, load changes, time, and heartbeats whose counter key holds no record keep index membership exact. |
| `TrackerLaws.AlwaysScanIff` | service/store.go:89-184 | In every run on ids none of which is another one with `:load` behind it: at every moment every lookup returns exactly the plain scan's records, exactly when every registration lists each file under which a stale entry of its peer is left. |
| `TrackerLaws.StaleEntryReturned` | service/store.go:104-108 | A run in which a lookup returns a peer that no longer lists the file. |
| `TrackerLaws.UpsertInv` | service/store.go:98-127 | Registration keeps the index invariant, whatever its counter's key holds. |
| `TrackerLaws.TouchInv` | service/store.go:186-212 | A heartbeat keeps the index invariant unless its counter's key holds another peer's record. |
| `TrackerLaws.LoadInv` | service/store.go:226-242 | Reservations and releases keep the index invariant, whatever the counter's key holds. |
| `TrackerLaws.LookupInv` | service/store.go:156-184 | A lookup's clean-up keeps the index invariant. |
| `TrackerStore.LookupRemoves` | service/store.go:156-184 | For any store: a lookup leaves exactly the members with a record that is alive, online and at most twenty seconds old, and changes no other set, no deadline of a set that is left, and no record or counter. |
| `TrackerLaws.LookedUpIsGone` | service/store.go:165-180 | In any run on ids none of which is another one with `:load` behind it: a peer without a live record when a file is looked up is in no later lookup of the file until it registers with the file again. |
| `TrackerLaws.OnlyListingAdds` | service/store.go:122-125 | For any store, nothing but a registration that lists the file brings a peer into the file's set. |
| `TrackerLaws.LaterInv` | service/store.go:71 | The passing of time keeps the index invariant. |
| `TrackerStore.KeysDistinct` | service/store.go:73-79 | Keys of records, sets and counters are injective and distinct, but that the counter key of `x` is the record key of `x:load`. |
| `TrackerStore.Tracker.RemovePeerFromFileSets` | service/store.go:89-96 | The peer leaves the set of each listed file. |
| `TrackerStore.Tracker.UpsertPeer` | service/store.go:98-127 | The new state of the shared key space is that of the specification that the laws are about; the record overwrites whatever is under its key. |
| `TrackerStore.Tracker.TouchPeer` | service/store.go:186-212 | Fails without a record and changes nothing; otherwise renews the record, the sets, and whatever is under the counter's key. |
| `TrackerStore.Tracker.PeerForFile` | service/store.go:156-184 | Returns each usable member's record once and nothing else, and leaves exactly the members with a record that is alive, online and at most twenty seconds old. |
| `TrackerStore.Tracker.ReservePeerLoad` | service/store.go:226-229 | Adds one, renews the counter, and returns its value; or fails and changes nothing where the key holds a record. |
| `TrackerStore.Tracker.ReleasePeerLoad` | service/store.go:231-242 | Takes one off, resets a negative counter to zero, renews it, and returns a value that is never negative; or fails and changes nothing where the key holds a record. |
| `TrackerLaws.LoadRenewed` | service/store.go:226-242 | Where the key holds no record, a reservation and a release change the counter by one, but not below zero, give it twenty seconds to live from now on, and leave every other key alone. |
| `TrackerLaws.RegistrationRenews` | service/store.go:115-120 | A registration gives the peer's counter twenty seconds to live and leaves its value, or creates it at zero. |
| `TrackerLaws.HeartbeatRenews` | service/store.go:203-204 | A heartbeat gives the peer's counter, if there is one, twenty seconds to live and leaves its value. |
| `TrackerLaws.ReservedLives` | service/store.go:226-242 | In any run a counter is there for less than twenty seconds from its last reservation or release on, whatever else happens but the registration of the peer whose record has its key. |
| `LoadLedger.LoadConservedIff` | src/peer/peer.cpp:1104-1130 | For any set of peer ids: every run on these peers in which no counter lapses under a reservation keeps each counter at the outstanding and leaked reservations, exactly when no id is another one with `:load` behind it. |
| `LoadLedger.LoadConserved` | src/peer/peer.cpp:1104-1130 | In those runs the counter is never negative, and the release of a held reservation is applied and takes exactly one off. |
| `LoadLedger.CounterOverwritten` | service/store.go:110-113 | For any ids `x` and `x:load`, a run in which the registration of the one takes away a reservation at the other. |
| `LoadLedger.RegisterKeepsCountersIff` | service/store.go:110-120 | A registration leaves every counter at its value exactly when no nonzero counter has the key of its record. |
| `LoadLedger.MoveBalanced` | service/store.go:115-120 | Reservations, releases, lost replies and requests, heartbeats, lookups, and registrations that take no used counter's key keep that balance. |
| `LoadLedger.HolderCounted` | service/store.go:231-242 | A worker that holds a reservation finds a positive counter, so the clamp is never taken. |
| `LoadLedger.TimeBalancedIff` | service/store.go:226-242 | Time keeps the balance exactly when no counter lapses under an outstanding reservation. |
| `LoadLedger.ReservationLapses` | service/store.go:226-229 | A reservation held for twenty seconds after which the counter is gone, and no number of leaks restores the balance. |
| `LoadLedger.TrackerKeepsCounters` | service/store.go:156-212 | Heartbeats and lookups leave every counter's value alone. |
| `LoadedDownload.CountersExact` | src/peer/peer.cpp:1095-1135 | Engine, ring and counters together: at any moment of any download, whatever fails, is lost or happens elsewhere without a counter lapsing under a reservation, each peer's counter is the workers between grant and release there, the reservations of others, and the leaked ones. |
| `LoadedDownload.NothingHeldAtEnd` | src/peer/peer.cpp:1095-1135 | Once all workers have returned none of them holds a reservation, and each counter is the reservations of others and the leaked ones. |
| `LoadedDownload.FinishedDownload` | src/peer/peer.cpp:791-883 | From empty counters, once all workers have returned: every chunk is done and none missing, and each counter is the reservations of others and the leaked ones. |
| `LoadedDownload.ZeroAtEnd` | src/peer/peer.cpp:1104-1118 | If moreover no reply to a reservation and no release was lost, and nobody else holds a reservation at a peer, its counter is back at zero. |
| `LoadedDownload.StepHeld` | src/peer/peer.cpp:1104-1118 | Every step keeps each worker holding a reservation exactly between grant and release, at the peer to which the ring sends its attempt. |
| `LoadedDownload.FirstReservation` | src/peer/peer.cpp:804-805 | The first attempt for chunk `c`, if it is granted, reserves at usable peer number `c` modulo their count. |
| `LoadedDownload.HeldInRing` | src/peer/peer.cpp:1104-1113 | At any moment each reservation that a worker holds is at the usable peer whose number is chunk plus attempt, modulo their count. |
| `LoadedDownload.EngineFollows` | src/peer/peer.cpp:797-848 | The workers' part of such a run is a schedule of the engine, with the same state, so that the engine's theorems hold of it. |
| `LoadedDownload.NeverBlocked` | src/peer/peer.cpp:1095-1135 | While some worker has not returned, some worker can take a step, whatever the tracker does. |
| `Transfer.SegmentationIndependentIff` | src/peer/peer.cpp:397-439 | A stream's header is read under every segmentation exactly when its first line has at most 8192 bytes before the newline. |
| `Transfer.SegmentationPossibleIff` | src/peer/peer.cpp:397-439 | Some segmentation lets a stream's header be read exactly when its first line has at most 24575 bytes before the newline. |
| `Transfer.HeaderLossless` | src/peer/peer.cpp:397-439 | A header that was read is the first line of the stream, and the bytes that came along and those still to come are what follows it. |
| `Transfer.ShortHeaderRead` | src/peer/peer.cpp:397-439 | A first line of at most 8192 bytes is read whatever the segmentation. |
| `Transfer.ReceiveLaw` | src/peer/peer.cpp:344-377 | The receive loop writes the stream's next bytes, up to the announced size, and leaves the rest unread. |
| `Transfer.ReadChunkHeader` | src/peer/peer.cpp:397-439 | The loop computes the specified header read. |
| `Transfer.ReceiveChunkData` | src/peer/peer.cpp:319-395 | The loop leaves the specified file, or none, and no other file changes. |
| `Transfer.SendAll` | src/network/socketUtils.cpp:95-114 | Sends exactly as many bytes as the connection takes: all of them and their number is returned, or the first ones and -1. |
| `Transfer.SendChunkFileInBuffers` | src/peer/peer.cpp:291-317 | Sends the whole file exactly when the connection takes that many bytes, and otherwise the first ones and fails. |
| `Transfer.RequestChunkFromPeer` | src/peer/peer.cpp:120-179 | Sends the request as far as the connection takes it; if it takes all, success and the chunk's file are exactly those of the specified fetch, and otherwise it fails and no file changes. |
| `Transfer.ServeRequestedChunk` | src/peer/peer.cpp:253-289 | Sends the specified answer, the shared file's before the downloaded one's, as far as the connection takes it, and succeeds exactly when there is a chunk and all of the answer was taken. |
| `Transfer.HandlePeerRequest` | src/peer/peer.cpp:214-251 | Answers the first piece of what arrives, up to 1023 bytes of it, with the error line that fits, or the chunk, as far as the connection takes it; a whole request for a safe file id and a chunk in range that arrives as one piece is answered with that chunk's answer, with success exactly when there is the chunk and all of the answer was taken. |
| `Transfer.RequestFits` | src/peer/peer.cpp:214-221 | A request for a safe file id and a chunk in range has at most 145 bytes and no NUL. |
| `Service.ReplyToRequest` | src/peer/peer.cpp:214-289 | What a whole request for any one-word file id is answered with, text by text: the refusal of an unsafe id, the shared chunk's header and bytes, or else the downloaded one's, or that there is none. |
| `Service.SafeIsPathName` | src/peer/peer.cpp:1151-1156 | The safe file ids are exactly the strings of 1 to 128 letters, digits, dots, dashes and underscores, by their codes. |
| `Service.UnsupportedIff` | src/peer/peer.cpp:231-251 | A message is refused as unsupported exactly when it is a valid chunk header with a safe file id. |
| `Delivery.FetchPrefixOfWire` | src/peer/peer.cpp:120-179 | Any prefix of an honest answer in any pieces delivers the chunk exactly when nothing is missing; a cut header leaves the old file, a cut payload none. |
| `Delivery.FetchBehindHeader` | src/peer/peer.cpp:319-439 | Behind a valid header the outcome depends on the bytes and not on their segmentation. |
| `Delivery.FetchNeverPartial` | src/peer/peer.cpp:319-395 | Whatever a peer sends, success leaves a file with announced size and nonempty announced digest, and failure never leaves part of one. |
| `Delivery.HeaderReadBack` | src/peer/peer.cpp:397-439 | A printed header within the limits is read back whole, with everything behind it. |
| `Delivery.PayloadLaw` | src/peer/peer.cpp:319-395 | Exactly the announced number of bytes is kept, and only with the announced digest. |
| `Delivery.RequestSeenWholeIff` | src/peer/peer.cpp:214-227 | The server understands the request that was made exactly when its single read got the whole number. |
| `Delivery.RequestSeen` | src/peer/peer.cpp:214-227 | Of the first bytes of a request the server understands nothing valid when they end before the number, and otherwise a request for the number without its missing digits, which is a smaller one unless the number is whole. |
| `ChunkFiles.SplitFileIntoChunks` | src/file/chunkManager.cpp:10-55 | Writes exactly the chunks of the file and returns their number, or -1 and nothing. |
| `ChunkFiles.MergeChunks` | src/file/chunkManager.cpp:66-114 | Whatever the buffer size, the output is the chunks in order up to the first missing one. |
| `ChunkFiles.SplitShape` | src/file/chunkManager.cpp:10-55 | The chunks join up to the file, none is empty, all but the last are full. |
| `ChunkFiles.SplitUnique` | src/file/chunkManager.cpp:10-55 | No other sequence of chunks has that shape. |
| `ChunkFiles.SplitCount` | src/file/chunkManager.cpp:10-55 | There are ceil(length / chunk size) chunks. |
| `ChunkFiles.MergeSucceedsIff` | src/file/chunkManager.cpp:79-85 | Merging succeeds exactly when no chunk below the count is missing. |
| `ChunkFiles.MergeIs` | src/file/chunkManager.cpp:66-114 | The output is the chunk files up to the first missing one, joined, whatever stands behind it. |
| `ChunkFiles.SplitThenMerge` | src/file/chunkManager.cpp:10-114 | Splitting over any directory and merging gives the original bytes. |
| `Protocol.ParseMessage` | src/protocol/protocolParser.cpp:19-128 | The token-by-token parser computes the specified meaning of every line. |
| `Protocol.ValidForms` | src/protocol/protocolParser.cpp:35-125 | Every valid message is one of five forms, with single words and numbers in range. |
| `Protocol.RequestLineIff` | src/protocol/protocolParser.cpp:49-68 | A line requests a chunk exactly when REQUEST, the file id, and a word that starts with the chunk's number, from 0 to 1000000, are its first three words, separated by any white space. |
| `Protocol.ChunkLineIff` | src/protocol/protocolParser.cpp:70-104 | A line announces a chunk exactly when CHUNK, the file id, words that start with its number and its size, from 1 to 67108864, and the digest are its first five words. |
| `Protocol.ConnectLineIff` | src/protocol/protocolParser.cpp:36-47 | A line is a CONNECT message exactly when CONNECT and the peer id are its first two words. |
| `Protocol.CompleteLineIff` | src/protocol/protocolParser.cpp:106-111 | A line says COMPLETE exactly when that is its first word. |
| `Protocol.ErrorLineIff` | src/protocol/protocolParser.cpp:113-125 | A line is an error exactly when ERROR is its first word; the text is the rest of that line but for one space. |
| `Protocol.ConnectRoundTrip` | src/protocol/protocol.cpp:5-7 | A CONNECT line parses back exactly when the peer id is one nonempty word. |
| `Protocol.RequestRoundTrip` | src/protocol/protocol.cpp:9-11 | A REQUEST line parses back exactly when its file id is one word and its chunk id in range. |
| `Protocol.ChunkRoundTrip` | src/protocol/protocol.cpp:13-15 | A CHUNK line parses back exactly when its words are words and its numbers in range. |
| `Protocol.ErrorRoundTrip` | src/protocol/protocol.cpp:21-23 | An ERROR line parses back exactly when its text has no newline. |
| `Protocol.RebuildNormalises` | src/protocol/protocolParser.cpp:19-128 | For every line that parses as valid, printing the message and parsing again gives the same message. |
| `Protocol.LenientRequest` | src/protocol/protocolParser.cpp:55-58 | A plus sign before the chunk id and text behind it are accepted, and gone once printed back. |
| `Hex.BytesToHex` | src/file/hashUtils.cpp:107-116 | The loop computes the specified digest text. |
| `Hex.HexIsOneWord` | src/file/hashUtils.cpp:107-116 | Digest text has two characters a byte and no white space. |
| `Hex.HexCharacters` | src/file/hashUtils.cpp:107-116 | Each byte is printed as its two lower-case digits in base sixteen, the high one first. |
| `Hex.HexInjective` | src/file/hashUtils.cpp:107-116 | Different digests have different texts. |
| `InputStreams.InputStream.ExtractWord` | src/protocol/protocolParser.cpp:32 | Takes the next word off the stream, or fails and keeps failing. |
| `InputStreams.InputStream.ExtractInt` | src/peer/peer.cpp:951 | Takes the next 32-bit number off the stream, or fails where there are no digits or too large a number. |
| `InputStreams.InputStream.GetLine` | src/protocol/protocolParser.cpp:116 | Takes the rest of the line, without its newline. |
| `Text.ReadWordIff` | src/protocol/protocolParser.cpp:32 | The word taken off a stream is exactly the first run of characters other than the six white-space ones, and what is left is what stands behind it. |
| `Text.ReadIntIff` | src/peer/peer.cpp:951 | The number taken off a stream is exactly the one that comes first, with an optional sign, if it fits 32 bits. |
| `Text.StoLLIff` | src/protocol/protocolParser.cpp:55-64 | The number made of a text is exactly the one it starts with, if it fits 64 bits, whatever stands behind it. |
| `StateFile.SaveDownloadState` | src/peer/peer.cpp:985-1008 | Writes one line per chunk, in order. |
| `StateFile.LoadDownloadState` | src/peer/peer.cpp:932-959 | Reads pairs until the first that cannot be read, and ignores ids out of range. |
| `StateFile.LoadAnyLine` | src/peer/peer.cpp:949-957 | A line with any 32-bit number and any word sets that chunk, if it exists, to the status that the word names, NOT_STARTED for an unknown word, and reading goes on. |
| `StateFile.LoadStops` | src/peer/peer.cpp:951 | Where no 32-bit number with a word behind it comes next, nothing more is read. |
| `StateFile.StateRoundTrip` | src/peer/peer.cpp:932-1008 | What was saved loads back, cut or filled up with NOT_STARTED where the chunk count differs. |
| `StateFile.InterruptedSaveInventsNothing` | src/peer/peer.cpp:965-972 | Any prefix of a saved file gives each chunk its saved status or NOT_STARTED. |
| `StateFile.FindMissingChunks` | src/peer/peer.cpp:1048-1059 | The loop computes the specified list of missing chunks. |
| `StateFile.MissingExactly` | src/peer/peer.cpp:1048-1059 | That list holds exactly the chunks not done, in ascending order. |
| `StateFile.AllChunksDone` | src/peer/peer.cpp:1019-1030 | True exactly when no chunk is missing. |
| `PeerList.FilterUsablePeers` | src/peer/peer.cpp:908-930 | Keeps, in the order given, exactly the peers with another id, a nonempty address and a positive port before which no such peer has the same address and port. |
| `PeerList.UsableInOrder` | src/peer/peer.cpp:908-930 | The ascending places of exactly those peers give the result. |
| `PeerList.KeyInjective` | src/peer/peer.cpp:919-920 | The key of a peer determines its address and port. |
| `PeerList.UsableFrom` | src/peer/peer.cpp:908-930 | Every kept peer is a well-formed one of those given. |
| `PeerList.UsableDistinct` | src/peer/peer.cpp:908-930 | No two kept peers have the same address. |
| `PeerList.UsableCovers` | src/peer/peer.cpp:908-930 | The address of every well-formed peer is that of a kept one. |
| `PeerList.RequestChunkFromAnyPeer` | src/peer/peer.cpp:1095-1135 | The loop visits, reserves and releases at exactly the specified peers, from the start peer on, each next one the peer before plus one, or the first behind the last. |
| `PeerList.VisitsGoRound` | src/peer/peer.cpp:1104-1108 | The first peer visited is the start peer, and each next one is the peer before plus one, or 0 behind the last, at most once round. |
| `PeerList.RingOrder` | src/peer/peer.cpp:1106-1107 | Attempts go round the ring from the start peer. |
| `PeerList.ReservedIsGranting` | src/peer/peer.cpp:1112-1115 | Load is reserved at exactly the visited peers that grant it, in the order of the visits. |
| `PeerList.RingStops` | src/peer/peer.cpp:1104-1135 | Attempts stop behind the first peer that grants and delivers, or after all of them; every reservation is released. |
| `PeerList.RingSucceedsIff` | src/peer/peer.cpp:1095-1135 | A chunk is obtained exactly when some peer grants and delivers, and no peer is visited twice. |
| `PeerList.RingCovers` | src/peer/peer.cpp:1106-1107 | Every peer comes up within one round. |
| `PeerJson.ScanPeers` | src/peer/peer.cpp:669-695 | The scan loop collects the endpoints of the objects between braces, in order. |
| `PeerJson.ExtractJsonIntField` | src/peer/peer.cpp:723-746 | The digit loop returns the number behind the key, or fails. |
| `PeerJson.FindTextIs` | src/peer/peer.cpp:697-733 | A text is found where it occurs first, and not found exactly when it occurs nowhere. |
| `PeerJson.ObjectEntry` | service/models.go:5-12 | One rendered peer whose id and address have no quote or brace is read back as its endpoint, whatever stands behind its port. |
| `PeerScan.ScanReadsBackIff` | service/handlers.go:68-69 | For any peers whatever, scanning the tracker's answer gives exactly their endpoints in order just when every id and address is nonempty, needs no escape and has no closing brace, and every port is in range. |
| `PeerScan.AmpersandStaysEscaped` | src/peer/peer.cpp:708-721 | A peer whose id is `a&b` comes out of the scan with the escape in its id. |
| `PeerScan.ScanReadsRendered` | src/peer/peer.cpp:669-746 | Scanning rendered peers whose ids and addresses have no quote or brace gives exactly the endpoints as they are written there, in order, whatever their file names hold. |
| `PeerScan.ScanReturnable` | src/peer/peer.cpp:669-746 | Of whatever text, the scan gives only endpoints with nonempty ids and addresses without quote or closing brace, and ports in range. |
| `PeerScan.LeftoverGivesNothing` | src/peer/peer.cpp:669-695 | Whatever a file name with braces makes of the rest of an object, the pieces of it that the scan cuts out give no endpoint. |
| `PeerScan.BrokenIdIsLost` | src/peer/peer.cpp:708-721 | A peer with a quote or a closing brace in its id is among the endpoints of no scan. |
| `PeerScan.EscapedLaw` | service/handlers.go:68-69 | Escaping leaves no quote unguarded and none new, and leaves a string alone exactly when every character is sent as it is. |

## Left out

- Concurrency inside one tracker operation: Redis commands of different requests do not interleave, and the clock has
  no fractions of a second.
- Redis, Postgres and HTTP themselves, and their errors. The JSON text is what Go's encoder writes (section 4 of
  RFC 8259, with its additional escapes), for strings that are sequences of Unicode characters; a peer without a file
  list is rendered with an empty one.
- Sockets, timeouts, file descriptors and operating system errors: a connection ends early, and that covers them.
- Failing disk writes and deletes, chunk files that vanish, and a failing digest computation.
- A process that stops in the middle of writing one received piece: the restart lemmas stop between pieces, but
  anywhere inside a write of the state file.
- Exceptions that escape a task, and a pool on which tasks are added while it is being destroyed.
- SHA-256 (section 6.2 of FIPS 180-4): an arbitrary function.
- Download requests for no chunks or without usable peers, which are refused before the engine starts.
- The final save behind `pool.wait()` as a step: it writes the vector that is already saved; a stop inside it is
  covered by `Restart.DiskSound`.
- Servers that answer with another chunk's valid header inside the engine: the end-to-end theorems are about honest
  ones, and `Service` says which servers are.
- A chunk file that changes while it is being sent: an answer is made of the file as it is at one moment.
- `listPeers`, `peerForFileBalanced` and its sort, `getPeerLoad`, the metadata map, logging, the single-peer download,
  the first-generation client and server, and the accept loop: nothing in them is harder than what is here.
- Two running downloads of the same file, which would share one state file and one directory.
