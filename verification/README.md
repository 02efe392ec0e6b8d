# Chunk store: a verified model

A file is cut into 8 KiB chunks by a client, stored by C storage nodes that keep an in-memory index beside
their files, and found again through a Rust master that knows only what the nodes last reported. This project
models those parts as the code writes them and proves what they do together.

Two kinds of modules:

* Values. `Storage` (one node: index and tree below `data/`), `Registry` (the master), `Cluster` (all nodes,
  their FIFO connections and the master, one atomic step at a time), `Chunks`, `FileTree`, `Wire` and `Text`
  hold functions; `NodeRuns`, `RoundRobin`, `History`, `Truth`, `Placement`, `Reports`, `SettledReads`, `Deletion`,
  `Misfiling` and `EndToEnd` prove theorems about whole runs of them.
* Code that changes state. `StorageNode.NodeState` (the reallocated index array), `FileTree.FileSystem`
  (recursive removal), `Http` (body accumulation and dispatch), `TcpStorage.TcpStorage` (the registry with its
  32-bit cursor), `Wire.SendAll`, `Upload.InsertFile` and `Download.ReadFile` are methods proved equal to the
  functions, or against what the operation promises.

Main results, hardest first:

* `EndToEnd.ReachableReadsBackIff` (from `SettledReads.ReadsBackIff`): after any run in which a name stands for one
  content, whatever its disk writes did, once every view is its node's index, `readFile` returns exactly the content
  for every replica choice if and only if the content is non-empty, every id is indexed under the name at a
  registered node, and every id indexed there is on that node's disk in full. `AlwaysSucceedsIff`,
  `CanReadBackIff` and `AlwaysCutShortIff` say in the same terms when every read succeeds, when some read returns
  the file, and when every read returns true with the file cut short.
* `Misfiling.OneTurnLosesAChunk` is the failing input, end to end: two clients that upload f and g turn by turn to
  one node. Once f has two chunks there and g one, every read of f returns true without the second chunk, and some
  read of g fails, because the id is listed under g and g has no such chunk. `TwoTurnsHideTheLoss`: with g's second
  chunk stored as well, f still comes back short but no read of g fails.
* `EndToEnd.ReadSafety` with `Truth.TrueThroughoutIff`: in any interleaving of uploads, deletes, reports, joins and
  disconnects in which a name stands for one content, a successful read is a concatenation of true slices over
  strictly increasing ids as long as no save spoils a node; and nodes serve only true slices at every moment if and
  only if no save does. Runs without short writes never spoil (`RunsKeepTrueDisks`, no upload discipline needed),
  nor do runs with failing writes whose complete saves are disciplined (`DisciplinedRunsNeverSpoil`).
  `NodeRuns.CutChunkIsServed` is a run that does: a cut chunk is served through a misfiled id.
* `EndToEnd.InsertThenRead` / `RoundTrip`: insert a file, let every open connection report and drain, read it. For a
  lone client it is true and the same bytes, for every retry pattern and replica choice, if and only if the file is
  non-empty, the replication factor is at least 1 and a member was registered. `Reports.DrainingScheduleExists`: the
  reports can always be let through.
* `Upload.InsertFile` / `InsertAlone`: exactly where every chunk is after an upload.
* `History.ViewIsHistory`, `ViewNeverMovesBack`, `DeliveredReportIsCurrent`: what the master shows for a node is
  the node's index at a past moment that only moves forward. `ReachableListedIffLocated`: however stale the views,
  the chunk list and the locations agree. `ClusterCursorSafety`, `ClusterPicksAreFair`: the write cursor over every
  cluster run. `NodeIsItsRun`: every process is in the state its own saves and deletes lead to, so the results about
  one node hold in every cluster.
* `Deletion.DeleteReachesMaster`: deletes at the holders, in any order and with other traffic, then reports, take
  exactly that file out of the master's answers.
* `NodeRuns.AgreeThroughoutIff` (from `Storage.SaveKeepsAgreementIff`): "index lists exactly the chunks on disk"
  holds at every moment of a run, whatever its writes do, if and only if every save writes nothing new, or is
  complete and finds the directory without files or its own file in the last index entry.
* `NodeRuns.ShortWriteIff`, `DefinedRunExtendsIff` (from `Storage.EverySaveIsDefinedIff`): exactly when the code is
  defined, see below.
* `History.ClusterPicksFromCursor` with `RegistryIsInJoinOrder`: exactly whom write requests are served by. The
  registry stands in the order in which joins were handled, whoever left since, and the k-th cursor step after a
  cursor c chooses position c + 1 + k of it up to whole rounds, also when c is stale.
* `RoundRobin.RoundRobinIsFair`, `ReplicaSetSize`, `CollectedIff`: write requests, interrupted or not.
* `Storage.SaveIs`, `DeleteIs`, `Http.RepliesAre`, `Chunks.ChunkCountIs`, `SliceIs`, `Text.AtoiReads`, `DecimalIs`,
  `Wire.SizeIsBigEndian`: what each operation does to every path, entry, byte and reply, in literal terms.
* `Wire.FramingRoundTripIff`: framing loses nothing if and only if every message is shorter than 2^32 bytes
  (the size is cast to 32 bits); `TruncatedStream` for every cut.

Assumptions. File names are single path components. A node answers one HTTP request at a time and takes a
health snapshot in one step (the code releases its lock just before packing). A process has one connection,
sends Join once, and its id is fresh. Writes may fail to open or be short everywhere except inside one
`insertFile` (`Upload`). `Cluster` steps that the code cannot take, or after which it has no defined behaviour
(`Enabled` false), change nothing; `History.UploadsDefinedIff` says which uploads those are.

Things the code does that its callers may not expect:

* A failed save leaves `page` NULL, and the response is then built with `strlen(page)`; `Http.NullPageIff` says
  exactly when. The results about runs with failing writes assume that the process survives this.
* A complete save of a missing chunk pushes onto index entry -1 if its directory has a file but the index is empty.
  From a node whose index names exactly its non-empty directories this takes one step: every later save is defined
  unless a missing chunk is cut short while the index is empty, be the node fresh or emptied
  (`Storage.NextSaveIsDefinedIff`, `NodeRuns.ShortWriteIff`, with the failing run in
  `ShortWriteMakesNextSaveUndefined`). In general every later save is defined if and only if the index has an entry
  or no directory has a file (`Storage.EverySaveIsDefinedIff`).
* The retry after a short write answers success and the chunk stays cut (`NodeRuns.RetryAfterShortWrite`).
* `insertFile` returns true whatever was stored. `Upload.InsertAlone` proves what a lone client with a non-empty
  file can conclude: every chunk is stored if and only if the replication factor is at least 1 and a member is
  registered when it starts; otherwise no node has changed. With other traffic a join that is delivered during the
  upload can give the later chunks a place, so only a member that is registered at the start guarantees them all
  (`Upload.InsertFile`, `Placement.PlacedIff`).

## Model

| member | source | states |
|---|---|---|
| EndToEnd.RoundTrip | client/client/readFile.ts:16-47 | once every chunk is placed and all nodes have reported and drained, a read succeeds if and only if the file is non-empty, and returns the file, for every replica choice |
| EndToEnd.InsertThenRead | client/client/insertFile.ts:7-48 | insertFile, any schedule of reports that drains every queue, then readFile: for a lone client true and the inserted bytes if and only if the file is non-empty, replication is at least 1 and a member was registered; with other quiet traffic the same once a member was registered at the start |
| EndToEnd.ReadSafety | client/client/readFile.ts:20-45 | in every run with one content per name and no spoiling save, whatever else its writes do, a successful read whose requests are answered at arbitrary moments is a concatenation of true slices over a non-empty strictly increasing list of valid ids |
| Truth.TrueThroughoutIff | storageLayer/state/fileOperation.c:43-67 | over any run with one content per name, nodes serve only true slices at every moment if and only if no save spoils |
| Truth.SaveKeepsTrueReadsIff | storageLayer/state/fileOperation.c:43-67 | one save keeps what the guarded lookup serves true if and only if it does not file its id under a name whose own chunk is cut, and is not itself a cut chunk whose id is already filed |
| Truth.RunsKeepCutDisks | storageLayer/state/fileOperation.c:53-66 | in every run each chunk on every disk is the true slice or the start of it |
| Truth.RunsKeepTrueDisks | storageLayer/state/fileOperation.c:43-67 | without short writes each chunk on every disk is the true slice of its file, and nothing is spoiled |
| Truth.DisciplinedRunsNeverSpoil | storageLayer/state/fileState.c:44-57 | with any failing writes nothing is spoiled as long as every complete save is disciplined |
| NodeRuns.CutChunkIsServed | storageLayer/state/fileOperation.c:58-67 | a short write of f's chunk followed by a complete save of g's chunk of the same id makes the lookup serve the cut chunk |
| EndToEnd.SettledReadIsExact | client/client/readFile.ts:20-47 | in a settled cluster a read of an uploaded file succeeds if and only if some chunk is placed, and returns the file if and only if it is non-empty and every chunk is placed |
| EndToEnd.ReachableReadsBackIff | client/client/readFile.ts:16-47 | in every reachable settled cluster, misfiled and half-written chunks included, the exact condition under which every replica choice reads the file back |
| SettledReads.ReadsBackIff | client/client/readFile.ts:20-47 | the same for any settled cluster whose chunks are true slices, cut or not: non-empty, completely indexed, and every indexed chunk there in full |
| SettledReads.AlwaysSucceedsIff | client/client/readFile.ts:20-47 | every replica choice succeeds if and only if something is indexed and no registered node misses a chunk it indexes |
| SettledReads.CanReadBackIff | client/client/readFile.ts:23-47 | some replica choice returns the file if and only if it is non-empty and every id, listed or due, can be had in full from a registered node that indexes it |
| SettledReads.AlwaysCutShortIff | client/client/readFile.ts:20-47 | every read returns true with less than the file if and only if something is indexed, every indexed chunk is there, and some id cannot be had in full |
| SettledReads.ReadIsWholeIff | client/client/readFile.ts:23-47 | a successful read never yields more than the file, and yields it if and only if every fetched part is whole and no id is missing |
| Misfiling.OneTurnLosesAChunk | storageLayer/state/fileState.c:55-57 | two files uploaded turn by turn to one node, f ahead by a chunk: every read of f returns true without it, some read of g fails |
| Misfiling.TwoTurnsHideTheLoss | storageLayer/state/fileState.c:55-57 | one turn later f still comes back short and no read of g fails; a two-chunk g reads back exactly |
| Misfiling.LoneRunSettles | workspace/master/src/tcp_connection_to_storage/tcp_handler.rs:45-61 | every defined run of one node is the history of the only member of some reachable settled cluster |
| SettledReads.HonestRead | client/client/readFile.ts:20-47 | where indexed chunks are there in full a read succeeds if and only if something is indexed, and returns the file if and only if nothing is missing |
| SettledReads.SomeReadAsks | client/client/readFile.ts:26-43 | whichever registered node indexes an id, some random choice of replica fetches the id from that node |
| Chunks.WholeFileIff | client/client/readFile.ts:23-47 | slices over a strictly increasing list are the file if and only if the list has every id |
| Chunks.CutPartsIff | client/client/readFile.ts:23-47 | parts that may be cut put together are the file if and only if none is cut and no id is missing; otherwise they are shorter |
| SettledReads.ListedIff | workspace/master/src/state/storage_unit.rs:78-117 | in a settled cluster an id is listed, and is located, if and only if a registered node indexes it |
| Reports.DrainedReportsSettle | workspace/master/src/tcp_connection_to_storage/tcp_handler.rs:37-84 | after traffic in which every open connection reported and its queue drained, every view is its node's index |
| Reports.DrainingScheduleExists | workspace/master/src/tcp_connection_to_storage/tcp_handler.rs:37-84 | such traffic exists from every system that keeps the registry invariant |
| EndToEnd.EmptyFileIsUnreadable | client/client/readFile.ts:20-23 | in every settled cluster to which an empty file was uploaded its read fails |
| Deletion.DeleteReachesMaster | workspace/master/src/state/storage_unit.rs:78-117 | from a settled, drained cluster: deletes of f at every open node that holds it, in any order among quiet traffic, then reports that drain; f has no location and no chunk list, and every other file's answers are unchanged |
| Deletion.CleanupRun | storageLayer/httpServer/deleteFile.c:50-59 | in any such run exactly the nodes that got a delete request have lost exactly that file, and membership stays |
| History.ViewIsHistory | workspace/master/src/tcp_connection_to_storage/tcp_handler.rs:45-61 | in every reachable system a registered view is empty or the node's index at a past moment |
| History.ViewNeverMovesBack | workspace/master/src/state/connection_data_internal.rs:13-17 | that moment never decreases along a run |
| History.DeliveredReportIsCurrent | storageLayer/state/fileState.c:99-121 | if the index has not changed since a report and that report has left the queue, the view equals the index |
| History.LogIsChronological | storageLayer/main.c:12-23 | a process sends one Join first and then snapshots of its index at strictly later moments |
| History.HealthUpdatesOne | workspace/master/src/state/storage_unit.rs:41-55 | a health frame replaces the files of exactly one connection and changes nothing else |
| History.DroppedStaysOut | workspace/master/src/tcp_connection_to_storage/tcp_handler.rs:79-84 | after a connection ends, no entry with its id ever reappears |
| History.MasterHistory | workspace/master/src/state/storage_unit.rs:17-76 | every cluster run is, for the master, a history of registry operations that goes through exactly the same masters |
| History.ClusterCursorSafety | workspace/master/src/state/storage_unit.rs:17-76 | in every cluster run with at most `limit` members the cursor stays below `limit`, is -1 exactly while nobody ever registered, and a step serves an open connection if and only if one is registered |
| History.ClusterPicksAreFair | workspace/master/src/state/storage_unit.rs:61-76 | from any reachable system and cursor, while membership is stable, the cursor steps of a run choose every member floor(k/n) or ceil(k/n) times |
| History.ReachableListedIffLocated | workspace/master/src/state/storage_unit.rs:78-117 | in every reachable system, however stale its views, an id is listed if and only if it has a location |
| History.DisciplinedClustersAgree | storageLayer/httpServer/getFileDescriptor.c:12-28 | if a process's own run is disciplined its index is its disk and the guarded lookup opens exactly the chunks on disk |
| Cluster.ReachableInvariant | workspace/master/src/tcp_connection_to_storage/tcp_handler.rs:28-84 | every reachable system, whatever its writes do, has unique registry ids belonging to open connections, Join before every report, and sound nodes |
| History.NodeIsItsRun | storageLayer/httpServer/httpMain.c:177-182 | in every cluster run a process is in the state that its own handled saves and deletes lead to, and all of them were defined |
| History.UploadsDefinedIff | storageLayer/state/fileState.c:55-57 | a reachable process can handle every upload if and only if its index has an entry or no directory has a file |
| History.UploadsStayDefined | storageLayer/state/fileState.c:55-57 | a process none of whose short writes started a file handles every next upload |
| Cluster.InsertView | workspace/master/src/state/storage_unit.rs:25-34 | a join adds an empty view for its id and leaves the others |
| Cluster.UpdateView | workspace/master/src/state/storage_unit.rs:41-55 | a report sets the view of its id if registered and leaves the others |
| Cluster.RemoveView | workspace/master/src/state/storage_unit.rs:36-39 | a removal takes away the view of its id and leaves the others |
| Storage.SaveIs | storageLayer/state/fileOperation.c:35-70 | the outcome of a save and, path by path and entry by entry, the new tree and index, over all write outcomes |
| Storage.DeleteIs | storageLayer/httpServer/deleteFile.c:50-59 | after a delete exactly the paths not below the file's directory are left, with their contents; it fails, changing nothing, exactly when the directory is missing |
| Storage.HasFilesIs | storageLayer/state/fileOperation.c:95-112 | a directory has files exactly when a regular file lies directly in it |
| Storage.SaveKeepsAgreementIff | storageLayer/state/fileOperation.c:43-69 | a save keeps index and disk in agreement if and only if it is disciplined, over all write outcomes |
| Storage.SaveKeepsConsistentIff | storageLayer/state/fileState.c:41-60 | a save keeps index names and non-empty directories matched if and only if it is not a short write that starts a file |
| Storage.SaveKeepsSound | storageLayer/state/fileOperation.c:43-69 | every defined save, however its write went, keeps names unique, entries non-empty and every named file on disk |
| Storage.EverySaveIsDefinedIff | storageLayer/state/fileState.c:55-57 | every possible save finds the entry it needs if and only if the index has an entry or no directory has a file |
| Storage.NextSaveIsDefinedIff | storageLayer/state/fileOperation.c:46-67 | from a consistent node a save is defined, and every save after it is if and only if it was not a short write of a missing chunk into a node with an empty index |
| Storage.InsertEffect | storageLayer/state/fileState.c:44-57 | an insertion adds exactly one (file, chunk) pair, under the name of the last entry, which is not always the uploaded file |
| Storage.LookupIsLossless | storageLayer/httpServer/getFileDescriptor.c:12-28 | in an agreeing node the lookup opens a chunk exactly when it is on disk and yields its bytes |
| NodeRuns.DisciplinedRunsAgree | storageLayer/state/fileState.c:29-97 | every disciplined run of saves and deletes from empty ends in agreement with no chunk id listed twice |
| NodeRuns.AgreeThroughoutIff | storageLayer/state/fileState.c:29-97 | index and disk agree at every moment of a run, whatever its writes do, if and only if the run is disciplined |
| NodeRuns.ConsistentThroughoutIff | storageLayer/state/fileState.c:41-97 | names are unique and equal to the non-empty directories at every moment of a run, disciplined or not, if and only if no short write starts a file |
| NodeRuns.DefinedRunsAreSound | storageLayer/state/fileState.c:41-97 | every defined run with any failing and short writes keeps names unique, entries non-empty and every named file on disk |
| NodeRuns.InterleavedUploadMisfiled | storageLayer/state/fileState.c:55-57 | any two files uploaded turn by turn: the exact index and disk; f's last chunk is on disk, the lookup misses it, and the index has it under g |
| NodeRuns.DeleteEffect | storageLayer/httpServer/deleteFile.c:50-59 | a delete succeeds exactly when the directory exists, removes that file's chunks and its one entry, and leaves every other file's pairs, lookups and order |
| NodeRuns.RemoveEntryCutsOne | storageLayer/state/fileState.c:64-80 | removal is the old sequence with the first entry of the name cut out, or unchanged |
| NodeRuns.RepeatsChangeNothing | storageLayer/state/fileOperation.c:43-48 | the first upload attempt that opens the file decides: all repetitions, whatever their bodies and writes, change nothing and answer success |
| NodeRuns.RetryAfterShortWrite | storageLayer/state/fileOperation.c:43-66 | after a short write the retry answers success, the chunk stays cut and is not indexed |
| NodeRuns.ContentImmutable | storageLayer/state/fileOperation.c:43-69 | in every run whose saves are all defined, what a chunk holds never changes until its file is deleted, also through failing writes |
| NodeRuns.ShortWriteIff | storageLayer/state/fileOperation.c:46-67 | after a run that starts no file short, one more upload leaves every continuation defined if and only if it is not a short write of a missing chunk into a node whose index is empty |
| NodeRuns.DefinedRunExtendsIff | storageLayer/state/fileState.c:55-57 | after any defined run whatever comes next is defined if and only if the index has an entry or no directory has a file |
| NodeRuns.ShortWriteMakesNextSaveUndefined | storageLayer/state/fileOperation.c:58-67 | the failing runs: an empty index, fresh or emptied, a short write of a first chunk, then any other chunk of the file |
| StorageNode.NodeState.PushChunkId | storageLayer/state/fileState.c:29-39 | appends the id to one entry and changes no other |
| StorageNode.NodeState.InsertToStruct | storageLayer/state/fileState.c:41-60 | the reallocated array becomes the specified insertion |
| StorageNode.NodeState.ShiftDown | storageLayer/state/fileState.c:77-79 | the shift loop leaves the old sequence without the element at the gap |
| StorageNode.NodeState.RemoveFromStruct | storageLayer/state/fileState.c:62-97 | search, shift and shrink give the specified removal |
| StorageNode.NodeState.Snapshot | storageLayer/state/fileState.c:108-120 | a health report lists exactly the index, in order |
| StorageNode.NodeState.DirectoryHasFiles | storageLayer/state/fileOperation.c:95-112 | true exactly when some regular file lies directly in the directory |
| StorageNode.NodeState.SaveChunkToFile | storageLayer/state/fileOperation.c:35-70 | the whole new node and whether the call returns true, false or has no defined behaviour, over all nodes and write outcomes |
| StorageNode.NodeState.DeleteFile | storageLayer/httpServer/deleteFile.c:50-59 | the whole new node and the returned flag, as characterised by `Storage.DeleteIs` |
| StorageNode.NodeState.GetFileDescriptor | storageLayer/httpServer/getFileDescriptor.c:9-29 | the nested loops find a chunk exactly when some entry of the name lists it and the file opens |
| FileTree.FileSystem.RemoveDirectory | storageLayer/httpServer/deleteFile.c:9-48 | terminates; 0 and precisely the subtree gone when the path is a directory, else -1 and nothing changed |
| FileTree.WithoutIs | storageLayer/httpServer/deleteFile.c:9-48 | removing a subtree removes exactly the paths that start with its root |
| Registry.LocationsMeaning | workspace/master/src/state/storage_unit.rs:78-91 | exactly the addresses that report the pair, each once, in order of first holding connection |
| Registry.LocatedIff | workspace/master/src/state/storage_unit.rs:78-91 | an address is returned if and only if some connection with it reports the pair |
| Registry.ChunksForFileMeaning | workspace/master/src/state/storage_unit.rs:101-117 | strictly increasing, and exactly the ids of each connection's first mapping with the name |
| Registry.ListedChunksAreLocated | workspace/master/src/state/storage_unit.rs:93-117 | on one master state the locations of the listed ids have the same length and no empty entry |
| Registry.ListsEverythingIff | workspace/master/src/state/storage_unit.rs:78-117 | in any registry the list misses nothing that is located if and only if every reported id of the file is in some connection's first mapping for it |
| Registry.DuplicateNameHidesChunk | workspace/master/src/state/storage_unit.rs:104-111 | in a registry of one connection that reports a file in exactly two mappings, an id that only the second has is located but not listed |
| RoundRobin.CursorSafety | workspace/master/src/state/storage_unit.rs:17-76 | with at most `limit` connections at all times the cursor stays below `limit`, is -1 exactly while nothing was inserted, and an increment serves a live connection if and only if there is one |
| RoundRobin.RoundRobinIsFair | workspace/master/src/state/storage_unit.rs:61-76 | with fixed membership and any starting cursor, k increments choose each connection floor(k/n) or ceil(k/n) times |
| RoundRobin.PicksAreCyclic | workspace/master/src/state/storage_unit.rs:65-69 | reports between increments do not disturb the circle the cursor walks |
| RoundRobin.PicksFromCursor | workspace/master/src/state/storage_unit.rs:65-69 | with fixed membership of n the k-th position chosen after a cursor c is c + 1 + k up to multiples of n, also from a cursor beyond the end; k from a cursor never set |
| RoundRobin.OthersKeepCursor | workspace/master/src/state/storage_unit.rs:25-55 | joins, removals and reports leave a set cursor alone; the first join sets it to 0 |
| History.ClusterPicksFromCursor | workspace/master/src/http_handlers/get_server_to_write_chunk_and_chunkid.rs:10-18 | the same for the cursor steps of any cluster run from any reachable system |
| History.RegistryIsInJoinOrder | workspace/master/src/state/storage_unit.rs:25-39 | in every reachable system the registry stands in the order of the steps at which the joins were handled |
| History.JoinStepIs | workspace/master/src/tcp_connection_to_storage/tcp_handler.rs:47-54 | that step is the delivery of the process's Join, the first of its frames |
| Registry.NextPositionIs | workspace/master/src/state/storage_unit.rs:65-69 | for every cursor, stale ones included, the next position p of n is in range and cursor + 1 is p plus whole rounds; 0 from a negative cursor |
| Registry.IncrementIs | workspace/master/src/state/storage_unit.rs:61-76 | who is served and what changes in one write step, also with no connection |
| Registry.InsertIs | workspace/master/src/state/storage_unit.rs:25-34 | the old registry is a prefix of the new one, the joiner comes last without files |
| Registry.RetainIs | workspace/master/src/state/storage_unit.rs:36-39 | a kept connection's new place is the number of kept ones before it; one with the id is cut out |
| Registry.UpdateIs | workspace/master/src/state/storage_unit.rs:41-55 | exactly the first connection with the id changes, and only its files |
| Registry.OtherFramesAreIgnored | workspace/master/src/tcp_connection_to_storage/tcp_handler.rs:45-65 | frames without a known message and undecodable ones change nothing |
| RoundRobin.ReplicaSetSize | workspace/master/src/http_handlers/get_server_to_write_chunk_and_chunkid.rs:8-24 | an uninterrupted request gets exactly min(r, n) distinct addresses |
| RoundRobin.ReplicasAreLive | workspace/master/src/http_handlers/get_server_to_write_chunk_and_chunkid.rs:19-24 | with a connection and r >= 1 the set is non-empty and every address is a live connection's |
| RoundRobin.CollectedWereLive | workspace/master/src/http_handlers/get_server_to_write_chunk_and_chunkid.rs:10-18 | whatever other threads do between its locked increments, a request collects at most one address per increment, each live at that moment, and none only if it never met a member |
| RoundRobin.CollectedIff | workspace/master/src/http_handlers/get_server_to_write_chunk_and_chunkid.rs:10-24 | the request collects exactly the addresses that its increments are served |
| RoundRobin.InterleavedIsRun | workspace/master/src/http_handlers/get_server_to_write_chunk_and_chunkid.rs:10-18 | an interleaved request is the registry history of the others' operations and its increments in lock order |
| RoundRobin.AloneIsUninterrupted | workspace/master/src/http_handlers/get_server_to_write_chunk_and_chunkid.rs:10-18 | without other threads that is the replica set of r uninterrupted increments |
| TcpStorage.TcpStorage.Insert | workspace/master/src/state/storage_unit.rs:25-34 | the new registry and cursor |
| TcpStorage.TcpStorage.Remove | workspace/master/src/state/storage_unit.rs:36-39 | the retain loop keeps exactly the connections with another id, in order, and leaves the cursor, which may go stale |
| TcpStorage.TcpStorage.UpdateState | workspace/master/src/state/storage_unit.rs:41-55 | the first connection with the id gets the files, or nothing changes |
| TcpStorage.TcpStorage.IncrementIndexAndReturnAddr | workspace/master/src/state/storage_unit.rs:61-76 | the new cursor and served address, without i32 overflow |
| TcpStorage.TcpStorage.GetLocation | workspace/master/src/state/storage_unit.rs:78-91 | the nested loops with their break return the specified locations |
| TcpStorage.TcpStorage.GetMultipleChunks | workspace/master/src/state/storage_unit.rs:93-99 | the pointwise lift of get_location |
| TcpStorage.TcpStorage.GetChunksForFile | workspace/master/src/state/storage_unit.rs:101-117 | the nested loops and the sort return the specified list |
| TcpStorage.TcpStorage.ReturnServerToWriteChunk | workspace/master/src/http_handlers/get_server_to_write_chunk_and_chunkid.rs:7-26 | with arbitrary registry operations of other threads between its increments: the collected addresses without duplicates, in any order, and the final registry and cursor |
| TcpStorage.TcpStorage.ServeConnection | workspace/master/src/tcp_connection_to_storage/tcp_handler.rs:37-84 | all frames handled in order among arbitrary operations of other connections, then no entry with the connection's id is left |
| TcpStorage.ReceiveAmongIsRun | workspace/master/src/tcp_connection_to_storage/tcp_handler.rs:37-78 | a read loop among others is the registry history of its joins and reports and the others' operations in lock order |
| Wire.FramingRoundTripIff | storageLayer/tcpClient/client.c:87-99 | the sent stream parses to the sent list if and only if every message is shorter than 2^32 bytes |
| Wire.TruncatedStream | workspace/master/src/tcp_connection_to_storage/tcp_handler.rs:39-76 | a cut stream parses to exactly the messages whose frames are complete |
| Wire.SizeReadsBack | storageLayer/tcpClient/client.c:87 | the big-endian size reads back modulo 2^32 |
| Wire.SizeIsBigEndian | storageLayer/tcpClient/client.c:87 | the size goes out most significant byte first |
| Wire.SendAll | storageLayer/tcpClient/client.c:111-129 | terminates under partial sends and finitely many interruptions; true exactly when the whole buffer went out, else a proper prefix; it gives up at the first failed send and at nothing else |
| Wire.SendMessages | storageLayer/tcpClient/client.c:83-99 | what reaches the wire parses to a prefix of the messages, and to all of them when it returns true; it stops at the first failed send and at nothing else |
| Wire.ReadLoop | workspace/master/src/tcp_connection_to_storage/tcp_handler.rs:37-78 | the read loop yields the payloads of all complete frames |
| Http.ConnectionInfo.Append | storageLayer/httpServer/httpMain.c:35-48 | one fragment is appended to the body received so far |
| Http.AnswerToConnection | storageLayer/httpServer/httpMain.c:19-161 | first call allocates, a fragment of a post accumulates, any other call dispatches with the whole body received |
| Http.ServeRequest | storageLayer/httpServer/httpMain.c:19-161 | for every split of the body the dispatch sees the exact concatenation; other methods answer at once and ignore their body |
| Http.ServeRequests | storageLayer/httpServer/httpMain.c:19-161 | a fresh mutable node serving any sequence of requests, whatever its writes do, is at all times the specified run of saves and deletes and answers as specified, up to the first request without defined behaviour |
| Http.PostIsSave | storageLayer/httpServer/httpMain.c:55-76 | a client's upload is exactly a save under the same id; 200 means the chunk was there or was written in full and filed |
| Http.GetIsLookup | storageLayer/httpServer/httpMain.c:81-121 | a client's download is 200 with the bytes exactly when the guarded lookup finds them |
| Http.DeleteRequestIsDelete | storageLayer/httpServer/httpMain.c:126-142 | 200 when the file had a directory, 500 and no change otherwise; either way nothing of the file remains |
| Http.SecondDeleteFails | storageLayer/httpServer/httpMain.c:126-142 | after a delete request nothing of the file's directory is left, and the same request again answers 500 and changes nothing |
| Http.RepliesAre | storageLayer/httpServer/httpMain.c:55-150 | status and page of every request that does not reach the node, which then stays unchanged |
| Http.ServedRepliesAre | storageLayer/httpServer/httpMain.c:55-150 | status and page of every request that reaches the node |
| Http.NullPageIff | storageLayer/httpServer/httpMain.c:66-71 | the response has no page exactly when an upload of a missing chunk could not be written in full |
| Http.CrashIff | storageLayer/state/fileState.c:55-57 | a request has no defined behaviour exactly when a missing chunk is written in full into a directory with files while the index is empty |
| Text.AtoiInvertsDecimal | storageLayer/httpServer/httpMain.c:65 | the chunk id a client or a path writes in decimal reads back as itself |
| Text.AtoiReads | storageLayer/httpServer/httpMain.c:65 | atoi on every text: white space, one sign, decimal digits up to the first other character |
| Text.DecimalIs | storageLayer/state/fileOperation.c:42 | a decimal id is a minus sign if negative and digits without leading zeros of that value |
| Chunks.ChunkCountIs | client/client/insertFile.ts:11-13 | a file of length > 0 has n chunks with 8192 (n - 1) < length <= 8192 n, an empty file none |
| Chunks.SliceIs | client/client/insertFile.ts:16-18 | chunk c holds the bytes from 8192 c on: 8192 of them, the last chunk the rest |
| Chunks.Slice | client/client/insertFile.ts:16-18 | every chunk has at least one byte and at most a chunk's size |
| Chunks.SlicesPartition | client/client/insertFile.ts:11-18 | the slices in order are the file |
| Upload.World.ServerToWrite | workspace/master/src/http_handlers/get_server_to_write_chunk_and_chunkid.rs:8-24 | with other traffic between the locked steps: at most r distinct addresses of running members, at least one; exactly the replica set when alone |
| Upload.World.PostUntilStored | client/client/insertFile.ts:24-43 | the retry loop ends with the chunk at the address and nothing else written anywhere, however often requests or replies were lost |
| Upload.InsertFile | client/client/insertFile.ts:7-48 | true; every stored chunk is its 8192-byte stretch of the file and indexed, there are as many chunks as the file has such stretches, agreement and all other files are kept, and each chunk is exactly at its placement: at most r addresses, at least one if a member was registered, the next min(r, members) of the circle for a lone client; no node changed if and only if nothing was placed |
| Upload.InsertAlone | client/client/insertFile.ts:15-47 | for a lone client with a non-empty file: every chunk is stored if and only if r >= 1 and a member is registered, no node changes otherwise, and each chunk is at exactly min(r, members) addresses |
| Upload.LonePlacement | client/client/insertFile.ts:20-22 | a lone client's placement: all chunks placed if and only if min(r, members) >= 1, none if and only if it is 0, and that many copies of each |
| Upload.LoneClientCopies | workspace/master/src/http_handlers/get_server_to_write_chunk_and_chunkid.rs:8-24 | successive requests of a lone client each get min(r, members) addresses |
| Placement.PlacedIff | client/client/insertFile.ts:20-22 | under any traffic a chunk is on a registered node if and only if its placement is not empty |
| Placement.SliceIsSaved | storageLayer/state/fileOperation.c:43-69 | a save during a one-after-another upload succeeds, is filed under its own name and keeps the node in agreement |
| Download.ReadFile | client/client/readFile.ts:8-48 | true exactly when every guard, fetch and append succeeds; the output is the fetched parts in list order up to the first failure |
| Download.Choose | client/client/readFile.ts:26-28 | the random index always selects one of the replicas |
| Download.ChooseIs | client/client/readFile.ts:26-28 | a random number in the j-th of as many equal parts of the unit interval selects the j-th replica |

## Left out

- Upload.InsertFile: only reports, their delivery and other clients' cursor steps run between its requests, and its own disk writes succeed; another upload or delete at the same time is covered by `EndToEnd.ReadSafety`, `EndToEnd.ReachableReadsBackIff` and the failing runs in `Misfiling`, a short write by `NodeRuns.RetryAfterShortWrite`. The master is assumed to answer `/server_to_write` (otherwise the client iterates over null and throws), and failed requests are finitely many.
- Upload.World.ServerToWrite: no disconnects between the cursor steps; those are in `RoundRobin.CollectedWereLive`.
- Upload.World.PostUntilStored: as InsertFile.
- EndToEnd.InsertThenRead: as InsertFile.
- EndToEnd.RoundTrip: reading is answered on one settled state, and open connections have distinct addresses.
- StorageNode.NodeState.PushChunkId: the per-entry id buffer is a sequence, so its own reallocation and the struct copies that share it during the shift are not modelled.
- FileTree.FileSystem.RemoveDirectory: lstat, unlink and rmdir never fail for reasons of the operating system, and the 1024-byte path buffer never truncates.
- Http.AnswerToConnection: allocation failures, fstat failure and the success text's format.
- Text.AtoiInvertsDecimal: ids beyond the range of a C int.
- Names containing `/`, 512-byte path truncation, and restarting a node over leftover data.
- The protobuf codec: messages are values on FIFO channels, frames are opaque bytes.
- The ping's content and its newline trimming: a ping is only the trigger of a report.
- client/client/removeFile.ts: it iterates array indices instead of addresses, so deletion is modelled at the node.
- `get_file_locations`: its duplicate test compares the file name with addresses; nothing above uses it.
- `get_file_list`, `getNextChunkNumber`, printing, sockets, timers and threads.
