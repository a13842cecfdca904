# Replication and control plane of ZincSearch, verified

ZincSearch nodes build their indexes from one stream of messages, which a coordinator fills. This
project models that path and its control plane in Dafny and proves what holds over every run:
crashes, lost acknowledgements, failed writes and interleavings included.

* `Replication.dfy` gives the meaning of a message as operations on a node's view, and a theory of
  nodes that are somewhere *between* two positions of the stream. Repeating any part of the stream
  leads such a node to the exact state. `Messages.dfy` says what each kind of message means for a
  client, and that documents without an ID never replace each other.
* `NodeDisk.dfy` and `NodeInvariant.dfy` are a node as a value: its indexes in memory, shard logs, which
  a crash may leave short even of entries that were committed, the stored metadata, which may lag
  behind memory and may not know every second-level shard, and what every step keeps.
* `Consumer.dfy` is the consumer: the applier, the stream server with its cursor and retention, fetch,
  apply, flush, save and acknowledge, crashes, backups, restores. `ConsumerRuns.dfy` has the results
  about whole runs and `FailingRuns.dfy` the runs on which a node loses something.
* `ShardWal.dfy` and `ShardConsumer.dfy` are one index shard: merging logged actions per document,
  writing them to second-level shards between two redo records, recovery, truncation.
  `ShardRefinement.dfy` shows that this is what the node's shards do, harmed shards included.
* `Buffer.dfy` and `Publisher.dfy` are the coordinator's disk buffer, down to its bytes, and the
  direct and buffered paths into the stream; `BufferedPublisher.dfy` joins the two.
* `StateStore.dfy`, `RQLite.dfy`, `Lease.dfy` and `Failover.dfy` are the compare-and-swap store, its
  two implementations, leader election, and the choice of the master node.
* `PauseHandshake.dfy` is the handshake between Pause, Resume, Stop and the consumer's run loop.
* `Backups.dfy` and `Restore.dfy` prune stored backups and put one in place.
* `TopK.dfy` merges the results of several shard readers; `Ingest.dfy` splits documents into messages.

`dafny verify dfyconfig.toml` checks everything.

Code that one goroutine runs is imperative here: classes and methods with loops. Where several
goroutines or processes interleave (publisher and drain, rqlite clients, leases, coordinator
instances, the pause handshake), each atomic section is one event of a state machine, and results
are lemmas about every sequence of events. A flag `quiet` on a method means that the environment
causes no failure during the call; it is how progress is stated next to safety. I/O, clocks and
the choices of the network are parameters or nondeterministic choices.

## Findings

Properties that hold only under a condition have their exact condition, and a concrete input
shows that it is needed.

* A node that restarts, or is restored from a backup, has the mappings, indexes and second-level shards
  of the stored metadata, and of each log what is on disk. A restarted node stands at its offset exactly
  when no change of a mapping and no deletion up to the offset is missing from the stored metadata,
  and every shard came out sound: its log reaches the entries that were committed or begun, and no
  second-level shard was left behind (`CrashHolds`, `Crash`). No crash can do harm exactly when moreover
  these entries are on disk and the metadata knows the documents' shards (`CrashesAreHarmless`,
  `DurableIff`). A backup of a drained node is good exactly when the mappings, deletions and
  second-level shards are in the stored metadata (`BackupHolds`, `CreateBackup`).
* The condition can fail. Storing metadata can fail once and then be skipped: the next attempt at
  the message finds the field, or no index, in memory, and reports success (`UnstoredMappingRun`,
  `UnstoredFieldRun`, `DeletedIndexReturns`). A rejected document whose only field stays mapped stores
  nothing at all (`RejectedFieldRun`). The log consumer passes over a failed sync, and entries written
  after a crash take the numbers of committed ones (`SwallowedRun`). A new second-level shard receives
  documents although storing its existence failed (`UnknownShardRun`).
* It always holds when syncs of the log consumer and stores of metadata do not fail and no message is
  rejected after it changed a mapping (`AnyRun`). For a mapping, storing the metadata of the index once
  more before the offset is saved is enough (`StoreMetadata`, `Commit`).
* An operation on an index is applied alike by all nodes exactly when it is clean: accepted, or every
  unmapped field is the only one it is rejected for (`OneOutcomeIff`, `CleanIsDeterministic`). Whenever
  it has two outcomes, some later document is stored by one node and rejected by another: for a text or
  keyword field an array of a number and a word, for any other field a word (`DivergesIff`). Two plain
  documents, a number and then a word, tell the nodes apart for a text or keyword field, too
  (`PlainTellsApart`).
* An offset moves over applied messages only, exactly when no delivered message jumps ahead
  (`CoveredIffNoJump`); the live check sees the first message of a batch (`GapInsideBatch`).
* A save that reports failure although it stored the offset breaks convergence: the node applies
  older messages again, and a restart at the stored offset does not replace them (`LostSaveRun`).
  Reading the stored offset again after a failed save repairs it (`Reload`).
* One shard is recoverable after a crash exactly when its log still reaches the committed entry and the
  chunk that was begun, and second-level shards that the stored metadata does not know are empty
  (`IndexShard.Crash`); a successful sync and a successful store guarantee it. Otherwise entries get
  numbers that count as committed and are never applied (`LostLogRun`). A shard whose recovery failed is
  not consumed until the next restart (`IndexShard.Open`).
* Merging by first and last action is right exactly when a document whose first action is an insert
  is not stored (`MergeIsSequential`), and replaying a chunk is safe exactly when the document was
  not net-inserted (`ReplayIsSafe`). `RepeatedInsertDependsOnCut` shows an input.
* Zero pending entries imply that the shards equal the log. The converse fails
  (`EqualWhilePending`); it holds exactly when what is pending changes nothing (`ExactIff`).
* An update of the rqlite store is atomic exactly when the key exists or the expected revision is not
  the one that creating the key would give (`Linearizes`, `UnsafeFails`). Every revision that was once
  returned is safe (`ToldRevisionsAreSafe`). A lost second query is reported as a conflict, even
  for a key that never existed (`LostRecheckMisreports`).
* A message refused with an error can be in the stream exactly when its direct send lost its
  acknowledgement and the buffer then did not take it, which needs a failing disk or a message larger
  than the buffer (`UnsureIff`, `OversizedMayLeak`).
* When no delete fails, pruning keeps the backup to recover from exactly when retention is positive, a
  backup was verified, or none is usable (`PruneKeepsIff`); under that condition it does so whichever
  deletes fail (`PruneKeeps`).
* A restore that fails while it writes the metadata leaves a mixture of old and new keys; any other
  failure leaves the metadata alone (`RestoreArchive`, `LoadMetadata`).
* A Resume can overtake a waiting Pause, which then waits for a later one (`ResumeOvertakesPause`).

## Model

| member | source | states |
|---|---|---|
| Replication.CatchUp | pkg/streaming/consumer.go:395-459 | A node anywhere between two positions that applies all that follows the first one ends like a node that applied every operation once |
| Replication.ReplayConverges | docs/streaming.md:58-74 | Replaying operations p..q on a node between p and q gives exactly the state at q |
| Replication.StepBetween | pkg/streaming/apply.go:93-270 | Performing the next operation, with any outcome it may have on a node, moves the node from between p and q to between p+1 and q |
| Replication.HalfBetween | pkg/streaming/apply.go:116-145 | An operation that stops in the middle leaves the node between the same position and the one after the operation |
| Replication.CaughtUp | docs/streaming.md:68-74 | A node between q and q is exact |
| Replication.BlockIdempotent | docs/streaming.md:58-61 | Any contiguous block of messages applied again right after itself changes nothing |
| Replication.TailIdempotent | pkg/streaming/consumer.go:286-296 | So does any tail of a block, cut between any two operations |
| Replication.LastStoreWins | pkg/streaming/apply.go:105-109 | Documents are last-wins: what the last storing operation since the last deletion stored |
| Replication.DropClears | pkg/streaming/apply.go:204-209 | After a deletion only documents stored later exist |
| Replication.FirstDefinitionWins | pkg/streaming/apply.go:231-251 | A mapped field keeps its definition until the index is deleted |
| Replication.CleanIsDeterministic | pkg/core/index_shards_document.go:162-188 | Every outcome of an operation is that of the exact run, exactly when it is clean: accepted, or every unmapped field is the only one it is rejected for |
| Replication.OneOutcomeIff | pkg/core/index_shards_document.go:162-188 | A rejected operation leaves the same behind on every node exactly when it is clean |
| Replication.DivergesIff | pkg/core/index_shards_document.go:155-337 | Whenever an operation has two outcomes, and only then, some later document is stored by one node and not by another; whatever the kind of the field left behind, a single document that can be received does it |
| Replication.PlainTellsApart | pkg/core/index_shards_document.go:231-337 | For a text or keyword field so do two plain documents, a number and then a word |
| Replication.RejectedDocumentDiverges | pkg/core/index_shards_document.go:162-188 | So after every document that is rejected for one field and brings another, unmapped one |
| Messages.NamesDiffer | pkg/streaming/apply.go:101-130 | Documents without an ID get different names exactly when they have different places in the stream, alone or in a batch; an ID that was given is kept |
| Messages.IndexMessages | pkg/streaming/apply.go:147-209 | A message that can never be applied changes nothing; create_index makes an index with its mapping and no documents, or changes nothing where the index exists; delete_index removes the index and nothing else |
| Messages.SetMappingMessage | pkg/streaming/apply.go:211-270 | A mapping adds its fields to those present, which keep their definitions, unless one is mapped differently; then no definition changes; documents and other indexes stay |
| Messages.DocMessage | pkg/streaming/apply.go:93-114 | A message with one document stores exactly that document, if every field fits |
| Messages.BatchStores | pkg/streaming/apply.go:116-145 | A batch stores each document that fits, under its ID or a name of its own, the last one where IDs repeat, and changes no other document |
| Messages.UnnamedBatch | pkg/streaming/apply.go:123-131 | n documents without IDs that fit become n documents, each under a name that no other has |
| Messages.AllStored | pkg/streaming/apply.go:93-145 | A stream of documents without IDs, however they are batched, leaves as many documents as were sent |
| Messages.NothingReplaced | pkg/streaming/apply.go:93-145 | No such document ever replaces an earlier one |
| NodeDisk.DiskStepIsStep | pkg/core/index_document.go:28-48 | Accepting a document into the log of its shard is performing the operation on the node's view |
| NodeDisk.DiskHalfIsHalf | pkg/core/index_shards_document.go:190-198 | In memory, stopping after the mapping was extended and before the log was written, or after an index was forgotten, is half an operation |
| NodeDisk.ConsumedView | pkg/core/index_shards_wal.go:140-238 | Moving any log entries into the shards, synced or not, does not change the view |
| NodeDisk.HoleSwallows | pkg/core/index_shards_wal.go:141-166 | Where a log is short of committed entries, a new entry counts as one of them and its document is lost; otherwise it becomes what the shard holds |
| NodeDisk.HoleStays | pkg/core/index_shards_wal.go:149-166 | Where a log is short of committed or begun entries, the log consumer applies nothing |
| NodeDisk.SafeIff | pkg/core/index_shards_wal.go:141-166 | A crash leaves a shard sound, whatever it takes, exactly when what was committed or begun is on disk and the metadata knows the shard's documents |
| NodeDisk.CrashKeeps | pkg/core/stream.go:27-40 | Losing any part of an unsynced tail leaves every document that the tail does not name as it was |
| NodeInvariant.StepHolds | pkg/streaming/consumer.go:425-440 | Every performed operation keeps the node's invariant |
| NodeInvariant.HalfHolds | pkg/streaming/consumer.go:425-440 | So does, in memory, every operation that fails in the middle |
| NodeInvariant.Performs | pkg/streaming/apply.go:93-270 | A performed operation keeps the node with its stored metadata; what the offset needs on disk stays there, and metadata that is stored whenever memory changed stays up to date |
| NodeInvariant.Fails | pkg/streaming/apply.go:116-145 | So does a failed one, with the message's operations counted as not performed |
| NodeInvariant.CrashHolds | pkg/core/loadindexes.go:30-108 | After a crash that takes any unsynced part of each log, committed entries included, second-level shards that the metadata does not know, and what memory had beyond the metadata, the node is between its saved offset and the furthest position it attempted, exactly when no definition and no deletion up to the offset is missing from the metadata and every shard came out sound |
| NodeInvariant.CrashesAreHarmless | pkg/core/index_shards_wal.go:141-166 | All crashes leave the node at its offset exactly when the stored metadata has every definition and deletion up to it and, but for indexes that will be deleted, every committed or begun entry is on disk and no document is in a second-level shard the metadata does not know |
| NodeInvariant.RestartStands | pkg/core/loadindexes.go:30-108 | The same for the whole node with its metadata; where no crash could do harm, none can after the restart |
| NodeInvariant.CheckIsLasting | pkg/core/newindex.go:161-174 | The condition on the metadata only concerns indexes that the stored metadata or the messages up to the offset know |
| NodeInvariant.UpToDateLasts | pkg/streaming/apply.go:256-269 | An offset saved while the stored metadata is that of memory, but for indexes that will be deleted, satisfies the condition on the metadata |
| NodeInvariant.RejectedLeavesNothing | pkg/core/index_shards_document.go:155-198 | A message that is rejected without bringing an unmapped field leaves nothing in memory that would have to be stored |
| NodeInvariant.FlushHolds | pkg/streaming/apply.go:71-91 | After a successful flush nothing up to the new offset depends on an unsynced log entry |
| NodeInvariant.SyncHolds | pkg/streaming/apply.go:77-90 | After a flush that fails, which empties the set of touched indexes, the node stands at its saved offset, and all it may still lose will be applied again |
| NodeInvariant.ConsumeHolds | pkg/core/index_shards_wal.go:140-238 | The log consumer running beside the stream consumer, whether or not its syncs succeed, keeps the invariant |
| NodeInvariant.BackupHolds | pkg/backup/create.go:68-176 | A backup of a drained node can be restored exactly when the stored metadata has every definition and every deletion up to its offset and knows every second-level shard with documents, but for indexes that will be deleted |
| NodeInvariant.RestoredNode | pkg/backup/restore.go:66-105 | A node restored from a good backup stands at its offset, with its metadata up to date |
| StreamConsumer.CheckGap | pkg/streaming/consumer.go:377-391 | Consuming continues right after the offset or where the stream begins, or fails exactly when the stream was trimmed past the offset and gaps are not allowed |
| StreamConsumer.Prepare | pkg/streaming/consumer.go:332-350 | A cursor is created exactly when nothing is missing, or gaps are allowed, and the position lies within the stream |
| StreamConsumer.CheckDocument | pkg/core/index_shards_document.go:155-337 | A document is accepted exactly when every field fits its definition, its own natural one included; a single scalar always fits that. Unmapped fields are learned by what their first scalar looks like: numbers as numeric, booleans as bool, dates as dates of their layout, other strings as text; mapped fields keep their definition. A rejected document leaves those visited before it was stopped |
| StreamConsumer.AcceptsIff | pkg/core/index_shards_document.go:231-337 | Field by field and scalar by scalar: anything is text or a keyword, numbers and booleans can be read as each other, dates in their own layout, and whatever can be parsed |
| StreamConsumer.Consumer.CreateDocument | pkg/core/index_shards_document.go:155-198 | A document is accepted, skipped or fails; the mapping changes in memory first, and only the attempt that changes it stores it |
| StreamConsumer.Consumer.ExtendMapping | pkg/streaming/apply.go:231-269 | A mapping is accepted exactly when it agrees with the definitions present; nothing is stored, and success reported, when memory has every field |
| StreamConsumer.Consumer.GetOrCreateIndex | pkg/core/newindex.go:136-147 | A missing index exists in memory only after its metadata was stored |
| StreamConsumer.Consumer.DeleteIndex | pkg/core/deleteindex.go:28-47 | The index is forgotten first; a second attempt succeeds without deleting the metadata |
| StreamConsumer.Consumer.ApplyDoc | pkg/streaming/apply.go:93-114 | A document message completes or is skipped with all its operations done, or fails with the position unmoved; durable metadata stays durable |
| StreamConsumer.Consumer.ApplyDocs | pkg/streaming/apply.go:116-145 | So does a batch; invalid documents are skipped, the others apply |
| StreamConsumer.Consumer.ApplySetMapping | pkg/streaming/apply.go:211-270 | So does a mapping |
| StreamConsumer.Consumer.ApplyDeleteIndex | pkg/streaming/apply.go:204-209 | So does a deletion |
| StreamConsumer.Consumer.Apply | pkg/streaming/apply.go:56-67 | Every message kind keeps the invariant and advances by exactly its operations, or fails and stays |
| StreamConsumer.Consumer.ApplyOne | pkg/streaming/consumer.go:463-484 | Retrying a message until it succeeds or the consumer is stopped keeps the order |
| StreamConsumer.Consumer.StoreMetadata | pkg/core/index.go:266-282 | Storing an index's metadata keeps the invariant, makes its second-level shards known, and keeps what is durable durable |
| StreamConsumer.Consumer.Background | pkg/core/index_shards_wallist.go:71-113 | Any rounds of the log consumer, with syncs and stores that fail, keep the invariant; with syncs and stores that succeed, also what is durable |
| StreamConsumer.Consumer.SyncWAL | pkg/core/stream.go:27-40 | Syncing every shard's log, going on after failures |
| StreamConsumer.Consumer.Flush | pkg/streaming/apply.go:71-91 | Success means that every touched index that still exists is fully synced; the set of touched indexes is empty either way |
| StreamConsumer.Consumer.Save | pkg/streaming/consumer.go:448-450 | The offset is the new one exactly when the save stored it, whatever it reports |
| StreamConsumer.Consumer.Crash | pkg/streaming/consumer.go:139-149 | After a crash at any time the node stands at its saved offset, exactly when the stored metadata was complete up to it and every shard came out sound; never lost when what was needed was on disk |
| StreamConsumer.Consumer.DurableIff | pkg/core/index_shards_wal.go:141-166 | What was needed is on disk exactly when every crash is harmless |
| StreamConsumer.Consumer.Interlude | pkg/core/index_shards_wallist.go:71-113 | Between two actions the log consumer may work and the process may die; with syncs and stores that succeed the node stays unharmed |
| StreamConsumer.Consumer.Commit | pkg/streaming/consumer.go:442-451 | Flush, save, then move the offset, with failures, crashes and the log consumer between any two; nothing is lost when the metadata is up to date at the save and syncs and stores succeed |
| StreamConsumer.Consumer.ApplyBatch | pkg/streaming/consumer.go:425-440 | The messages applied are those that the numbers of the batch say, in order, up to the first that fails |
| StreamConsumer.Consumer.Step | pkg/streaming/consumer.go:395-459 | The messages applied are a prefix of those that the numbers of the batch say, and all of them on success; the offset is what it was or the end of what was applied; a batch beyond the offset is refused |
| StreamConsumer.Consumer.Fetch | pkg/streaming/consumer.go:395-413 | From a cursor at most one ahead of the offset, whatever the server delivers follows on, is delivered again, or starts beyond the offset because the stream was trimmed past it |
| StreamConsumer.Consumer.RunOnce | pkg/streaming/consumer.go:255-304 | Cursor, fetch and step with retention at any time in between keep the node at its offset; without failures everything published is applied unless it was trimmed away |
| StreamConsumer.Consumer.Reload | pkg/streaming/consumer.go:139-149 | After a save that stored the offset and reported failure, reading it again makes the node valid |
| StreamConsumer.Consumer.ConsumeWAL | pkg/core/index_shards_wal.go:140-238 | A round that applies any first entries, synced or not, leaves the view and the invariant alone; what is durable stays so when the sync and, for a new second-level shard, the store succeed |
| StreamConsumer.Consumer.CaughtUpIsExact | pkg/streaming/consumer.go:442-451 | A node that reached all it ever attempted holds exactly the messages up to its offset |
| StreamConsumer.Consumer.ReplayIsExact | docs/streaming.md:70-74 | Whenever a node stands at its offset, replaying what follows gives the state of applying every message once in order |
| StreamConsumer.Consumer.WALPending | pkg/core/stream.go:46-72 | Pending is zero exactly when every log is empty |
| StreamConsumer.Consumer.Drain | pkg/streaming/service.go:69-87 | Draining empties every log that can be read and changes nothing that can be observed |
| StreamConsumer.Consumer.CreateBackup | pkg/backup/create.go:68-128 | A backup is made exactly when nothing is pending; it copies the stored metadata and the shards, labelled with the stored offset, and can be restored exactly when that metadata has all up to the offset and knows every second-level shard with documents, even if a failed step left data beyond it |
| StreamConsumer.Consumer.Restore | pkg/backup/restore.go:66-105 | A node restored from a good backup is a valid node at the backup's offset |
| StreamConsumer.CoveredIffNoJump | pkg/streaming/consumer.go:414-440 | The offset skips no message exactly when none in a batch jumps ahead |
| StreamConsumer.TakenInOrder | pkg/streaming/consumer.go:425-440 | Without a jump, the messages applied are those after the offset, one by one |
| StreamConsumer.GapInsideBatch | pkg/streaming/consumer.go:416-424 | A jump behind the first message of a batch goes unnoticed: a concrete batch |
| ConsumerRuns.RestoredNodeConverges | pkg/backup/restore.go:70-72 | Resumed after the offset of a good backup, the restored node reaches the state of a node that never stopped |
| ConsumerRuns.AnyRun | pkg/streaming/consumer.go:255-304 | Any run of publishing, trimming, steps, failures, crashes, redelivery, failing syncs and stores, draining, backups and restores ends in the exact state once the rest is fetched, unless a crash or a backup found the metadata incomplete or a shard unsound, the node went on past a save that lied, or the stream was trimmed past it; the first needs a failed sync or store, or a message rejected after it changed a mapping, and the second a lying save |
| FailingRuns.UnstoredMappingRun | pkg/streaming/apply.go:245-269 | For every field: a failed store, a retry that stores nothing, a restart, and the mapping is gone for good |
| FailingRuns.UnstoredFieldRun | pkg/core/index_shards_document.go:190-198 | The same for a field that a document brings |
| FailingRuns.DeletedIndexReturns | pkg/core/deleteindex.go:28-47 | A deletion whose metadata could not be deleted once is undone by a restart |
| FailingRuns.LostSaveRun | pkg/streaming/consumer.go:448-451 | A save that stores and reports failure, the first message applied again, a restart: the older document stays for good |
| FailingRuns.RejectedFieldRun | pkg/core/index_shards_document.go:155-198 | A document rejected for its one field leaves the field mapped; nothing stores it, and a restart loses it |
| FailingRuns.MixedArray | pkg/core/index_shards_document.go:231-337 | An array of a number and a word is such a document |
| FailingRuns.SwallowedRun | pkg/core/index_shards_wal.go:141-166 | For every two documents: a flush and the log consumer's sync fail, a crash takes the log, and the second message's document is swallowed although its flush and save succeed |
| FailingRuns.UnknownShardRun | pkg/core/index_shards.go:124-150 | For every two documents: the second one goes to a new second-level shard whose existence could not be stored, and a restart after the offset was saved does not find it |
| FailingRuns.DivergedIsLost | pkg/streaming/consumer.go:139-149 | Such a node does not stand at its offset |
| ShardWal.MergeIsSequential | pkg/core/index_shards_wal.go:376-438 | Merging by first and last action equals running a document's actions in order, exactly when a first insert finds nothing stored |
| ShardWal.WrittenMeans | pkg/core/index_shards_wal.go:349-449 | What a written chunk does to every document in every shard: by group the target shard alone, the latest shard alone, or the latest shard with all others losing it; by first and last action a copy more, the one copy, none, or no change |
| ShardWal.ReplayIsSafe | pkg/core/index_shards_wal.go:451-484 | Writing a chunk again is harmless exactly when the document was not net-inserted |
| ShardWal.CutIsFree | pkg/core/index_shards_wal.go:172-202 | Writing a log in two chunks or in one gives the same shards |
| ShardWal.CutsAreFree | pkg/core/index_shards_wal.go:164-202 | Wherever the batch sizes cut a log, the shards are the same |
| ShardWal.RepeatedInsertDependsOnCut | pkg/core/index_shards_wal.go:384-398 | Inserting a stored document again makes the result depend on the cut |
| ShardWal.RetryCompletes | pkg/core/index_shards_wal.go:440-448 | Completing an interrupted chunk, or a longer one from the same place, gives what it gives uninterrupted |
| ShardWal.LooseTrans | pkg/core/index_shards_wal.go:440-448 | Any number of interruptions of growing chunks amounts to one |
| ShardWal.WrittenSettles | pkg/core/index_shards_wal.go:366-449 | A complete chunk of updates and deletes leads from shards that hold exactly one fold of the log to the next, each document in at most one shard |
| ShardWal.GrownSettles | pkg/core/index_shards.go:124-150 | A new second-level shard changes nothing that is stored |
| ShardWal.ShrunkSettles | pkg/core/index_shards.go:139-148 | Losing the latest second-level shards does no harm exactly when they hold nothing and nothing pending names them |
| ShardWal.FoldAt | pkg/core/index_shards_wal.go:311-327 | Only the last action of a document decides what the log means for it |
| ShardConsumer.WalMergeDocs.AddDocument | pkg/core/index_shards_wal.go:311-327 | The map holds, per group and document, all actions in order and the newest content |
| ShardConsumer.WalMergeDocs.MaxShardLen | pkg/core/index_shards_wal.go:293-301 | The size reaches a bound exactly when some group mentions that many documents |
| ShardConsumer.WalMergeDocs.Reset | pkg/core/index_shards_wal.go:303-309 | Emptied, with its groups kept |
| ShardConsumer.BuildBatches | pkg/core/index_shards_wal.go:375-438 | The two batches say for each document what its first and last action demand of the target and of the other writers |
| ShardConsumer.BuildRollback | pkg/core/index_shards_wal.go:466-481 | Recovery removes exactly what was inserted |
| ShardConsumer.ChunkCommitted | pkg/core/index_shards_wal.go:187-200 | A completed chunk is committed whatever earlier attempts wrote of it |
| ShardConsumer.ChunkReaches | pkg/core/index_shards_wal.go:172-186 | A retried chunk ends no earlier than the attempt before |
| ShardConsumer.IndexShard.Write | pkg/core/index_document.go:38-47 | A logged update or delete adds one pending entry, and the shard stays recoverable; where the log is short of committed entries, the entry takes the number of one |
| ShardConsumer.IndexShard.LoggableIff | pkg/core/index_document.go:28-48 | What may be logged: updates and deletes of a document under one group while they are pending, that of all shards or the one shard where the document may be |
| ShardConsumer.IndexShard.Crash | pkg/core/index_shards_wal.go:39-72 | Losing unsynced entries and shards that are not in the stored metadata leaves a recoverable shard, exactly when the log reaches the committed entry and the begun chunk, and those shards hold nothing |
| ShardConsumer.IndexShard.SurvivesIff | pkg/core/index_shards_wal.go:141-166 | The condition that can be checked is that what is left can be recovered |
| ShardConsumer.CrashRecoverable | pkg/core/index_shards_wal.go:141-166 | The same as a statement about all logs, commits, attempts and shards |
| ShardConsumer.IndexShard.SafeSurvives | pkg/core/index_shards_wal.go:141-143 | What a successful sync and a successful store put on disk survives every crash |
| ShardConsumer.LostLogRun | pkg/core/index_shards_wal.go:141-166 | After a failed sync, a failed truncation and a crash, the next entry gets the number of a committed one and is never applied: a run for every document |
| ShardConsumer.IndexShard.TruncateFront | pkg/core/index_shards_wal.go:223-227 | Truncation, which may fail, keeps the number of every entry and drops none that is not committed |
| ShardConsumer.IndexShard.WriteToShard | pkg/core/index_shards_wal.go:349-449 | Of a group, exactly the writers told so far hold its effect, with a failure between any two |
| ShardConsumer.IndexShard.WriteTo | pkg/core/index_shards_wal.go:332-347 | All groups are written, in any order, or some writers only |
| ShardConsumer.IndexShard.CommitChunk | pkg/core/index_shards_wal.go:186-200 | Redo record, writes, redo record: the committed entry is the old one or the new one, and the shard is recoverable at any time |
| ShardConsumer.IndexShard.CommitWhenFull | pkg/core/index_shards_wal.go:185-202 | A chunk is committed as soon as a group is full |
| ShardConsumer.IndexShard.WriteChunks | pkg/core/index_shards_wal.go:169-220 | All entries up to the limit are committed, or the rest stays pending |
| ShardConsumer.IndexShard.CheckShards | pkg/core/index_shards.go:124-150 | An oversized latest shard is followed by a new, empty one, which the stored metadata knows only if the store succeeds |
| ShardConsumer.IndexShard.ConsumeWAL | pkg/core/index_shards_wal.go:140-238 | Returning true, and whenever nothing fails, it lowered the pending entries by exactly min(pending, 10240); failing anywhere, it leaves a recoverable shard; a failed sync and a failed truncation are passed over; where the log ends before the committed entry it does nothing |
| ShardConsumer.IndexShard.Rollback | pkg/core/index_shards_wal.go:74-137 | Recovery on open changes no stored update or delete and keeps every uncommitted entry |
| ShardConsumer.IndexShard.Open | pkg/core/index_shards_wal.go:39-72 | A shard is put into the list of those that are consumed exactly when its recovery succeeded; otherwise it takes a restart |
| ShardConsumer.IndexShard.WriteToShardRollback | pkg/core/index_shards_wal.go:451-484 | Recovery removes from a shard exactly the documents whose chunk began with an insert |
| ShardConsumer.IndexShard.NothingPendingIsExact | pkg/core/stream.go:42-45 | With nothing pending the shards hold exactly what the whole log says, each document in at most one shard |
| ShardConsumer.IndexShard.ExactIff | pkg/core/stream.go:42-72 | At a committed point they do so exactly when what is pending changes nothing |
| ShardConsumer.IndexShard.Drain | pkg/streaming/service.go:69-87 | Without writes and failures draining ends, with the shards equal to the log |
| ShardConsumer.AnyRun | pkg/core/index_shards_wal.go:39-238 | Any run of updates and deletes, whatever group they are addressed to, failing syncs, truncations, stores and consumption, crashes and failing recovery, drained, after a restart if the last recovery failed, ends equal to the log applied entry by entry unless a crash took what was committed, which needs a failed sync or store |
| ShardConsumer.EqualWhilePending | pkg/core/stream.go:42-45 | The shards can equal the log while an entry is pending |
| ShardRefinement.AlwaysFold | pkg/core/index_shards_wal.go:140-238 | At any time, also while a chunk is interrupted, the committed documents followed by the pending ones are the fold of the whole log |
| ShardRefinement.WorksIsSound | pkg/core/index_shards_wal.go:39-72 | A shard that can be recovered stands for a sound one, and one that no crash can harm for a safe one |
| ShardRefinement.StoredIsExact | pkg/core/index_shards_wal.go:140-238 | Between two chunks the second-level shards hold exactly the committed documents |
| ShardRefinement.Write | pkg/core/index_document.go:28-48 | Logging a document, whatever the state of the log, is what the node's shard does: appending, or taking the place of a committed entry that was lost |
| ShardRefinement.ConsumeWAL | pkg/core/index_shards_wal.go:140-238 | Consuming chunk by chunk, failing anywhere, with or without a successful sync, is moving some first entries of the node's log over at once; only documents of entries committed or begun can get into shards the metadata does not know; a log short of committed entries stays so |
| ShardRefinement.Crash | pkg/core/index_shards_wal.go:39-72 | Any crash of a shard is a crash of the node's shard, and the shard is lost exactly when that one is not sound |
| DiskBuffer.KeyOrder | pkg/coordinator/buffer/buffer.go:94-98 | Byte order of equally long keys is numeric order |
| DiskBuffer.KeyRoundTrip | pkg/coordinator/buffer/buffer.go:94-98 | Decoding a key gives its number |
| DiskBuffer.ValueRoundTrip | pkg/coordinator/buffer/buffer.go:100-105 | Decoding undoes encoding exactly when the ID has no NUL byte |
| DiskBuffer.Seek | pkg/coordinator/buffer/buffer.go:161-162 | The cursor finds the least key beyond the last one |
| DiskBuffer.NextItem | pkg/coordinator/buffer/buffer.go:161-164 | The cursor visits the items in queue order |
| DiskBuffer.Buffer.Check | pkg/coordinator/buffer/buffer.go:125-134 | Entries are refused exactly when one has a NUL in its ID or is too large, with the error of the first such one |
| DiskBuffer.RefusedFor | pkg/coordinator/buffer/buffer.go:125-134 | The first entry with a NUL in its ID or with more bytes of ID and data than the maximum decides the error |
| DiskBuffer.SizesOfOne | pkg/coordinator/buffer/buffer.go:125-134 | An entry has the size of its ID and its data |
| DiskBuffer.Buffer.Append | pkg/coordinator/buffer/buffer.go:122-155 | All entries are appended in order, exactly when all are acceptable, fit, and the transaction commits; otherwise nothing changes |
| DiskBuffer.Buffer.Peek | pkg/coordinator/buffer/buffer.go:157-168 | Returns exactly the oldest n items |
| DiskBuffer.Buffer.Remove | pkg/coordinator/buffer/buffer.go:170-191 | Drops exactly the items with numbers up to the given one, or nothing |
| DiskBuffer.Buffer.GetStats | pkg/coordinator/buffer/buffer.go:193-202 | The counters always equal the contents and stay within the maximum |
| Publisher.StepHolds | pkg/coordinator/publisher.go:197-287 | Every step of publish and drain keeps: the stream is a prefix of what was taken, the buffer a suffix, and they cover it |
| Publisher.NothingLostOrOvertaken | pkg/coordinator/publisher.go:71-79 | In every run the stream followed by the buffered messages not yet in it is what was taken, in order, without duplicates; the accepted messages are those but for the ones left unsure; the buffer never exceeds its limit |
| Publisher.UnsureIff | pkg/coordinator/publisher.go:200-219 | When exactly a step leaves a message in the stream without telling its publisher |
| Publisher.RejectsIff | pkg/coordinator/buffer/buffer.go:122-155 | When exactly a step refuses a message: it is to be parked, and the disk fails or what is buffered leaves no room for it; otherwise it is buffered last and accepted |
| Publisher.PublishAnswer | pkg/coordinator/publisher.go:197-224 | A message is accepted exactly when nothing was buffered and the stream acknowledged it, or there is room in the buffer and the disk works, whatever is buffered and whatever the drain does meanwhile |
| Publisher.RestartForgets | pkg/coordinator/publisher.go:141-147 | A restart keeps stream and buffer; nothing is under way then |
| Publisher.AcceptedExactly | pkg/coordinator/publisher.go:148-150 | Without restarts, with a working disk and messages that fit, stream and buffer hold exactly the accepted messages |
| Publisher.FirstIsAccepted | pkg/coordinator/publisher.go:204-219 | With an empty buffer a message that fits is accepted whatever becomes of the direct send |
| Publisher.OversizedMayLeak | pkg/coordinator/publisher.go:187-193 | A message larger than the buffer can be refused and still be in the stream: a concrete run |
| Publisher.DrainAll | pkg/coordinator/publisher.go:260-287 | While the stream is reachable, draining empties the buffer and the stream holds everything taken |
| Publisher.RemovesPrefix | pkg/coordinator/publisher.go:270-283 | Removing up to the last acknowledged number drops exactly the acknowledged items |
| BufferedPublisher.Append | pkg/coordinator/publisher.go:213-219 | The disk buffer takes a message exactly when the publisher accepts it, and answers that it is full exactly when the bytes of IDs and data buffered and those of the message exceed the limit |
| BufferedPublisher.Peek | pkg/coordinator/publisher.go:260-269 | A round of the drain gets the oldest 64 messages |
| BufferedPublisher.Remove | pkg/coordinator/publisher.go:270-287 | Removing what was acknowledged leaves the two buffers equal |
| StateStore.StaleNeverSucceeds | pkg/coordinator/state/rqlite.go:34-36 | Under the store's contract a replaced or deleted revision never succeeds again, also after the key is created anew |
| StateStore.Mem.Do | pkg/coordinator/state/mem.go:38-86 | Each operation of the store in memory is one atomic step of the contract on its key and touches no other |
| RQLite.OwnRecord | pkg/coordinator/state/rqlite.go:113-168 | The statement that fixes a call's answer performs the call atomically |
| RQLite.OtherCall | pkg/coordinator/state/rqlite.go:126-143 | Whatever statement runs, what another client waits for stays true; clients that lose the race for a tombstone fail when the winner revives it |
| RQLite.Linearizes | pkg/coordinator/state/rqlite.go:113-168 | In every run of any number of clients there is one order of atomic operations, each between the beginning and the end of its call and with its answer, that leads to the stored row; but for errors, lost second looks and unsafe updates |
| RQLite.UnsafeFails | pkg/coordinator/state/rqlite.go:145-160 | From every state with the key missing, an update that expects the next revision can answer with a conflict that no moment of its call allows |
| RQLite.ToldRevisionsAreSafe | pkg/coordinator/state/state.go:57-72 | A revision that was returned is never newer than the stored one, so expecting it is safe |
| RQLite.StaleForever | pkg/coordinator/state/rqlite.go:34-36 | A revision read before a delete and re-create never matches the row again |
| RQLite.LostRecheckMisreports | pkg/coordinator/state/rqlite.go:156-159 | A lost second query is answered as a conflict for a key that never existed |
| RQLite.Perform | pkg/coordinator/state/rqlite.go:113-168 | Uninterrupted, the statements of every operation amount to the atomic operation |
| Lease.Lease.Acquire | pkg/coordinator/state/state.go:131-160 | The lease is taken exactly when there is none, the stored holder is this one, whatever the time, or the stored expiry has come; then the new expiry is stored, otherwise nothing changes |
| Lease.Lease.Release | pkg/coordinator/state/state.go:162-178 | Only the holder's own lease is given up |
| Lease.StoreIsAtomic | pkg/coordinator/state/state.go:152-157 | An instance changes the stored record by atomic operations only |
| Lease.StepHolds | pkg/coordinator/state/state.go:134-178 | Every step keeps: only the stored holder may have a claim that is still running |
| Lease.Exclusion | pkg/coordinator/state/state.go:104-108 | If the stored lease is one holder's until E at one moment and another holder's at a later one, it is E by then, unless the first released it in between, in every interleaving |
| Lease.AloneAcquires | pkg/coordinator/state/state.go:134-160 | The steps of an uninterrupted instance take the lease exactly when there is none, it is its own, or it has expired |
| Lease.AloneReleases | pkg/coordinator/state/state.go:162-178 | The steps of an uninterrupted Release give up exactly the holder's own lease |
| Lease.RenewalKeeps | pkg/coordinator/state/state.go:131-133 | A holder that acquires again in less than its time to live keeps the lease, however often and whatever the others do |
| Failover.DownIff | pkg/coordinator/monitor.go:64-113 | The state of a node after any sequence of polls: down exactly when the last FailThreshold went unanswered, suspect when fewer did, and otherwise by its last answer needing a restore, degraded, lagging or up |
| Failover.Coordinator.PollOnce | pkg/coordinator/monitor.go:83-113 | Every node's status takes its answer, or one more failure |
| Failover.PickCandidate | pkg/coordinator/failover.go:125-134 | The candidate is the freshest node that is up and not master, the first among equals, and there is none only if no node qualifies |
| Failover.Coordinator.LoadCluster | pkg/coordinator/failover.go:80-100 | Returns the stored decision, creating the first one when there is none, and refuses an unknown master |
| Failover.Coordinator.StoreNext | pkg/coordinator/failover.go:169-182 | The next epoch is stored, seen, and recorded once in the history |
| Failover.Coordinator.FailoverOnce | pkg/coordinator/failover.go:102-148 | Promotes exactly when the status with the master's name is down or needs a restore, the cooldown is over, and another node is up: the freshest such node, the first among equals; the decision and its history entry are stored, otherwise nothing changes |
| Failover.Coordinator.Promote | pkg/coordinator/failover.go:150-167 | Refuses exactly an unknown node or one whose own status is down, suspect, unknown or needing a restore; otherwise promotes it if it is not master |
| Failover.StepHolds | pkg/coordinator/failover.go:82-192 | Every step of every instance keeps the chain of decisions and what the instances know of it |
| Failover.OneChain | pkg/coordinator/failover.go:31-32 | In every run the stored decisions form one chain with epochs 1, 2, 3, ...; every failover comes at least the cooldown after the decision before it and changes the master |
| Failover.SameEpochSameView | pkg/coordinator/failover.go:61-78 | Views with equal epochs are equal, of any two instances at any two moments |
| Failover.HistoryLinks | pkg/coordinator/failover.go:179-209 | A history entry tells the decision of its epoch and the one before; consecutive entries link |
| Failover.AloneDecides | pkg/coordinator/failover.go:108-192 | An uninterrupted instance stores and records its decision unless the cooldown forbids it |
| Failover.AloneCreates | pkg/coordinator/failover.go:80-100 | With no decision stored, an uninterrupted instance stores the first one |
| Failover.LoserAdopts | pkg/coordinator/failover.go:96-147 | An instance that another one forestalled, and that is told so, adopts the stored decision |
| PauseHandshake.StepHolds | pkg/streaming/consumer.go:186-329 | Every section under the mutex keeps: parked means waiting or stopping, and a caller waits on the current channel only for a loop that runs and is not parked |
| PauseHandshake.DrainedIsStill | pkg/streaming/consumer.go:217-221 | Paused and parked together imply that no step is running |
| PauseHandshake.NoneStarts | pkg/streaming/consumer.go:186-189 | While paused with no step running, none starts before a Resume, even if the consumer is started anew |
| PauseHandshake.ReturnedPauseIsStill | pkg/streaming/consumer.go:186-206 | From the moment Pause returns no step runs until a Resume |
| PauseHandshake.PauseReturns | pkg/streaming/consumer.go:194-203 | No wakeup is lost: a waiting Pause returns once the current step ends, if it stays paused |
| PauseHandshake.ResumeWakes | pkg/streaming/consumer.go:208-214 | A waiting loop goes on after a Resume, with a step or, when stopped, to its end |
| PauseHandshake.StartRuns | pkg/streaming/consumer.go:139-171 | A consumer that is started steps at once, or parks while it is paused, also after a Stop |
| PauseHandshake.StopEnds | pkg/streaming/consumer.go:174-185 | A consumer that is stopped ends wherever its loop is, and callers that wait in Pause return |
| PauseHandshake.CancelEndsWait | pkg/streaming/consumer.go:196-201 | A caller that gives up ends its own wait and nothing else |
| PauseHandshake.ResumeOvertakesPause | pkg/streaming/consumer.go:186-214 | A Resume can overtake a waiting Pause |
| Backups.PruneKeeps | pkg/coordinator/backups.go:284-286 | Whatever subset of the doomed backups is removed, the backup to recover from and the newest min(retention, usable) usable ones stay; with none usable nothing is removed |
| Backups.PruneKeepsIff | pkg/coordinator/backups.go:287-313 | When exactly the backup to recover from survives |
| Backups.KeptIff | pkg/coordinator/backups.go:292-316 | Which records pruning keeps, one by one: all when none is usable, else the usable ones with fewer than retention usable ones newer, and the newest verified one |
| Backups.Store.LatestUsable | pkg/coordinator/backups.go:374-396 | The newest verified backup, or else the newest one not known to be bad, or none when all are bad |
| Backups.Store.Choose | pkg/coordinator/backups.go:292-312 | Keeps the newest usable ones up to the retention, and the newest verified one |
| Backups.Store.DeleteAllBut | pkg/coordinator/backups.go:313-327 | A record goes only when both its deletes succeed |
| Backups.Store.Prune | pkg/coordinator/backups.go:284-330 | The same as an operation: exactly the other records go whose deletes succeed, with their objects, and exactly the archives no record knows that are older than the grace period; the backup to recover from and its object stay |
| Backups.Store.HandleOrphans | pkg/coordinator/backups.go:332-367 | Deletes exactly the archives no record knows that are older than the grace period, and only when allowed |
| Restore.Node.CheckEmpty | pkg/backup/restore.go:107-125 | A node is empty exactly when no index is loaded and every name in its data begins with an underscore or a dot |
| Restore.Node.MoveIndexes | pkg/backup/restore.go:139-161 | Moves all indexes, or some, and returns exactly what it moved |
| Restore.Node.LoadMetadata | pkg/metadata/backup.go:38-59 | The metadata becomes equal to the entries, or on failure a mixture of both |
| Restore.Node.RestoreArchive | pkg/backup/restore.go:66-105 | All of the archive is in place, or, when what was moved can be taken out again, the data is as before; existing data is never touched |
| TopK.DocumentList.Push | pkg/bluge/search/search.go:178-191 | Adds a match and keeps the heap |
| TopK.DocumentList.Pop | pkg/bluge/search/search.go:178-191 | Takes out a match that none comes before, and keeps the heap |
| TopK.DocumentList.Down | pkg/bluge/search/search.go:182-191 | Sifting down restores the heap and keeps the matches |
| TopK.DocumentList.Done | pkg/bluge/search/search.go:155-163 | Skips the first matches in order |
| TopK.DocumentList.Next | pkg/bluge/search/search.go:165-172 | Yields the next match in order, none once the page is full or nothing is left |
| TopK.MultiSearch | pkg/bluge/search/search.go:34-139 | After merging, in any order of arrival, the skipped matches come first and nothing is lost |
| TopK.MergeIsPage | pkg/bluge/search/search.go:72-75 | Matches that a reader kept back cannot belong to the page |
| TopK.SortedReader | pkg/bluge/search/search.go:44-75 | A reader that sorts its matches and returns the first from+size of them is what the merge relies on |
| TopK.Search | pkg/bluge/search/search.go:34-172 | What a caller reads has, match by match, the ranks of the slice [from, from+size) of every sorted arrangement of all matches of all readers |
| TopK.PageIsSlice | pkg/bluge/search/search.go:155-172 | Such a page is, up to ties, that slice of every sorted arrangement of all matches |
| Ingest.Split | pkg/coordinator/api.go:304-319 | The messages concatenate to the documents; none is empty, has more documents than allowed, but for one, or more bytes; no such split has fewer messages; and there is none exactly when a document is too large |
| Ingest.TightIsFewest | pkg/coordinator/api.go:314-316 | A split in which no document would have fitted into the message before it uses the fewest messages |
| Ingest.Publish | pkg/coordinator/api.go:321-337 | An oversized document publishes nothing; otherwise what was published is the reported prefix of the documents |

## Left out

- StreamConsumer.Consumer.Step: a batch has no jump inside, which Fetch provides as long as retention does not trim the stream in the middle of one fetch; what such a jump does is the subject of CoveredIffNoJump and GapInsideBatch. Runs that allow gaps lose messages on purpose and are part of CheckGap and Prepare only.
- StreamConsumer.Consumer.Apply: messages are clean in the sense of CleanIsDeterministic, that is, applied alike by all nodes; what others do is stated by DivergesIff. The body of create_index beyond its mapping, the timestamp field of every mapping, the keyword sub-field that dynamic mapping adds to a text field and the normalisation of nested fields are not modelled.
- StreamConsumer.Consumer.DeleteIndex: the files of the index are removed or they are not; where its metadata was deleted but its files remain, an index created again under the name would find them, which is not modelled. What a restart finds of a forgotten index's logs is decided when it is forgotten, and counts as synced.
- StreamConsumer.Consumer.Background: storing the metadata of an index again after it was deleted, by a round that began before, is not modelled; a write of metadata that fails stores nothing.
- StreamConsumer.Consumer.Drain: the rounds that drain a node start no second-level shard; those before it may.
- ConsumerRuns.AnyRun: a node that goes on past a save that stored the offset and reported failure is not followed further; a restart or Reload makes it valid again, and LostSaveRun shows what going on can do. Nor is a node followed whose shard came out of a crash unsound: what it swallows is shown by SwallowedRun and HoleSwallows, and that a later second-level shard can bring back what a crash left behind is not modelled at the node.
- StreamConsumer.CheckDocument: time parsing and reading numbers from words are parameters of a value; flattening, null values, arrays that are empty or begin with null or an object, and fields that are not indexed are not modelled.
- StreamConsumer.Consumer.CreateBackup: the copy is taken between steps, which the pause handshake and draining guarantee; archives, checksums and the check after copying are not modelled.
- ShardConsumer.IndexShard.ConsumeWAL: entries written while it runs are left to the next call; an unreadable entry is modelled only where the log ends before the committed entry; the configured batch size does not change.
- ShardConsumer.IndexShard.Open: opening a log that lost a part of the chunk that was begun, where the code fails to read it, is not modelled beyond Crash.
- ShardConsumer.IndexShard.Write: a document is logged under one group among the entries not yet committed, as the stream path does, and never as an insert; what goes wrong with inserts is stated by ReplayIsSafe and MergeIsSequential.
- DiskBuffer.Buffer.Append: counters do not wrap around, and item numbers stay below 2^64.
- BufferedPublisher.Append: the ID has no NUL byte, which the publisher's own IDs never have; what Append does with others is stated by DiskBuffer.
- Publisher.NothingLostOrOvertaken: values, not objects in place, because publish and drain interleave; a message on its way is delivered or lost by the time its send returns; the stream's memory of message IDs is unlimited; messages of other publishers are not shown, nor the server's own limit on the size of a message.
- RQLite.Linearizes: values, not objects in place, because clients interleave; one key, as the statements of different keys do not interact; a statement whose call ended in an error took effect before the call returned or never does, and one that takes effect later is not modelled; listing, key validation and base64 are not modelled.
- StateStore.Mem.Do: the four operations are one method; listing and key validation are not modelled.
- Lease.Exclusion: one clock for all instances, and one Acquire or Release at a time for each holder; a write whose call ended in an error took effect before the call returned or never does, and a late effect is not modelled; values that are not valid JSON are not modelled.
- Failover.OneChain: values, not objects in place, because instances interleave; a write whose call ended in an error took effect before the call returned or never does, and a late effect is not modelled; resuming a paused new master is not modelled.
- PauseHandshake.StepHolds: values, not objects in place, because goroutines interleave; preparing a cursor and sleeping after an error are part of a step.
- Backups.Store.Prune: records come sorted, newest first, with one of three states; taking, verifying and scheduling backups is not modelled.
- Restore.Node.RestoreArchive: reading and verifying the archive is a parameter.
- TopK.Search: the sort order is a rank; aggregations are not modelled; a single reader's own page is returned as it is.
- Ingest.Publish: parsing the request and deriving document IDs from an idempotency key are not modelled.
- The write-ahead log, redo, key-value, search and messaging libraries are atomic steps with the failures described above.
- HTTP handlers, configuration, authentication, telemetry, query parsing, histograms and the frontend.
