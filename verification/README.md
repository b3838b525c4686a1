# ByteHive file sync: verified model

This project models the parts of ByteHive whose behaviour is hardest to see from the code, and proves
what they promise. Most of it is the sync protocol of `crates/filesync`: the deletion ledger, the action
journal, the drain that delivers it, the initial sync, the engine's deletes, renames and large files,
framing, and the scan cache. Beside it stand log rotation, retention and date arithmetic of `crates/core`,
and the two writers of the shared config file.

`dafny verify dfyconfig.toml` checks the whole project.

## How it is built

| files | what they hold |
|---|---|
| `Paths.dfy` | paths as sequences of components, prefixes, the order ordered maps keep them in |
| `Digests.dfy` | bytes, digests, hexadecimal text |
| `Ledgers.dfy`, `LedgerExchange.dfy` | tombstones and live-action records; merging and the handshake |
| `Journals.dfy`, `JournalCompaction.dfy`, `JournalRecovery.dfy`, `JournalStore.dfy` | the journal as a value; what compaction keeps; runs, crashes and reopening; the indexed journal in memory |
| `Admission.dfy`, `Drain.dfy`, `DrainProtocol.dfy`, `DrainProgress.dfy` | deciding on an entry; one drain pass; all sessions as a state machine; what it achieves |
| `Engine.dfy`, `EngineStore.dfy` | admission, subtree deletes, renames; the engine object |
| `Reconcile.dfy`, `Convergence.dfy`, `Shade.dfy`, `Completion.dfy`, `InitialSync.dfy` | the decisions of the initial sync; what a session ends with; the same below tombstoned directories; when it completes; the session on two engines |
| `Framing.dfy`, `Bundler.dfy` | frames; packing files into messages |
| `LargeFiles.dfy`, `LargeFileStore.dfy` | chunks and assembly; concurrent transfers and their staging files |
| `ScanCache.dfy` | scanning with the hash cache |
| `Calendar.dfy`, `Rotation.dfy`, `LogCleanup.dfy` | dates, rotated logs, retention |
| `ConfigSplice.dfy`, `ConfigToml.dfy` | the config writers by their own header test; the same file as TOML v1.0.0 reads it |

Stateful parts are classes whose methods are proved against functions on values; the properties are then
proved of those functions. Loops over hash maps take their elements in an arbitrary order. Hashes and
serialisers are function parameters; clocks, file-stability checks, the peer's acknowledgements and the way
a stream is cut into reads are inputs.

## Where the code does less than its comments or a reader would expect

* The ledger comment counts a missing live record as stamp 0. A tombstone stamped 0 breaks that form
  (`Ledgers.DocumentedInvariantFails`); an operation keeps it exactly unless it stores such a tombstone, by
  recording or by merging (`Ledgers.DocumentedInvariantExact`). The form every run does keep is
  `Ledgers.RunsKeepTombstonesNewer`.
* `has_newer_than_prefix` is described as asking any covering tombstone; it asks the nearest one, which can
  hide a newer one farther up (`Ledgers.NearerTombstoneMasks`). It gives the described answer for every
  stamp exactly when the nearest covering tombstone is also the newest (`Ledgers.PrefixTestExact`).
* Compaction is said to replay to the same pending set. It does so exactly when no pending entry would
  coalesce an earlier one (`JournalCompaction.CompactionExact`). Over a whole run the file replays to the
  state in memory at every point exactly when every compaction found the pending set so
  (`JournalRecovery.RecoveryExact`), which holds as long as no delete splits a pending rename
  (`JournalRecovery.ReplayIsLive`) and can fail otherwise (`JournalRecovery.CompactionCounterexample`).
  Even then both marks come back, and a mention is forgotten only where a later action speaks for the path or
  took it away with a directory that was moved and then deleted (`JournalRecovery.RunsLoseNothing`,
  `JournalRecovery.MovedAwayForgotten`).
* Checking an admitted action again can veto it: the live record it left behind uncovers a farther, newer
  tombstone (`Engine.RecheckAfterAdmission`, `Engine.RecheckVetoes`).
* A client judges its own actions by their stamps, the server by the stamps clamped to its clock. An action
  from beyond the allowance can beat a tombstone here and lose to it there (`Admission.ClampDiverges`);
  `Admission.OfferedIffAdmitted` and `Admission.DeliveryKeepsStamps` say exactly when.
* The initial sync does not always converge. The sender consults a tombstone's previous-version
  information, the receiver only its stamp, so two different copies older than a tombstone stay apart when
  that information does not recognise the winning one (`Convergence.SessionCanDiverge`). In every other
  case the sides agree (`Convergence.Converges`). Below a tombstoned directory even plain tombstones can
  leave a stale file on one side, because only an exact tombstone makes a side drop its own copy
  (`Shade.NestedTombstoneDiverges`), and a directory that only one side recreated arrives without the stale
  file in it (`Shade.ReturnedDirectoryDiverges`). `Shade.ShadedConverges` says exactly when for directories
  that are there to stay. With several tombstones above a file the order in which files arrive can decide;
  `Shade.EveryOrderSettles` says when it does not.
* A file on one side and a directory of that name on the other end the session with an error at the first
  such write, and nothing behind it is delivered (`Completion.ClashEndsSession`). A session completes
  exactly when nothing it sends meets such an obstacle (`Completion.CompletesExactly`).
* A large-file receiver counts chunk indices without checking their range, so a full count can hide a
  missing chunk (`LargeFiles.FullCountMisleads`), exactly when an index was out of range
  (`LargeFiles.FullCountExact`); the digest check then refuses the file.
* The bundle limit of 500 files does not stop directories: 501 of them go out in one bundle
  (`Bundler.ManyDirectories`). A bundle passes the limit exactly when a directory arrives at a full one
  (`Bundler.StreamMessages`).
* A config array header followed by a comment or with its key in quotes is not seen by the writers as what it
  is (`ConfigToml.HeadersAgree`). Behind a section of the writer a commented one is deleted with that section
  (`ConfigToml.CommentedShareLost`); `[["users"]]` is left standing beside the new users
  (`ConfigToml.QuotedHeaderMissed`). `ConfigToml.WriterSplice` says exactly which files a write keeps as TOML
  reads them.

## Model

| member | source | states |
|---|---|---|
| `Ledgers.DeletionLedger.Record` | crates/filesync/src/ledger.rs:176-200 | a tombstone enters only if it beats both the live record and the stored tombstone; the live records stay |
| `Ledgers.DeletionLedger.RecordAlive` | crates/filesync/src/ledger.rs:152-166 | raises the live record, lifts a tombstone it is at least as new as, and reports exactly whether anything changed |
| `Ledgers.DeletionLedger.MergeRemote` | crates/filesync/src/ledger.rs:247-259 | in any order of the remote map, each remote tombstone enters under the same rule |
| `Ledgers.DeletionLedger.Prune` | crates/filesync/src/ledger.rs:264-280 | keeps, unchanged, exactly the tombstones and live records whose stamp plus the time-to-live reaches the clock, and counts what went |
| `Ledgers.DeletionLedger.Remove` | crates/filesync/src/ledger.rs:290-292 | takes one tombstone out and returns it |
| `Ledgers.DeletionLedger.CoveringTombstone` | crates/filesync/src/ledger.rs:219-233 | finds a tombstone exactly when some prefix of the path holds an applicable one, and returns that of the longest such prefix |
| `Ledgers.RunsKeepTombstonesNewer` | crates/filesync/src/ledger.rs:137-292 | every run of record, record-alive, merge, remove and prune keeps each tombstone newer than the live record of its path |
| `Ledgers.CoverNearest` | crates/filesync/src/ledger.rs:219-233 | the recursive lookup is the longest applicable prefix, uniquely |
| `Ledgers.ExactTombstoneWins` | crates/filesync/src/ledger.rs:204-243 | in a reachable ledger the exact tombstone is never skipped, so the exact test implies the prefix test |
| `Ledgers.PrefixTestExact` | crates/filesync/src/ledger.rs:235-243 | the prefix test implies that some covering tombstone is newer; the converse holds for every stamp exactly when the nearest cover is the newest |
| `Ledgers.NearerTombstoneMasks` | crates/filesync/src/ledger.rs:219-243 | a ledger in which a nearer, older tombstone hides a farther, newer one |
| `Ledgers.DocumentedInvariantExact` | crates/filesync/src/ledger.rs:173-259 | counting a missing live record as 0, every operation of the ledger keeps the invariant exactly unless it stores a tombstone stamped 0 |
| `Ledgers.DocumentedInvariantFails` | crates/filesync/src/ledger.rs:176-200 | the one-step run that breaks that form |
| `LedgerExchange.LedgerEntries` | crates/filesync/src/sync_engine.rs:676-698 | lists every tombstone and live record and nothing else, in any map order |
| `LedgerExchange.MergeLedger` | crates/filesync/src/sync_engine.rs:640-671 | applies the listed live records first, then the last listed tombstone of each path |
| `LedgerExchange.FoldKeepsNewest` | crates/filesync/src/ledger.rs:152-200 | folding any events leaves, per path, the newest live action, and the newest tombstone only if it is newer |
| `LedgerExchange.FoldOrderIrrelevant` | crates/filesync/src/ledger.rs:152-200 | two event sequences with the same members give the same stamps, whatever their order and repetitions |
| `LedgerExchange.MergeIsJoin` | crates/filesync/src/sync_engine.rs:640-671 | merging a peer's listing is the join of the two ledgers, path by path |
| `LedgerExchange.MergeIsFold` | crates/filesync/src/sync_engine.rs:640-671 | merging a listing gives the stamps of folding its records as events in any order |
| `LedgerExchange.ExchangeAgrees` | crates/filesync/src/client.rs:418-435 | after the server-first exchange both sides hold the same stamps, the join of what they held |
| `LedgerExchange.ExchangeSettles` | crates/filesync/src/client.rs:418-435 | once stamps agree, merging the peer's listing again changes nothing, metadata included |
| `InitialSync.ExchangeLedgers` | crates/filesync/src/client.rs:418-435 | the exchange carried out on two engines leaves both with the join, and with no tombstone that neither side held |
| `Journals.LeaveKeepsOrSpeaks` | crates/filesync/src/action_journal.rs:145-241 | coalescing drops a mention of a path only where the new action speaks for that path, and never renumbers |
| `Journals.CoalesceExact` | crates/filesync/src/action_journal.rs:145-241 | recording an action drops exactly the pending ones it makes pointless: for an upsert what is said of its path, for a rename upserts of its source and what is said of its target, for a delete what lies wholly below it; a rename that loses one end is left as upsert or delete of the other; all else stays |
| `Journals.SaidOnce` | crates/filesync/src/action_journal.rs:145-241 | nothing else pending says anything of the path just recorded, nor of the target of a rename, nor upserts its source |
| `Journals.DeleteClearsSubtree` | crates/filesync/src/action_journal.rs:162-209 | after a delete nothing else pending mentions the path or anything below it |
| `Journals.LineRoundTrip` | crates/filesync/src/action_journal.rs:63-81 | a record written for an entry is read back as that entry |
| `Journals.LineReadsAs` | crates/filesync/src/action_journal.rs:63-81 | a record is read as an entry only under that entry's operation and fields |
| `JournalRecovery.RunsLoseNothing` | crates/filesync/src/action_journal.rs:135-495 | in every run of appends, acknowledgements, compactions and reopenings, in memory and in the file: both marks are restored, the file pends only what the journal pends, and each recorded mention is acknowledged, pending under its own number, spoken for by a later action on that path or a delete above it, or was taken away by a rename above it whose target was itself taken away later |
| `JournalRecovery.RunsLoseNothingStrictly` | crates/filesync/src/action_journal.rs:135-495 | without the last case: in every run that is never reopened, compactions and splits included, and with reopenings in every run whose compactions all found the pending set settled |
| `JournalRecovery.MovedAwayForgotten` | crates/filesync/src/action_journal.rs:182-202 | the run that needs the last case: an edit inside a directory that is renamed, deleted under its new name, compacted and reopened |
| `JournalRecovery.RenameKeepsContent` | crates/filesync/src/action_journal.rs:372-402 | renaming a path whose content was still unsent leaves that content pending at the target |
| `JournalRecovery.RecoveryExact` | crates/filesync/src/action_journal.rs:286-495 | at every point of a run the file replays to exactly the state in memory if and only if every compaction found the pending set settled; without compaction, always |
| `JournalRecovery.ReplayIsLive` | crates/filesync/src/action_journal.rs:286-495 | a run in which no delete splits a pending rename is always settled, so its file replays to exactly the state in memory |
| `JournalRecovery.CutText` | crates/filesync/src/action_journal.rs:286-333 | cutting the text anywhere leaves exactly the records before the cut |
| `JournalRecovery.CrashRecovers` | crates/filesync/src/action_journal.rs:286-333 | after losing any tail written since the last compacted image, reopening gives the state of reopening after the records written whole; if every compaction found the pending set settled, that is the state the journal was in |
| `JournalRecovery.PrefixWasTheFile` | crates/filesync/src/action_journal.rs:418-495 | each file from the last compacted image on was the whole file at some point of the run |
| `JournalCompaction.CompactionRestoresMarks` | crates/filesync/src/action_journal.rs:467-495 | a compacted file restores the acknowledged mark and the next number, so numbers are never reused |
| `JournalCompaction.CompactionExact` | crates/filesync/src/action_journal.rs:465-495 | a compacted file replays to the same state if and only if no pending entry would coalesce an earlier one |
| `JournalCompaction.CompactionLosesNothing` | crates/filesync/src/action_journal.rs:467-495 | compaction drops a mention only where a later pending entry speaks for it |
| `JournalCompaction.MirrorAppend` | crates/filesync/src/action_journal.rs:418-432 | appending a record to any file whose replay trails the journal keeps it so |
| `JournalCompaction.MirrorAck` | crates/filesync/src/action_journal.rs:406-416 | acknowledging keeps it so too |
| `JournalCompaction.MirrorCompacted` | crates/filesync/src/action_journal.rs:465-495 | a compacted file trails the journal it was written from: same marks, no entry it lacks, none less worn |
| `JournalRecovery.CompactionCounterexample` | crates/filesync/src/action_journal.rs:182-202 | a three-step run whose compacted file replays to a different pending set |
| `JournalStore.Under` | crates/filesync/src/action_journal.rs:98-104 | the ordered scan that stops at the first key without the prefix returns exactly the numbers filed under keys with the prefix |
| `JournalStore.ScanFindsSubtree` | crates/filesync/src/action_journal.rs:98-104 | scanning an index that is the inverse image of the entries finds exactly the entries whose key has the prefix |
| `JournalStore.ActionJournal.Open` | crates/filesync/src/action_journal.rs:286-333 | replaying the records of a file the journal could have written rebuilds state and both indexes; after damage the file is rewritten |
| `JournalStore.RunsAreLegal` | crates/filesync/src/action_journal.rs:286-495 | every run, through compactions and reopenings, writes such a file |
| `JournalStore.ActionJournal.Insert` | crates/filesync/src/action_journal.rs:114-124 | both indexes stay the inverse images of the entries |
| `JournalStore.ActionJournal.Remove` | crates/filesync/src/action_journal.rs:126-133 | the same, emptied index keys included |
| `JournalStore.ActionJournal.AckMark` | crates/filesync/src/action_journal.rs:135-142 | everything at or below the mark leaves; mark and next number never go back |
| `JournalStore.ActionJournal.Apply` | crates/filesync/src/action_journal.rs:145-241 | finding victims through the indexes has the effect of the coalescing rules on every entry (`Journals.CoalesceExact`) |
| `JournalStore.ActionJournal.CutSubtree` | crates/filesync/src/action_journal.rs:162-209 | a delete drops or rewrites exactly what lies under its path, whatever the order of the victims |
| `JournalStore.ActionJournal.Snapshot` | crates/filesync/src/action_journal.rs:356-358 | the pending entries, each once, in sequence order |
| `JournalStore.ActionJournal.WriteCompacted` | crates/filesync/src/action_journal.rs:467-495 | the new file is the mark and the pending entries, and restores both marks |
| `JournalStore.ActionJournal.MaybeCompact` | crates/filesync/src/action_journal.rs:435-441 | from the line threshold on, and only then, the file is rewritten as a compacted one |
| `JournalStore.ActionJournal.Append` | crates/filesync/src/action_journal.rs:418-432 | one action under the next number, in the file and in memory |
| `JournalStore.ActionJournal.Upsert` | crates/filesync/src/action_journal.rs:360-366 | the upsert is pending under the next number; pending upserts and deletes of that path are gone, all other entries are as before |
| `JournalStore.ActionJournal.Delete` | crates/filesync/src/action_journal.rs:367-371 | the delete is pending; nothing else pending mentions the path or anything below it, and entries that did not are as before |
| `JournalStore.ActionJournal.Rename` | crates/filesync/src/action_journal.rs:372-402 | the rename is pending, followed by an upsert of the target exactly when the source's content was unsent; upserts of the source and upserts and deletes of the target are gone, all other entries are as before |
| `JournalStore.ActionJournal.Ack` | crates/filesync/src/action_journal.rs:406-416 | acknowledging applies the mark and keeps file and memory in step |
| `Admission.DecisionMeans` | crates/filesync/src/client.rs:1441-1513 | putting an entry off changes nothing; an entry sent as recorded touches no file, leaves its path live since its stamp with only newer tombstones over it (or tombstoned since then), and no other stamp changed; a beaten upsert leaves listing and disk, except for a directory around newer live paths |
| `Admission.UpsertDecision` | crates/filesync/src/client.rs:1443-1472 | a file is put off exactly while it is there and changing, sent under its path and stamp exactly if it is there, stable and not beaten by the nearest tombstone, and settled otherwise |
| `Admission.DeleteDecision` | crates/filesync/src/client.rs:1501-1512 | a delete is sent under its path and stamp, with a tombstone that remembers the listed version, exactly if the path is gone; otherwise it is settled and nothing changes |
| `Admission.RenameDecision` | crates/filesync/src/client.rs:1473-1500 | a rename is sent with both paths unless the target is beaten; then its source is sent as a delete exactly if it is not there |
| `Admission.BeatenRecords` | crates/filesync/src/client.rs:1450-1465 | a beaten file goes under the stamp and deleter of the tombstone that beat it |
| `Admission.UpsertReachesPeer` | crates/filesync/src/server.rs:870-1060 | a file sent and admitted is listed and stored by the peer as sent, with a live record |
| `Admission.DeleteReachesPeer` | crates/filesync/src/server.rs:870-1060 | once the peer handled the delete of a path gone here, it lists and stores the path no more, unless a live action on it or in it is as new |
| `Admission.RenameReachesPeer` | crates/filesync/src/server.rs:870-1060 | a rename sent, admitted and carried out moves on the peer everything under the source to the target |
| `Admission.OfferedIffAdmitted` | crates/filesync/src/common.rs:38-60 | what a peer with the same stamps admits was offered; the converse fails exactly where the stamp lies beyond the peer's allowance and the covering tombstone between the peer's clock and the stamp |
| `Admission.DeliveryKeepsStamps` | crates/filesync/src/server.rs:870-1060 | after an entry was dealt with here and, if sent, by the peer, both ledgers hold the same stamps if and only if a rejection was by a tombstone of the very path and no news was clamped; rejected renames and settled entries included |
| `Admission.ClampDiverges` | crates/filesync/src/common.rs:50-60 | a tombstone, an action and a peer's clock for which the action is sent and then turned down |
| `Drain.Messages` | crates/filesync/src/client.rs:1364-1405 | the messages of a chunk deliver its actions in journal order; every rename and delete is one message with its paths and stamp, and each run of upserts carries, per path, the stamp of its last upsert in the run |
| `Drain.LastStampsExact` | crates/filesync/src/client.rs:1364-1405 | the stamp kept for a path is that of its last upsert in the run |
| `Drain.CollectChunk` | crates/filesync/src/client.rs:1331-1362 | a chunk respects the entry and byte limits, could not have taken one more entry, and stops at a file still being written |
| `Drain.WiresInOrder` | crates/filesync/src/client.rs:1331-1362 | every entry decided to be sent has its place on the wire in journal order, and nothing else is sent |
| `Drain.EntriesFitTogether` | crates/filesync/src/client.rs:1331-1362 | any two entries of a chunk are within the byte limit together |
| `Drain.Deliver` | crates/filesync/src/client.rs:1404-1430 | a chunk is closed with its last number, and only the acknowledged prefix, capped there, leaves the journal |
| `Drain.DrainActionJournal` | crates/filesync/src/client.rs:1320-1437 | a pass ends, whatever is recorded meanwhile; its chunks follow each other from the start of the snapshot, each acknowledged whole before the next; a finished pass leaves only what was recorded after its start |
| `Drain.ChunksCoverPrefix` | crates/filesync/src/client.rs:1335-1437 | every entry up to the end of the last chunk lies in exactly one chunk, and a chunk passes the byte limit only when it holds one entry |
| `DrainProtocol.StepKeepsInv` | crates/filesync/src/server.rs:793-856 | every step of client, server and connection, compactions and restarts from the actual file included, keeps the account of all numbers given out and a file that trails the journal |
| `DrainProtocol.DrainIsSafe` | crates/filesync/src/server.rs:1074-1112 | over every run of sessions, failures, compactions, restarts and disconnects, pending numbers lie above the acknowledged mark and each number at or below it was settled, handled with its whole chunk, or superseded; for every path of a superseded action a later recorded action speaks, or, only once a restart found less in the file than memory had held, took it away |
| `DrainProtocol.RecordSupersedes` | crates/filesync/src/action_journal.rs:145-241 | what recording an action drops, that action itself speaks for, path by path |
| `DrainProtocol.SettledNeverShrinks` | crates/filesync/src/action_journal.rs:286-495 | no restart loses anything as long as every compaction finds the pending set settled |
| `DrainProtocol.AckRemovesDelivered` | crates/filesync/src/server.rs:793-856 | an acknowledgement removes only entries of the drained prefix that the client settled or whose chunk the server handled whole |
| `DrainProgress.HandledChunkLeaves` | crates/filesync/src/server.rs:793-830 | a chunk all of whose messages the server handled: once the answer is taken nothing of it is pending, the mark has reached its last number, and the pass goes on behind it |
| `DrainProgress.FailedChunkStays` | crates/filesync/src/server.rs:1074-1112 | after a failed message the answer changes nothing in the journal: the mark stays, and the pass is given up to be repeated |
| `DrainProgress.CleanPassDelivers` | crates/filesync/src/client.rs:1320-1437 | a pass without failed message, disconnect or stop is never given up, and between chunks nothing it has sent is pending; once the whole snapshot is sent and answered, nothing of it is |
| `DrainProgress.NeverStuck` | crates/filesync/src/server.rs:793-856 | while a chunk is in flight the server or the client can go on, and every such step leaves less to do |
| `Engine.RecheckAfterAdmission` | crates/filesync/src/sync_engine.rs:720-754 | checking an admitted action again vetoes it exactly when some covering tombstone, near or far, is newer than the live record it left |
| `Engine.RecheckVetoes` | crates/filesync/src/sync_engine.rs:720-754 | two tombstones and an action that is admitted and vetoed when checked again |
| `Engine.WireStampMeans` | crates/filesync/src/sync_engine.rs:535-545 | a file goes out as a live action exactly if its path has a live record, stamped with the newer of record and mtime |
| `Engine.WritesSucceedExactly` | crates/filesync/src/sync_engine.rs:955-965 | the files of one tree are all written exactly when no admitted one meets a directory in place of a file, a file in place of a directory, or a file above it, on the disk as it was before |
| `Engine.DeleteGuard` | crates/filesync/src/sync_engine.rs:1470-1588 | with listing equal to disk, a delete leaves at or under its path exactly the paths with a live action at least as new and the directories containing one; listing and disk still agree and still form a tree |
| `Engine.DeleteRemembers` | crates/filesync/src/sync_engine.rs:1518-1610 | a delete newer than what the ledger holds leaves a tombstone with its stamp, its deleter, and hash and mtime of the listed version, or none if it was not listed; any other leaves the ledger as it is |
| `Engine.DeletesRemember` | crates/filesync/src/sync_engine.rs:1470-1610 | of several deletes, each path not below an earlier one is remembered as it was listed before them all |
| `Reconcile.DeletedVersionJudged` | crates/filesync/src/manifest.rs:396-415 | after a listed version was deleted, an older copy is vetoed exactly if it has that version's content or is no newer, and passes otherwise |
| `Reconcile.UnlistedDeleteJudged` | crates/filesync/src/manifest.rs:396-415 | after an unlisted path was deleted, every older copy is vetoed |
| `Engine.RemapAt` | crates/filesync/src/sync_engine.rs:1380-1440 | which keys a rename leaves alone, which it moves, and to what entry |
| `Engine.RenameIsBijective` | crates/filesync/src/sync_engine.rs:1380-1440 | into an empty place keys move one to one; count, sizes and hashes are kept, each entry carries its new path, other keys stay |
| `Engine.RenameRoundTrip` | crates/filesync/src/sync_engine.rs:1380-1440 | renaming there and back restores every key, size and hash |
| `Engine.RenameMoves` | crates/filesync/src/sync_engine.rs:1299-1468 | an admitted rename that was carried out: on disk and in the listing everything under the source stands under the target with size, content, kind and new path, all else is as before, and the two agree again if they agreed |
| `Engine.RenameCatchesUp` | crates/filesync/src/sync_engine.rs:1325-1378 | source gone, or the move failed onto an existing target: the disk stays, the listing follows if the target exists, with the mtimes the disk shows where the source takes them |
| `Engine.RenameVetoed` | crates/filesync/src/sync_engine.rs:1311-1318 | a vetoed rename leaves at its source exactly the guard's survivors and a tombstone, and everything else, the target included, as before |
| `Engine.RenameRepeats` | crates/filesync/src/sync_engine.rs:1299-1468 | repeating a rename that went through changes no manifest entry, even when the repeat is vetoed |
| `EngineStore.SyncEngine.ApplyBundle` | crates/filesync/src/sync_engine.rs:884-980 | file by file: a vetoed file changes nothing, an admitted one is written, listed and recorded; it succeeds exactly when no write is obstructed, and stops at the first that is with its live record already made; the count is that of the files written |
| `EngineStore.SyncEngine.ClearTombstones` | crates/filesync/src/sync_engine.rs:766-780 | lifts exactly the tombstones of the given paths |
| `EngineStore.SyncEngine.ApplyDeletes` | crates/filesync/src/sync_engine.rs:1470-1610 | recording the tombstones together at the end has the effect of one guarded delete after the other, and each path not below an earlier one is remembered with deleter, hash and mtime |
| `EngineStore.SyncEngine.RemoveSubtree` | crates/filesync/src/sync_engine.rs:1481-1588 | removes the whole subtree, or what no newer live action protects |
| `EngineStore.SyncEngine.RemoveUnprotected` | crates/filesync/src/sync_engine.rs:1547-1583 | the shallowest-first loop that skips covered targets removes exactly what lies under an unprotected target that is not spared |
| `EngineStore.SyncEngine.ApplyRenameAt` | crates/filesync/src/sync_engine.rs:1299-1468 | vetoed, repeated, moved or failed: the new state in each case, as `Engine.RenameMoves`, `Engine.RenameCatchesUp` and `Engine.RenameVetoed` describe it |
| `EngineStore.SyncEngine.RemapManifest` | crates/filesync/src/sync_engine.rs:1380-1440 | moving the pairs one at a time in any order is the simultaneous move |
| `Reconcile.ComputeSendList` | crates/filesync/src/manifest.rs:327-344 | each path once: those the peer lacks and those that differ and are newer here, ties to the server |
| `Reconcile.FilterResurrected` | crates/filesync/src/manifest.rs:372-452 | exactly the paths no tombstone vetoes pass, exactly the recreated ones among them are reported, without duplicates |
| `Reconcile.ComputeDeletesToPush` | crates/filesync/src/client.rs:1591-1609 | exactly the deletes the peer missed, each with its original stamp, in path order |
| `Convergence.FirstHalf` | crates/filesync/src/server.rs:431-483 | what both sides hold at a path once the server's half is delivered, whatever becomes of the client's half |
| `Convergence.SecondHalf` | crates/filesync/src/client.rs:754-812 | what both sides hold at a path after the client's half, once its files are delivered |
| `Convergence.Converges` | crates/filesync/src/client.rs:754-812 | for every path with the same stamps on both sides and no tombstone strictly above it: after a completed session the sides agree there if and only if it was not stuck, and then on the last writer's content; a stuck path keeps both copies |
| `Convergence.PlainTombstonesConverge` | crates/filesync/src/manifest.rs:372-452 | when every file is such a path, tombstones lack previous-version information and the session completes, the two manifests end with the same paths and hashes |
| `Convergence.AgreementIsQuiet` | crates/filesync/src/server.rs:431-483 | between sides with the same content a session sends, vetoes, pushes and lifts nothing |
| `Convergence.SessionCanDiverge` | crates/filesync/src/manifest.rs:396-415 | a complete session after which the two sides differ |
| `Shade.NestedTombstoneDiverges` | crates/filesync/src/server.rs:435-447 | a complete session with plain tombstones, one of them above a file, after which only one side holds that file |
| `Shade.ShadedConverges` | crates/filesync/src/server.rs:431-483 | below tombstoned directories that both sides list, or that are back on one side at least as new as their tombstone: a completed session makes the sides agree at a path exactly when the contents were equal, or the newest copy is at least as new as the tombstone over it both when it is picked and when its turn comes on the other side, and then on that copy; otherwise each side keeps what it held |
| `Shade.OneCoverSettles` | crates/filesync/src/server.rs:431-483 | with a single tombstone above the path that means just: the newest copy is at least as new as it |
| `Shade.EveryOrderSettles` | crates/filesync/src/sync_engine.rs:720-754 | with several, the copy is taken in every order of the files if and only if it is at least as new as each of them whose nearer ones may all be lifted before |
| `Shade.ReorderedPayload` | crates/filesync/src/bundler.rs:28-122 | the same files in any other order are a payload too |
| `Shade.ReturnedDirectoryDiverges` | crates/filesync/src/manifest.rs:372-452 | a complete session in which only the client recreated the directory, after which only the client holds the stale file in it |
| `Shade.PushTakesSubtree` | crates/filesync/src/client.rs:1591-1609 | between scanned trees, a missed delete of a directory takes the client's files below it along, except those with a live action as new, and both sides end without them |
| `Shade.VetoTakesSubtree` | crates/filesync/src/server.rs:431-447 | between scanned trees, a server that alone lists a directory it knows to be deleted removes its files below it before they could be sent, and both sides end without them |
| `Shade.PushBackTakesSubtree` | crates/filesync/src/client.rs:754-812 | if previous-version information does not recognise that directory, the client refuses it and pushes the delete back, which takes the server's files below it, even one just delivered |
| `Completion.FirstCompletesExactly` | crates/filesync/src/client.rs:574-590 | the server's half completes exactly when no admitted file meets an obstacle on the client's disk after the pushed deletes |
| `Completion.CompletesExactly` | crates/filesync/src/server.rs:490-505 | a session between scanned trees completes exactly when the same holds in both directions |
| `Completion.ClashEndsSession` | crates/filesync/src/sync_engine.rs:955-965 | a file against a directory of the same name: every path is ready, and the session ends at the first write |
| `InitialSync.PlanHalf` | crates/filesync/src/server.rs:431-460 | one side's decisions, taken and carried out step by step on its engine |
| `InitialSync.Receive` | crates/filesync/src/common.rs:559-593 | the receive loop: each pushed delete with its clamped stamp, then the files, up to the first that fails, if any |
| `InitialSync.RunSession` | crates/filesync/src/client.rs:754-812 | the session on two engines: where it ends, in which states, and that a completed one agrees at a ready path exactly when it was not stuck |
| `InitialSync.Meet` | crates/filesync/src/client.rs:418-812 | two scanned trees with any ledgers of plain tombstones that stand over no listed file: exchange and session together complete exactly when nothing sent is obstructed, and then leave equal paths and hashes |
| `Framing.SerialiseMessage` | crates/filesync/src/protocol.rs:161-180 | a frame is made exactly for messages within the limit: big-endian length, then the body |
| `Framing.FramesReadBack` | crates/filesync/src/protocol.rs:161-211 | serialised messages are read back unchanged and in order, whatever follows them |
| `Framing.FrameReader.Poll` | crates/filesync/src/transport.rs:91-144 | a timeout loses no byte; a message or an error is what the blocking reader gives for the same bytes in one piece |
| `Framing.Pump` | crates/filesync/src/transport.rs:91-144 | for every stream and every way of splitting it, polling gives the transcript of reading it unsplit; a broken connection leaves a prefix of it |
| `Framing.Deliver` | crates/filesync/src/transport.rs:91-144 | every sequence of serialised messages arrives unchanged through every splitting |
| `Bundler.StreamMessages` | crates/filesync/src/bundler.rs:28-122 | every item once and in order; bundles within the byte limit, past the file limit only by directories, and some bundle past it exactly when a directory arrives at a full one; a bundle closes early only for a large file or when the next file would pass a limit |
| `Bundler.FilesFitTogether` | crates/filesync/src/bundler.rs:28-122 | any two files of a bundle are within the byte limit together |
| `Bundler.DirectoriesShareABundle` | crates/filesync/src/bundler.rs:28-122 | directories alone go out as a single bundle, however many they are |
| `Bundler.ManyDirectories` | crates/filesync/src/bundler.rs:28-122 | 501 directories make one bundle of 501 entries |
| `LargeFiles.StreamLargeFile` | crates/filesync/src/bundler.rs:144-242 | however few bytes each read returns, chunk `i` is the `i`-th slice and a non-empty file gives exactly the announced number |
| `LargeFiles.RequestedChunks` | crates/filesync/src/server.rs:1179-1231 | retransmission sends the requested chunks that exist, with their bytes, in the order and as often as requested, and nothing else |
| `LargeFiles.ExistingExact` | crates/filesync/src/server.rs:1179-1231 | which requested chunks exist |
| `LargeFiles.ArriveStaysFaithful` | crates/filesync/src/sync_engine.rs:1081-1112 | writing a chunk at its offset keeps every other received chunk in place |
| `LargeFiles.AnyOrderCommits` | crates/filesync/src/sync_engine.rs:1081-1205 | for chunks in any order with repeats and losses, the transfer is over exactly when the end marker and every chunk have arrived, whichever is last; it is refused if tombstones veto the path at that message, and otherwise commits the source |
| `LargeFiles.CountTellsAll` | crates/filesync/src/sync_engine.rs:1103-1139 | counting in-range indices tells whether all have arrived |
| `LargeFiles.FullCountExact` | crates/filesync/src/sync_engine.rs:1103-1139 | a full count means that every chunk is there if and only if no index was out of range |
| `LargeFiles.FullCountMisleads` | crates/filesync/src/sync_engine.rs:1103-1112 | chunks 0 and 2 count as a full transfer of two chunks, though chunk 1 is missing |
| `LargeFileStore.StagingApart` | crates/filesync/src/sync_engine.rs:160-171 | two paths never share a staging file |
| `LargeFileStore.TransferStore.Begin` | crates/filesync/src/sync_engine.rs:1004-1079 | an admitted start restarts the path's own transfer and touches no other |
| `LargeFileStore.TransferStore.ReceiveChunk` | crates/filesync/src/sync_engine.rs:1081-1112 | a chunk changes only its own transfer and asks for the commit exactly when it completes a finished one |
| `LargeFileStore.TransferStore.Finish` | crates/filesync/src/sync_engine.rs:1114-1139 | below a full count it returns exactly the missing indices in order and remembers the digest; otherwise it commits, with result, files, listing and ledger as the verdict says |
| `LargeFileStore.TransferStore.Commit` | crates/filesync/src/sync_engine.rs:1141-1275 | the destination changes only to bytes with the announced digest; refused and corrupt transfers leave it alone |
| `LargeFileStore.HandleChunk` | crates/filesync/src/common.rs:454-482 | the store follows the transfer model on every chunk, under whatever tombstones have arrived; other transfers and files stay |
| `LargeFileStore.HandleEnd` | crates/filesync/src/common.rs:484-555 | the store follows the transfer model on the end marker, under whatever tombstones have arrived; other transfers and files stay |
| `Digests.ParseHex32` | crates/filesync/src/manifest.rs:43-54 | reads exactly 64 hexadecimal digits and inverts the printed form of every digest |
| `Digests.HexInjective` | crates/filesync/src/lib.rs:47-49 | different digests print differently |
| `ScanCache.ManifestCache.Upsert` | crates/filesync/src/manifest_cache.rs:148-153 | sets the entry and marks the cache dirty exactly on change |
| `ScanCache.ManifestCache.PruneMissing` | crates/filesync/src/manifest_cache.rs:157-165 | keeps exactly the existing paths, counts the rest, marks dirty exactly on change |
| `ScanCache.HashOne` | crates/filesync/src/manifest.rs:77-178 | whether the hash was cached or computed, the entry is that of the file; it is computed exactly for dirty paths, unknown or changed files, and files younger than the minimum age |
| `ScanCache.ColdScanMeans` | crates/filesync/src/manifest.rs:77-178 | what a cold scan reports of files and directories |
| `ScanCache.BuildManifest` | crates/filesync/src/manifest.rs:189-325 | a scan with a sound cache and any dirty set gives the manifest of a cold scan and leaves an up-to-date, sound cache |
| `ScanCache.RunScans` | crates/filesync/src/manifest.rs:189-325 | over every run of edits and scans in which a content change changes size, mtime or inode, every manifest is the cold one |
| `Calendar.CivilInverts` | crates/core/src/logging.rs:287-298 | for every day count, negative ones included, the date is valid and has that day count |
| `Calendar.CivilFollowsCalendar` | crates/core/src/logging.rs:287-298 | day 0 is 1970-01-01 and each next day is the calendar's next day |
| `Calendar.DateByLoop` | crates/filesync/src/bin/stress_bench/main.rs:109-145 | the year-by-year, month-by-month loop gives the date of the closed form |
| `Calendar.FormatReadsBack` | crates/core/src/logging.rs:272-284 | up to the year 9999 the text has 24 characters and names exactly its instant |
| `Rotation.RotatingFile.RotateFiles` | crates/core/src/logging.rs:146-155 | every file moves up one number, the last one is dropped, number 0 is free |
| `Rotation.RotatingFile.WriteLine` | crates/core/src/logging.rs:186-215 | what is on disk stays a suffix of everything written, cut at whole records and ending with this one; a record that fits loses nothing, and a rotation only the records of the oldest file; at most the configured number of rotated files; a file passes the limit only by a single record |
| `LogCleanup.Cleanup` | crates/core/src/logging.rs:577-636 | bytes freed and left add up; exactly the rotated files older than the cutoff expire; the size pass takes the shortest run of rotated files that reaches the cap, none of them newer than one that stays; the flag is set exactly when the files never deleted exceed the cap |
| `ConfigSplice.SortLines` | crates/core/src/users.rs:653-723 | the line loop keeps, in order, exactly the lines outside the writer's sections, blank lines and comments included, and the blanks and comments at the end of an own section that a foreign one follows; the significant ones stay under their headers |
| `ConfigSplice.Splice` | crates/core/src/users.rs:653-747 | with sections as the writers see them: the writer's sections then say what its new text says, in one place; all other significant lines keep content, order and section, and every comment that stays is kept in order |
| `ConfigSplice.WritersIndependent` | crates/filesync/src/known_hosts.rs:279-372 | over every interleaving of both writers, in the same terms, each one's sections hold its last text and everything else is unchanged |
| `ConfigToml.HeadersAgree` | crates/core/src/users.rs:663-676 | for every line well-formed on its own, quoted keys included, the writers see blank lines, comments, tables and pairs as TOML does, and an array header exactly when its key is not quoted and nothing stands behind its brackets |
| `ConfigToml.OverlookedExact` | crates/core/src/users.rs:663-676 | which header lines a writer takes for its own or for somebody else's, in terms of the line and the section it stands in |
| `ConfigToml.TomlSplice` | crates/core/src/users.rs:653-747 | as TOML reads the file, a write keeps every foreign line with its section if and only if it overlooks no foreign header, and its own arrays say just its text if and only if no header of its own goes unseen |
| `ConfigToml.WriterSplice` | crates/core/src/users.rs:653-747 | the same for each of the two writers, by the lines of the file and the sections they stand in |
| `ConfigToml.TomlWritersIndependent` | crates/filesync/src/known_hosts.rs:279-372 | from a file with no such header, over every interleaving of both writers, TOML reads in each one's arrays its last text and everything else unchanged |
| `ConfigToml.CommentedArrayLost` | crates/core/src/users.rs:664-676 | an array under a commented header, behind an own section, is deleted with it |
| `ConfigToml.CommentedShareLost` | crates/core/src/users.rs:664-676 | a file of users and a commented share of which a write leaves nothing |
| `ConfigToml.QuotedHeaderMissed` | crates/core/src/users.rs:664-676 | an own header with its key in quotes is none to the writer |

## Left out

- Convergence.Converges: is about completed sessions with empty journals and no concurrent edits, and paths with no tombstone strictly above them; a tombstoned path must not be a directory that holds something. `Completion.CompletesExactly` says when a session completes.
- Shade.ShadedConverges: a tombstoned directory above the path is listed alike on both sides or back on one. One that is older than its tombstone and listed on one side only is deleted during the session; `Shade.PushTakesSubtree`, `Shade.VetoTakesSubtree` and `Shade.PushBackTakesSubtree` describe the files below it. Directories that differ in hash are left out; the source gives them all the same one.
- EngineStore.SyncEngine.ApplyBundle: parent directories created for a file get no entry of their own; a failing write is one that meets a file or a directory in its way, other I/O errors are left out.
- InitialSync.RunSession: files of all sizes travel as bundled ones; a large file's transfer is `LargeFiles.AnyOrderCommits`.
- JournalStore.ActionJournal.Open: is about files whose records are numbered upwards, which is every file the journal itself writes (`JournalStore.RunsAreLegal`); the source also replays others.
- JournalRecovery.CrashRecovers: a tail cut inside the compacted image is left out, which the program writes to another file and renames into place.
- EngineStore.SyncEngine.ApplyRenameAt: does not describe the manifest when one path contains the other, which the operating system refuses.
- Rotation.RotatingFile.WriteLine: has no I/O errors and starts from files it wrote itself.
- LogCleanup.Cleanup: has no failing removals; the directory walk is not modelled.
- ConfigSplice.Splice: works on lines; the blank lines at the joints are placed as the code does, and the new text must consist of the writer's own sections.
- ConfigToml.TomlSplice: reads line by line; left out are quoted keys with escapes or closing brackets, and values over several lines with a line that begins with a bracket. A dotted key names a section of its own.
- ScanCache.RunScans: excludes and unreadable or pre-1970 files are taken out of the tree beforehand, and a file does not change while it is read.
- LargeFiles.StreamLargeFile: chunk numbers are unbounded; the source counts them in 32 bits.
- Drain.DrainActionJournal: file sizes, decisions, acknowledgements and what is recorded meanwhile are inputs by chunk and entry; `Admission.Decide` makes the decision and `Admission.DecisionMeans` says what it is.
- Unsafe relative paths, which the engine skips: paths are component sequences here.
- Conflict copies, suppression of watcher events and disk-space checks.
- TLS, sockets, threads, channels, heartbeats and the swallowing of ping messages in the I/O loop.
- The persisted form of ledger and cache, and their loading from damaged files.
- `diff_manifests`, statistics, broadcasts to other clients and acknowledgements of bundles.
- The watcher, the HTTP server, the GUI, users, shares and trash.
