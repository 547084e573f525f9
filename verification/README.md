# Personal Context: a verified model of its hardest parts

Personal Context keeps a user's records and chat transcripts in a local store: a SQLite database
and managed files beside it. Five parts of its command line and server have to be right when
something goes wrong in the middle, and this project models them in Dafny and proves what they
promise: replacing the store from a snapshot (A), importing transcripts that grow (B), writing,
reading and merging snapshots (C), editing a record in place (D), and ordering and paging records
(E). `dafny verify dfyconfig.toml` checks everything.

In each part the protocol is a set of functions on values (module names such as `RestoreProtocol`,
`EditSaga`, `MergeChatStep`), about which the theorems are, and a class or loop methods in the form
of the code (`RestoreStore`, `EditRun`, `MergeStore`, `ChatBatch`, `JsonReader`, `SnapshotFiles`)
proved to do what those functions say. Failures are a plan: for each operation in program order it
says what comes of it. In the restore (A), in the writes of a transcript (B) and in the import of a
snapshot (C) an operation works, fails, or is where the process dies; in an edit (D) it works or
fails, and a process that dies is one for which everything fails from there on, as failed
compensations are passed over. What is proved for every plan is proved for every failure at every
step.

## The parts

**A. Store replacement.** `RestoreDisk` has the live root, the backup and the staging directory as
maps from entry to content, the durable marker, and the operations with their faults: a rename
happens or does not; a marker write may report failure although it took effect; a removal may
leave some entries and tear others; an inspection that recovery decides by may fail. `RestoreProtocol` is the restore and its recovery branch by
branch, `RestoreInvariant` the per-entry invariants, `RestoreTheorems` what follows from them,
`RestoreLimits` and `RestoreOneCrash` exactly how far they go, `RestoreOutcome` what undisturbed
processes come to, and `RestoreLiveness` that recovery always gets there.

**B. Chat import.** `ChatTranscript` parses lines into items and folds session metadata over them;
`ChatRefinement`, `ChatMetadata` and `ChatIdentity` have the laws of that parse. `ChatImport` is the
import of a growing file into rows and a managed copy, for any parser with two of these laws;
`ChatBatch` the batched writes, `ChatRawSlot` the promotion of a copy. `JsonScan` and `JsonReader` are the two-pass reader of `.json` transcripts
over a token stream with duplicate names (section 4 of RFC 8259).

**C. Snapshots.** `SnapshotTree` writes a snapshot as a directory tree and reads it,
`SnapshotRoundTrip` and `SnapshotOrder` have the laws. `MergeRecords`, `MergeChats` and
`MergeChatStep` are the merge of one record or chat, `MergeStore` the import over rows and files
with its sweep for orphans.

**D. Edit.** `EditSaga` is the edit with its compensations, `EditUndo` what a failure leaves,
`EditInterrupted` what is left when compensations fail too or the process dies, `EditResult` what a
success leaves, `EditSuccess` when there is one.

**E. Order and paging.** `RecordOrder`, `DayOrder` and `DayOrderRun` have the canonical order and
fractional keys, `Paging` the pages and cursors.

## Where the code falls short of what it is for

Each of these is a lemma with a concrete input or an exact condition.

1. Recovery of a committing restore removes the backup without recording Done. If it dies inside
   that removal, the next recovery succeeds on a mixture of old and new entries
   (`InterruptedRemovalMixes`, `DamagedBackupExactly`).
2. Recovery decides by three inspections, and one that fails misleads it. If that of the staging
   directory fails for another reason than absence, or that of the live database after a roll-forward,
   recovery rolls back whatever it finds. After a single death that may already be a mixture, which it
   reports as a success (`NoBackupMixesAtOnce`, `PartBackupMixesAtOnce`; with `OneCrashExactly` this is
   all that can go wrong after one death). It does so under a marker that still allows roll-forward,
   and a later recovery may roll forward over what is left (`FailedInspectionMixes`,
   `DestructionMarkedExactly`). If that of the backup fails after two deaths in recovery, a half-done
   rollback is taken for finished and the remaining originals are removed (`UninspectableBackupMixes`).
   With 1 this is all: `AtomicityExactly`.
3. An import whose file gains items between its parse and its copy succeeds with a managed copy that is
   ahead of the rows. The next import repairs that only if the file has not grown; if it has grown by
   lines without items, the missing items stay missing under a success, and otherwise the chat is
   refused from then on (`LateGrowth`, `CompleteExactly`). An import that dies between its commit and
   the promotion of the copy, after which the transcript gains items, is refused from then on as well
   (`RefusedAfterDeath`, `RefusedExactly`, `RefusedForever`).
4. A metadata row that claims an ancestor before the first item row that carries the parent's id
   takes a subagent file's own id away, and two such files of one parent may then share an id
   (`IdentifiedExactly`, `SameLinesCollideExactly`, `ClaimedAncestorHidesSubagent`).
5. A newer chat version does not replace the stored one: a field it leaves empty keeps its value
   and the time range only grows, so imports of two snapshots need not commute
   (`NewestStandsExactly`, `DroppedTitleReturns`). For two versions, ties included, and for two whole
   snapshots it is said when they do (`VersionsCommuteExactly`, `ImportsCommuteExactly`).
6. The rollback of a failed chat import writes the session back without its parent
   (`FailureHarmlessExactly`), and a process that dies in it may leave no chat at all
   (`DeathInRollbackLosesChat`).
7. A chat whose id is stored under another source is noticed only when it is reached, after records
   have been written (`ClashFoundLate`).
8. A chat import that dies once the session is written leaves it as new as the snapshot's, so that
   the same snapshot skips the chat from then on, with its old items or raw file
   (`DeathHarmlessExactly`, `ReimportHealsExactly`, `HalfImportedStays`).
9. A file that two roots reach is scanned twice in one run. If it has been appended to, the second scan
   is compared before the first one's write is flushed and appended after it has been, and its new
   items are stored twice (`ScannedTwice`).
10. A record import writes figure files before rows. If it stops in between, the old row stands over the
   snapshot's bytes wherever they share a name (`OverwrittenExactly`).
11. An edit that can neither put a new file in place nor move the old one back leaves that under a backup
   name that no compensation knows of (`MovedAsideForGood`).

## Model

| member | source | states |
|---|---|---|
| RestoreTheorems.ManyCrashAtomicity | cli/internal/cli/restore_recovery.go:65-96 | after a restore that fails or dies anywhere and any number of recoveries that fail or die anywhere, a recovery that succeeds leaves the old store or the new one and no marker, when the inspections of the staging directory and of the database do not fail and Done comes first or the backup goes in one step and can be inspected |
| RestoreTheorems.OneCrashAtomicity | cli/internal/cli/restore_recovery.go:142-219 | the same for one interrupted restore and one recovery, of the code as it is, with every directory removal split into entries and torn content, when the inspections of the staging directory and of the database do not fail |
| RestoreLimits.AtomicityExactly | cli/internal/cli/restore_recovery.go:80-91 | many-crash atomicity holds for every store, fault plan and number of recoveries exactly when the inspections of the staging directory and of the live database never fail and, unless Done is recorded before the backup goes, the backup goes in one step and its inspection never fails |
| RestoreOneCrash.OneCrashExactly | cli/internal/cli/restore_recovery.go:142-184 | one-crash atomicity holds for every store and every plan exactly when the inspections of the staging directory and of the live database never fail, whatever becomes of that of the backup, however directories are removed and whether or not Done comes first |
| RestoreOneCrash.PartBackupMixesAtOnce | cli/internal/cli/restore_recovery.go:159-177 | the restore dies inside the removal of the backup and one of these two inspections fails in the one recovery: it succeeds on a mixture |
| RestoreOneCrash.NoBackupMixesAtOnce | cli/internal/gitsnapshot/snapshot.go:621-664 | the same when the backup has gone, in one step or not: the new-only entry is deleted and the new database stays |
| RestoreLimits.InterruptedRemovalMixes | cli/internal/cli/restore_recovery.go:196-208 | the code as it is, two deaths, the second inside the removal of the backup: a recovery succeeds on a mixture of old and new |
| RestoreLimits.FailedInspectionMixes | cli/internal/cli/restore_recovery.go:159-177 | a failed inspection of the staging directory, or of the database after a roll-forward, starts a roll-back under a marker that still allows roll-forward; the next recovery mixes the stores, even with one-step removals |
| RestoreLimits.UninspectableBackupMixes | cli/internal/cli/restore_recovery.go:163-189 | three recoveries, of which the first dies with the staging directory gone, the second half-way in its roll-back, and the third cannot inspect the backup: it succeeds on a mixture, even with one-step removals |
| RestoreLimits.DamagedBackupExactly | cli/internal/gitsnapshot/snapshot.go:632-647 | what a partly removed backup does to the recovery after it: the store is uniform exactly when what is left gives the old store back (every other original is the same in both), or says nothing (what is left is the same in both, and the new store has no entry the old one lacked) |
| RestoreLimits.RollForwardSucceedsExactly | cli/internal/gitsnapshot/snapshot.go:551-606 | from any disk, an uninterrupted roll-forward gives the new store exactly when no staged content has been destroyed |
| RestoreOutcome.UndisturbedRecovery | cli/internal/cli/restore_recovery.go:65-184 | from any disk of the invariant an undisturbed recovery succeeds, leaves no marker (nor, once a commit had begun, a directory beside the store), and settles on the store that the marker and the two directories decide on |
| RestoreLiveness.RecoveryGetsThere | cli/internal/cli/restore_recovery.go:65-184 | of the code as it is and of each variant: after a restore and any number of recoveries that fail or die anywhere, with removals cut short and any of the three inspections failing, an undisturbed recovery succeeds with a database, no marker and, once a commit had begun, nothing beside the store |
| RestoreLiveness.RecoverKeepsLive | cli/internal/cli/restore_recovery.go:142-219 | however a recovery fails or dies the database is live or, while a restore is committing, live or in the backup |
| RestoreOutcome.UndisturbedRestore | cli/internal/cli/restore_db.go:58-116 | an undisturbed restore succeeds with the staged set and leaves no marker, staging or backup |
| RestoreTheorems.RunKeeps | cli/internal/cli/restore_db.go:58-150 | wherever the restore fails or dies, the disk is one that recovery can handle; success means the root is the staged set |
| RestoreTheorems.RecoverKeeps | cli/internal/cli/restore_recovery.go:142-184 | under the same assumptions: a recovery that fails or dies leaves a disk the next one can handle; success means a uniform store and no marker |
| RestoreTheorems.HistoryKeeps | cli/internal/cli/restore_recovery.go:65-96 | that invariant over a restore and any sequence of recoveries |
| RestoreTheorems.RollForwardNeverFollowsDestruction | cli/internal/cli/restore_db.go:93-150 | on a disk of the invariant: where the new content of a staged entry is in neither the root nor the staging directory, the marker forbids roll-forward or the staging directory is gone |
| RestoreOneCrash.DestructionMarkedExactly | cli/internal/cli/restore_db.go:93-150 | roll-forward never follows destruction, through every history of a restore and any number of recoveries and however directories are removed, exactly when the inspections of the staging directory and of the live database never fail |
| RestoreTheorems.ReplaceContentsOutcome | cli/internal/gitsnapshot/snapshot.go:678-757 | success, or a failure of the clean-up only, means the root is the staged set; a rolled-back failure means it is as before; otherwise every old entry is still in root or backup |
| RestoreTheorems.CompleteReplacementFromAnyMix | cli/internal/gitsnapshot/snapshot.go:539-612 | from any per-entry mix of stages every interruption leaves such a mix, and success leaves the staged set with nothing staged |
| RestoreTheorems.CompleteReplacementIdempotent | cli/internal/gitsnapshot/snapshot.go:551-598 | once everything is promoted another roll-forward changes nothing, whatever fails |
| RestoreTheorems.LiveTargetNeverRemoved | cli/internal/gitsnapshot/snapshot.go:564-585 | where roll-forward is entered its branch that removes a live target cannot be taken |
| RestoreTheorems.RestoreBackupFromAnyMix | cli/internal/gitsnapshot/snapshot.go:621-664 | from any undoable mix, torn targets included, roll-back keeps every original in root or backup and ends with the old store and an empty backup |
| RestoreTheorems.RestoreBackupIdempotent | cli/internal/gitsnapshot/snapshot.go:621-664 | once the old store is back another roll-back changes nothing, whatever fails |
| RestoreTheorems.RestoreBackupOnePlace | cli/internal/gitsnapshot/snapshot.go:621-664 | at every interruption of a roll-back the old content of an entry is in exactly one of root and backup, if it was when the roll-back began |
| RestoreTheorems.ForwardHasOnePlace | cli/internal/gitsnapshot/snapshot.go:697-735 | so it is at every stage of a replacement, for an entry that it changes |
| RestoreInvariant.MoveAsideKeeps | cli/internal/gitsnapshot/snapshot.go:697-716 | while live entries are moved aside, the list of moved entries is exact and each entry is untouched or backed up |
| RestoreInvariant.PromoteKeeps | cli/internal/gitsnapshot/snapshot.go:717-735 | while staged entries are promoted, the list of promoted entries is exact and each entry is in one of the three stages |
| RestoreInvariant.RestoreContentsKeeps | cli/internal/gitsnapshot/snapshot.go:918-958 | undoing a failed replacement keeps every old entry, and without an error brings the old store back |
| RestoreInvariant.CompleteKeeps | cli/internal/gitsnapshot/snapshot.go:539-612 | roll-forward keeps the invariant of its state at every interruption |
| RestoreInvariant.RestoreKeeps | cli/internal/gitsnapshot/snapshot.go:621-664 | roll-back keeps every original at every interruption |
| RestoreStore.Store.MoveExistingAside | cli/internal/gitsnapshot/snapshot.go:697-716 | the loop does to the disk what the function of the protocol says, and returns the entries moved so far |
| RestoreStore.Store.PromoteStaged | cli/internal/gitsnapshot/snapshot.go:717-735 | likewise for the promotion loop and its list |
| RestoreStore.Store.ReplaceContents | cli/internal/gitsnapshot/snapshot.go:678-757 | likewise for the whole replacement with its two lists, early exits and rollback hook |
| RestoreStore.Store.RemovePromoted | cli/internal/gitsnapshot/snapshot.go:920-928 | the reverse loop over promoted entries, which notes a failure and goes on |
| RestoreStore.Store.PutBackMoved | cli/internal/gitsnapshot/snapshot.go:929-947 | the reverse loop over moved entries, which notes a failure and goes on |
| RestoreStore.Store.RestoreSnapshotContents | cli/internal/gitsnapshot/snapshot.go:918-958 | both loops and the flush, and whether all of it worked |
| RestoreStore.Store.RollbackSnapshotContents | cli/internal/gitsnapshot/snapshot.go:908-916 | the hook comes first; if it fails nothing is undone |
| RestoreStore.Store.CompleteReplacement | cli/internal/gitsnapshot/snapshot.go:539-612 | the roll-forward loop with all its branches |
| RestoreStore.Store.RestoreReplacementBackup | cli/internal/gitsnapshot/snapshot.go:621-664 | the roll-back loop in reverse order |
| RestoreStore.Store.RecoverCommittingRestore | cli/internal/cli/restore_recovery.go:142-184 | the choice between roll-forward and roll-back from marker and disk, with its three inspections |
| RestoreStore.Store.CleanupCompletedRestore | cli/internal/cli/restore_recovery.go:196-219 | staging goes first, then the backup |
| RestoreStore.Store.RecoverInterruptedRestore | cli/internal/cli/restore_recovery.go:65-96 | the switch on the phase of the marker |
| RestoreStore.Store.FinishCommittedRestore | cli/internal/cli/restore_db.go:134-144 | Done is recorded, then the clean-up, then the marker goes |
| RestoreStore.Store.AbortFailedRestorePromotion | cli/internal/cli/restore_db.go:120-130 | what follows a replacement that was rolled back |
| RestoreStore.Store.RunRestoreDB | cli/internal/cli/restore_db.go:58-116 | the whole command from the first marker on |
| ChatImport.ExactlyOnce | cli/internal/cli/chat.go:689-1001 | after any growth of the file by lines, between imports and between the parse and the copy of one, and any imports that fail or die anywhere: an import that succeeds leaves the rows of a full parse and the managed copy equal to the file exactly when no items came late in it and the copy was not ahead of the rows before; ordinals are 0, 1, 2, ... in any case, and a refusal changes neither store |
| ChatImport.CompleteExactly | cli/internal/cli/chat.go:689-1001 | the same from any two stores that are beginnings of the file |
| ChatImport.TimelyIsExactlyOnce | cli/internal/cli/chat.go:689-1001 | in a run where no import meets late items every success is exactly once, whatever fails or dies |
| ChatImport.LateGrowth | cli/internal/filesystem/chat_source.go:107-170 | from the empty store, without any failure: items come between parse and copy of the first import; the next import repairs the rows, succeeds without those items, or is refused under every mishap, according to what the file gains in between |
| ChatImport.RefusedExactly | cli/internal/cli/chat.go:911-984 | a parseable file is refused exactly when rows and managed copy stop at different places, either of them ahead, and the file has items beyond both |
| ChatImport.RefusedAfterDeath | cli/internal/cli/chat.go:911-984 | from the empty store: imported, grown, imported with a death between commit and promotion, grown again; every later import is refused exactly when both growths brought items |
| ChatImport.UndisturbedSucceedsExactly | cli/internal/cli/chat.go:689-1001 | an undisturbed import succeeds exactly when the file parses, has items and is not refused |
| ChatImport.RefusedForever | cli/internal/cli/chat.go:940-984 | a refused chat is never imported again, however the file grows, and its stores never change |
| ChatImport.ScannedTwice | cli/internal/cli/chat.go:694-727 | a file appended to is scanned twice in one run: the appended items are stored a second time, and the chat is complete exactly when there are none |
| ChatImport.LineParserIsLawful | cli/internal/chatimport/chatimport.go:329-396 | the parser of lines has what the import is proved from: beginnings parse to the first items, ordinals count up, and the same lines give as many items from any ordinal |
| ChatImport.ImportKeeps | cli/internal/cli/chat.go:689-832 | one import, during which the file may grow, keeps rows and managed copy beginnings of the full parse and of the file |
| ChatImport.AppendedExactly | cli/internal/cli/chat.go:911-984 | what an append does with each of the three lengths: managed, stored, all, in any order of the first two |
| ChatImport.StoredExactly | cli/internal/cli/chat.go:986-1009 | the appended items are all stored exactly when there are none or the rows are the full parse |
| ChatImport.ItemsAlreadyStored | cli/internal/cli/chat.go:986-1001 | the loop through a map of ordinals answers whether every appended item has a row of its ordinal that matches |
| ChatImport.FilePrefixMatches | cli/internal/cli/chat.go:873-909 | the chunked comparison answers whether the managed copy is a beginning of the file |
| ChatRefinement.AppendRefinesFull | cli/internal/chatimport/chatimport.go:329-396 | for old bytes that end at a line boundary, the full parse is the old parse followed by the parse of the new bytes with continued ordinals, errors included |
| ChatRefinement.AppendRefinesFullAnywhere | cli/internal/chatimport/chatimport.go:329-396 | the same when the old bytes end inside a line, if both parse and a value never becomes another value by growing |
| ChatRefinement.OrdinalsCount | cli/internal/chatimport/chatimport.go:352-396 | ordinals count up from the start without a gap |
| ChatMetadata.AppendTimesRefineFull | cli/internal/chatimport/chatimport.go:988-1065 | start and last activity folded from the stored ones over the appended bytes are those of a full parse, if the old bytes had a time stamp |
| ChatIdentity.ForkKeepsItsHeader | cli/internal/chatimport/chatimport.go:352-436 | a fork's first header, after any lines that say nothing of the session, fixes parent, id, directory and title whatever lines follow |
| ChatIdentity.SubagentIdentity | cli/internal/chatimport/chatimport.go:398-436 | the id of a subagent file, recognised by its place or by its rows' own mark, whatever its lines: its parent's id and its own name if an item row carries that id before any metadata row claims an ancestor; otherwise the first id a metadata row names, or the bare name |
| ChatIdentity.IdentifiedExactly | cli/internal/chatimport/chatimport.go:398-436 | such a file gets its own id exactly when no claim comes before its first carried id |
| ChatIdentity.SiblingsKeepApart | cli/internal/chatimport/chatimport.go:398-436 | two subagent files of one parent, with lines of their own or the same ones, get different ids when neither claims an ancestor first |
| ChatIdentity.SameLinesCollideExactly | cli/internal/chatimport/chatimport.go:398-436 | two subagent files of one parent with the same lines share an id exactly when no carried id comes before the first claim and the metadata names both the same |
| ChatIdentity.ClaimedAncestorHidesSubagent | cli/internal/chatimport/chatimport.go:942-986 | two files of two lines each, a claim and a message of the parent: both get the id that the claim names |
| ChatTranscript.ParseReader | cli/internal/chatimport/chatimport.go:352-396 | the loop over the lines with its session, items and ordinal is the fold that the laws are about |
| ChatTranscript.ItemsIgnoreSession | cli/internal/chatimport/chatimport.go:352-396 | the items of a parse do not depend on the session it starts from |
| ChatBatch.ChatImportBatch.Add | cli/internal/cli/chat.go:202-208 | an entry is queued and a full batch is flushed |
| ChatBatch.ChatImportBatch.Queue | cli/internal/cli/chat.go:694-727 | pending writes of a session are flushed before another one is queued, unless both are the same repair: so the batch is sound at every flush |
| ChatBatch.ChatImportBatch.HasSourceSession | cli/internal/cli/chat.go:210-218 | the search answers whether the identity is queued |
| ChatBatch.ChatImportBatch.Flush | cli/internal/cli/chat.go:246-304 | one transaction for all entries, then one promotion for each in order until one fails; it succeeds exactly when the commit and every promotion work, and then has counted every item |
| ChatBatch.FlushIsOneWritePerSession | cli/internal/cli/chat.go:246-304 | to each session a committed flush of such a batch is one write of its own: all its rows, and a managed copy that is the old one, missing or a staged one |
| ChatBatch.FlushLeavesOthersAlone | cli/internal/cli/chat.go:246-304 | sessions not in the batch keep rows and raw copy |
| ChatRawSlot.Slot.Promote | cli/internal/filesystem/chat_source.go:232-302 | whatever fails or dies, the managed copy is the old one, the staged one, or missing with the old one in the backup |
| ChatRawSlot.Slot.RestoreBackup | cli/internal/filesystem/chat_source.go:209-225 | a failed promotion is undone from the backup, or the backup is kept |
| JsonScan.ScanRefinesLookup | cli/internal/chatimport/chatimport.go:589-832 | on the tokens of any document the two passes find the items of the first preferred name whose last value is an array, and session fields as a map lookup gives them; otherwise nothing |
| JsonScan.SkipTree | cli/internal/chatimport/chatimport.go:871-903 | skipping a value consumes its tokens and no more |
| JsonScan.DecodeTree | cli/internal/chatimport/chatimport.go:762-791 | decoding the tokens of a value gives the value and what follows it |
| JsonScan.ScanTrees | cli/internal/chatimport/chatimport.go:674-721 | the first pass over the fields of an object notes for each name its last value and how often it occurs |
| JsonScan.FindsLast | cli/internal/chatimport/chatimport.go:723-760 | the second pass, told how often the name occurs, returns the last occurrence |
| JsonReader.Decoder.SkipComposite | cli/internal/chatimport/chatimport.go:882-903 | the two loops over the decoder, with a termination measure, leave what the recursive skip leaves |
| JsonReader.Decoder.ScanTranscript | cli/internal/chatimport/chatimport.go:674-721 | the first pass as a loop over the decoder |
| JsonReader.Decoder.ParseArray | cli/internal/chatimport/chatimport.go:723-760 | the second pass as a loop over the decoder |
| JsonReader.ParseTranscript | cli/internal/chatimport/chatimport.go:589-620 | both passes together are the function that the lookup law is about |
| MergeStore.Stack.ImportSnapshot | cli/internal/cli/snapshot_support.go:256-394 | identities that do not fit are rejected before any write; success merges both tables, leaves the snapshot's files and no orphans, and keeps identities one-to-one; whatever fails and wherever the process dies, no file named by a row is deleted, what is written is merged in order up to there, and the files of every record but the one it stopped at are its own; without faults it succeeds exactly when the snapshot is importable |
| MergeStore.Stack.ImportRecords | cli/internal/cli/snapshot_support.go:289-310 | the records up to the failure are merged in order with their files, and the skipped ones counted; of the record it stopped at, the old row over old or new files or the new row over the new ones |
| MergeStore.Stack.ReplaceRecordChildren | cli/internal/cli/snapshot_support.go:542-612 | files, then rows in one transaction, then stale files: the old row over files that are as they were or the snapshot's, or the merged row over exactly the snapshot's bytes; named files stay, other records are untouched |
| MergeStore.OverwrittenExactly | cli/internal/cli/snapshot_support.go:542-612 | the bytes under the names of a stored row are sure to stay, wherever its import stops before the rows are written, exactly when the snapshot's figures of those names have them already |
| MergeStore.Stack.DeleteStaleFigures | cli/internal/cli/snapshot_support.go:614-643 | files the committed row names keep their bytes; after success the directory has no others |
| MergeStore.Stack.ImportChat | cli/internal/cli/snapshot_support.go:312-385 | the step with its rollback, which goes on after a failure and stops when the process dies, as the function on both stores says |
| MergeStore.Stack.ImportChats | cli/internal/cli/snapshot_support.go:311-386 | the chats up to the failure or the death are merged in order; of the next one only what such an import may leave, and no other row or raw file is touched |
| MergeStore.Stack.ValidateIdentities | cli/internal/cli/snapshot_support.go:396-439 | the loop with its set of seen keys accepts only, and without faults exactly, distinct identities that are no other stored chat's |
| MergeStore.Stack.ReconcileLocalOrphans | cli/internal/cli/doctor.go:497-539 | whatever fails, what rows name keeps its bytes; after success every directory and figure file belongs to a row |
| MergeStore.Stack.ClashFoundLate | cli/internal/cli/snapshot_support.go:311-349 | a newer chat whose id is stored under another source passes the check at the start and fails only when it is reached |
| MergeStore.KeepsNamedTransitive | cli/internal/cli/snapshot_support.go:256-394 | that named files stay carries over from step to step |
| MergeRecords.GreatestVersionStands | cli/internal/cli/snapshot_support.go:289-310 | each record ends as its version with the greatest updated_at among the stored one and the snapshot's, keeping its creation time |
| MergeRecords.ReimportSkipsAll | cli/internal/cli/snapshot_support.go:301-304 | importing a snapshot again, or any part of it, skips every record and changes nothing |
| MergeRecords.ImportsCommute | cli/internal/cli/snapshot_support.go:289-310 | two imports commute when equally old versions of a record have one content and a record not stored yet has one creation time |
| MergeRecords.VersionsCommuteExactly | cli/internal/repository/sqlite/repository.go:362-470 | for two versions of one record that condition is exact |
| MergeChats.NewestItemsStand | cli/internal/repository/sqlite/chat.go:117-160 | items, device and path of each chat are those of its version with the greatest updated_at |
| MergeChats.NewestStandsExactly | cli/internal/repository/sqlite/chat.go:117-160 | a newer version stands as it is exactly when it fills every field the stored one fills and its times reach as far |
| MergeChats.VersionsCommuteExactly | cli/internal/repository/sqlite/chat.go:117-160 | two versions of one chat, of any times, commute exactly when the older is skipped anyway or adds nothing under the newer or, in a tie, both are skipped or come to one row |
| MergeChats.ImportsCommuteExactly | cli/internal/cli/snapshot_support.go:311-385 | two snapshots, each with distinct chats, may be imported in either order exactly when that holds of every chat that both have |
| MergeChats.MergedOnce | cli/internal/cli/snapshot_support.go:311-385 | what an import does to a chat depends on its one version only |
| MergeChats.DroppedTitleReturns | cli/internal/repository/sqlite/chat.go:117-160 | a title the newer version has dropped comes back in one order of two imports only |
| MergeChats.ReimportSkipsAll | cli/internal/cli/snapshot_support.go:320-324 | importing a snapshot's chats again skips them all and changes nothing |
| MergeChats.ImportKeepsOneToOne | cli/internal/cli/snapshot_support.go:396-439 | an import that goes through keeps source identities one-to-one |
| MergeChats.SecondCheckPasses | cli/internal/cli/snapshot_support.go:312-315 | after the check at the start, the check repeated at each chat never fails |
| MergeChatStep.SuccessMerges | cli/internal/cli/snapshot_support.go:311-385 | a chat that is imported is the merged row, and its raw file the snapshot's |
| MergeChatStep.FailureLeaves | cli/internal/cli/chat.go:1191-1234 | whatever fails, in the rollback too, with the promotion of a raw file leaving the old one, none or the new one, and wherever the process dies: no other chat or raw file is touched; the row is as it was, upserted with its old items, merged, or one of those deleted, rewritten without its parent, or given its old items; the raw files are as they were, missing, the snapshot's or the saved ones |
| MergeChatStep.OneFailureRollsBack | cli/internal/cli/chat.go:1191-1234 | when one thing goes wrong, a promotion that fails although it took effect included, the rollback gives back rows and raw files, but that the stored session may have lost its parent |
| MergeChatStep.FailureHarmlessExactly | cli/internal/cli/chat.go:1191-1234 | one failure is sure to leave the chats as they were exactly when the stored session has no parent or the import never gets to write over it |
| MergeChatStep.DeathHarmlessExactly | cli/internal/cli/snapshot_support.go:331-385 | whatever may go wrong, death included, the chats are sure to stay as they were exactly when the import never gets to write |
| MergeChatStep.DeathInRollbackLosesChat | cli/internal/cli/chat.go:1191-1200 | one failure and a death after the first step of the rollback: the stored chat is gone |
| MergeChatStep.ReimportHealsExactly | cli/internal/cli/snapshot_support.go:311-385 | after a death, importing the snapshot again undisturbed ends in the merged chat and its raw file exactly when the process died before the session was written or after everything was |
| MergeChatStep.HalfImportedStays | cli/internal/cli/snapshot_support.go:320-324 | once the row is as new as the snapshot no import of it changes rows or raw files, whatever is missing |
| MergeChatStep.SucceedsExactly | cli/internal/cli/snapshot_support.go:311-385 | without faults a chat is imported exactly when its identity is free and it is old or can be written |
| SnapshotRoundTrip.RoundTripExactly | cli/internal/gitsnapshot/snapshot.go:290-512 | whatever the listing order, reading what was written gives the sorted snapshot exactly when names and ids are distinct, segments valid, required fields there, figures of one name alike and no large-file stubs, and raw content goes with a raw key |
| SnapshotRoundTrip.RecordSurvivesExactly | cli/internal/gitsnapshot/snapshot.go:1327-1457 | one record comes back, with its lists sorted, exactly when it is valid |
| SnapshotRoundTrip.ChatSurvivesExactly | cli/internal/gitsnapshot/snapshot.go:1191-1325 | one chat comes back, with its items sorted, exactly when it is valid |
| SnapshotRoundTrip.RegistryBackExactly | cli/internal/gitsnapshot/snapshot.go:1021-1101 | a registry comes back sorted exactly when its ids are distinct and not blank and its times set |
| SnapshotOrder.WriteIgnoresListOrder | cli/internal/gitsnapshot/snapshot.go:290-512 | a snapshot and the same one with its lists, and the lists in those, in another order are written as the same tree |
| KeyedDirectory.SortedBackExactly | cli/internal/gitsnapshot/snapshot.go:1135-1189 | sorted, written, listed in any order, read and sorted: the list comes back exactly when its keys are distinct and each member survives |
| KeyedDirectory.WriteIgnoresOrder | cli/internal/gitsnapshot/snapshot.go:325-423 | a directory of entries does not depend on the order they are written in |
| SnapshotTree.DateOrders | cli/internal/gitsnapshot/snapshot.go:1149-1188 | the orders of records and of chats are strict and tell apart whatever has different ids |
| SnapshotFiles.WriteSnapshotContents | cli/internal/gitsnapshot/snapshot.go:290-512 | the writing loops give the tree that the laws are about |
| SnapshotFiles.ReadSnapshot | cli/internal/gitsnapshot/snapshot.go:961-986 | the reading loops, with their early exits, give what the laws are about |
| SnapshotFiles.WriteRecord | cli/internal/gitsnapshot/snapshot.go:325-423 | the entry of one record, with the loop over its figures |
| SnapshotFiles.ReadFigures | cli/internal/gitsnapshot/snapshot.go:1409-1457 | the loop accepts exactly the listed figures with their files and no other file |
| SnapshotFiles.ReadChatItems | cli/internal/gitsnapshot/snapshot.go:1280-1325 | the loop with its set of seen ordinals accepts exactly distinct ordinals and sorts them |
| SnapshotFiles.ReadRegistryFile | cli/internal/gitsnapshot/snapshot.go:1054-1101 | the loop with its set of seen ids accepts exactly distinct ids that are not blank |
| EditUndo.FailureRestores | cli/internal/cli/edit.go:49-131 | when nothing fails but one forward step, a failure leaves every file as it was with no temporary or backup file, the record as it was, and the rows as they were up to new ids of rows that had been deleted |
| EditUndo.QuietCompensate | cli/internal/cli/edit_support.go:274-368 | compensations that all work undo every list |
| EditResult.SuccessReplaces | cli/internal/cli/edit.go:49-131 | a success leaves exactly the rows named by the input, each with its last body and its old note, the input's files in place, removed files gone unless stuck, and every other path as it was |
| EditSuccess.SucceedsExactly | cli/internal/cli/edit.go:49-131 | when no operation fails an edit succeeds exactly when no new name is given twice for one kind |
| EditUndo.CommitAllUndoable | cli/internal/cli/edit_support.go:253-300 | undoing the commits last-in first-out gives the files before them, even when final paths repeat |
| EditUndo.CommitOneUndone | cli/internal/cli/edit_support.go:253-271 | undoing one commit gives the files before it but for the staged copy; a commit that fails half-way has undone itself, unless moving the old file back fails too |
| EditUndo.UndoSideRestores | cli/internal/cli/edit_support.go:303-368 | from the ledgers of created, updated and deleted rows the original rows come back; unless something was deleted, exactly |
| EditUndo.ForwardUndoable | cli/internal/cli/edit.go:84-127 | every state of an edit in which at most one operation fails can be undone to the one it started from |
| EditInterrupted.InterruptedLosesNoFile | cli/internal/cli/edit.go:84-127 | wherever an edit stops, at a forward step or between the two renames of a commit, and whatever fails, what was in a file is there still or in a backup |
| EditInterrupted.FailureLosesNoFile | cli/internal/cli/edit.go:49-82 | the same after a failed edit whose compensations fail in any way, or whose process dies in them |
| EditInterrupted.FailureKeepsRows | cli/internal/cli/edit_support.go:303-368 | wherever an edit stops, and whatever fails in it and in its compensations: rows it had not deleted keep name and note with the old or the new body, and nothing is there that was not there, created or brought back |
| EditInterrupted.MovedAsideForGood | cli/internal/cli/edit_support.go:253-271 | a file moved aside whose replacement fails and that cannot be moved back stays under its backup name, although every compensation works |
| EditResult.UpsertAllWrites | cli/internal/cli/edit_support.go:136-203 | after the upserts each name has one row: the last body given for it and the old note, or the old row |
| EditResult.DeleteAllRemoves | cli/internal/cli/edit_support.go:207-249 | exactly the rows whose name is not in the input go, and the ledger says which |
| EditResult.FilesAfterCommit | cli/internal/cli/edit_support.go:253-294 | after the commits, without the backups, each path holds the last input for it or what it held |
| EditRun.Editor.StageInputFiles | cli/internal/cli/edit_support.go:77-132 | the staging loop, which stops at the first failure with what it has staged noted |
| EditRun.Editor.UpsertRecords | cli/internal/cli/edit_support.go:136-203 | the upsert loop with its ledgers, and the set of names it has seen |
| EditRun.Editor.CommitOne | cli/internal/cli/edit_support.go:253-271 | backup, rename, and the rename back when that fails |
| EditRun.Editor.CommitStagedFiles | cli/internal/cli/edit_support.go:253-271 | the commit loop with its list of committed files |
| EditRun.Editor.DeleteRemoved | cli/internal/cli/edit_support.go:207-249 | the deletion loop with its ledger |
| EditRun.Editor.FinalizeCommittedFiles | cli/internal/cli/edit_support.go:282-300 | backups removed in order after a success, commits undone in reverse after a failure, passing over what fails |
| EditRun.Editor.CleanupStagedFiles | cli/internal/cli/edit_support.go:274-278 | every temporary file is tried |
| EditRun.Editor.RollbackRepository | cli/internal/cli/edit_support.go:303-368 | the three loops for each kind, then the record, passing over what fails |
| EditRun.Editor.ConcludeEdit | cli/internal/cli/edit.go:126-127 | after a success the files of deleted rows and the backups go |
| EditRun.Editor.CompensateEdit | cli/internal/cli/edit.go:49-82 | after a failure the deferred compensations run, the last deferred first |
| EditRun.Editor.RunEdit | cli/internal/cli/edit.go:49-131 | the steps in order and the deferred compensations in theirs |
| DayOrder.PlacingRefinesInsertion | cli/internal/serve/server.go:1140-1175 | sorting the siblings with the record under its new key is the old list with the record at exactly the place asked for, and keys stay strictly increasing |
| DayOrder.KeyFitsPlace | cli/internal/serve/server.go:1140-1175 | there is a key exactly when the place exists, and it lies strictly between its neighbours |
| DayOrder.BetweenCanBeMet | cli/internal/serve/server.go:1140-1175 | what is asked of the key generator can be had: a generator of keys over two characters meets it |
| DayOrderRun.KeysStayIncreasing | cli/internal/cli/move.go:80-92 | after any run of additions, moves, reorderings and soft deletions the active keys of every date strictly increase |
| DayOrderRun.RunKeeps | cli/internal/serve/server.go:1079-1137 | unique ids and distinct keys of active records on a date are kept by every run |
| DayOrderRun.NewKeyIsFree | cli/internal/cli/add.go:224-276 | a new key differs from that of every other active record of the date |
| DayOrder.ComputeDayOrder | cli/internal/cli/add.go:224-276 | the command line's loops compute the server's key from the same siblings |
| DayOrder.FilterOut | cli/internal/cli/add.go:236-245 | the record that moves is left out and the others keep their order |
| DayOrder.FindReference | cli/internal/cli/add.go:252-276 | the first record of that id, or none |
| Paging.PagesEnumerateAll | cli/internal/serve/server.go:708-764 | following the cursors ends, and the pages make up the sorted list: every record once |
| Paging.UntouchedRecordOnce | cli/internal/serve/server.go:708-764 | with records coming and going between requests, one that is there throughout is on exactly one page |
| Paging.OnPageExactly | cli/internal/cli/records.go:136-174 | a record is on a page exactly when it lies after the page's cursor and not after the next |
| Paging.PageAdvances | cli/internal/serve/server.go:708-764 | a page is sorted and within the limit, and its next cursor lies after its own |
| Paging.ListPage | cli/internal/serve/server.go:708-764 | sort, cut after the cursor, truncate to limit plus one and take the page |
| RecordOrder.ComparisonsAgree | cli/internal/serve/server.go:781-822 | the server's comparison, the command line's and the cursor test are one order, and the order of siblings agrees with it on one date |
| RecordOrder.AfterTransitive | cli/internal/listpage/listpage.go:69-77 | what lies after a record that lies after a cursor lies after the cursor |
| RecordOrder.SortIsSame | cli/internal/cli/records.go:457-469 | records with ids of their own can be sorted in one way only |

## Left out

Of part A:
- Building the staged store, writing the snapshot backup and listing the entries before the first marker: the restore starts with the staged set and the originals at hand, and `.pc/pc.db` in both.
- The flush bookkeeping in `touchedDirs`, permissions, and the creation of parent directories: renames, removals and writes are durable in program order, and a flush is an operation that can fail.
- Cleaning and sorting the entry list: entries are distinct and prefix-free, which is what makes three maps a faithful tree.
- Markers with an unknown phase or missing lists, which recovery only reports.
- RestoreTheorems.ManyCrashAtomicity: requires inspections of the staging directory and of the database that do not fail, and a backup that goes after Done or in one step and can be inspected; `AtomicityExactly` shows that it fails otherwise.
- RestoreTheorems.RecoverKeeps: requires the same, for the same reason.
- RestoreTheorems.HistoryKeeps: requires the same, for the same reason.
- RestoreTheorems.OneCrashAtomicity: requires inspections of the staging directory and of the database that do not fail; `OneCrashExactly` shows that it fails otherwise.
- RestoreTheorems.RollForwardNeverFollowsDestruction: speaks of disks of the invariant; `DestructionMarkedExactly` says of which code every history keeps to it.
- RestoreTheorems.RestoreBackupOnePlace: requires an original that is not torn to begin with.

Of part B:
- JSON text, time stamps and hashes: a line decodes to a value by a function that is a parameter, hash equality is equality of bytes.
- Role, type and text of an item as functions of its payload; the title that a finished session is given; white space and letter case outside ASCII; the limit on the length of a line.
- The zero time of a session that never saw one is an absent time.
- ChatImport.ExactlyOnce: requires that the file grows by whole lines only, and never shrinks or changes.
- ChatBatch.ChatImportBatch.Queue: requires that a pending entry of the session a repair is queued for is the same repair, which holds because the managed copy does not change before the flush.
- Duplicate and colliding transcripts, attribution-only writes, resolving a project's directory, deleting the original file.
- ChatMetadata.AppendTimesRefineFull: claims times only; the append starts without the stored parent, so other session fields of a fork need not be those of a full parse.
- ChatRefinement.AppendRefinesFullAnywhere: requires that no proper beginning of a line decodes to another value than the line, which holds of JSON objects.

Of part C:
- Templates, projects and devices in the merge: each is an upsert by name before the records.
- Sessions or records that violate other constraints of the schema, such as a project that does not exist; the merge knows of name, id, identity and ordinal clashes.
- The staged copies of raw files and their backups, which live beside the directories the sweep lists.
- A write of rows or of a figure file that reports failure has had no effect, and a death leaves it undone or done; the promotion of a raw file may fail or be cut at any of its steps, and the backup that it then leaves beside the directories is not modelled.
- When two records or chats of one id are written, their directories are not merged in the model; they do not come back in either case.
- Text of the JSON files (a field is a text that JSON can carry), blank lines between items, the atomic writes under temporary names, and the flushes of directories.
- MergeChats.ImportsCommuteExactly: requires that a chat has one source identity in both snapshots and the store; where it has not, one of the imports fails.
- MergeRecords.ImportsCommute: requires that equally old versions of a record agree; `VersionsCommuteExactly` shows that two versions need it.
- SnapshotTree.DateOrders: an order on the fields the code compares; the order in which `sort.Slice` leaves equal elements is not modelled, and with distinct ids there are none.

Of part D:
- Resolving provenance and paths, the automatic sync afterwards, and file sizes and hashes, which are part of a row's body.
- An operation that reports failure has had no effect (an insert whose row cannot be read back is not modelled). After a success the backups go; one that cannot be removed stays in the original.
- EditUndo.FailureRestores: requires that nothing fails but one forward step; what holds otherwise is in `FailureLosesNoFile` and `FailureKeepsRows`.
- EditInterrupted.FailureKeepsRows: rows that an edit had deleted are lost when they cannot be brought back, or when the process dies; nothing recovers an edit.
- New row ids are numbers not used before. Rows have no creation time: a row that was deleted and comes back has a new one.

Of part E:
- The library that computes a key between two others: only that the key lies between them. Tied keys, which restoring a trashed record can produce, and the server's fallback for them; restoring is not among the operations of a run.
- Base64 and JSON of a cursor: a cursor is its three fields, and those with an empty day order are not decodable.
- The filter of a listing, which is applied before it is sorted.

Elsewhere: the repository behind SQL, Postgres, S3, HTTP and the sync engine, and the React client.
