# keeplin: verified models

Dafny models of the parts of keeplin, a note store replicated between devices, on which its data
depends, with proofs of what they promise. The program itself is Rust; each module follows one of its
files, with the same branches, constants and error cases.

`dafny verify dfyconfig.toml` checks the whole project.

## What is modelled

- **The replicated note log** (`VersionVectors`, `NoteLog`, `Compaction`, `Replication`, `Convergence`,
  `ConvergenceRuns`, `NoteStore`, `History`). Every device appends to its own log of a note and holds copies of the others.
  The model is a transition system of any number of devices with the steps append, compact and copy a
  log file from any device to any other. History (what was ever appended, and what each writer had read)
  is carried beside the files and read by no step. The results are about every run: vectors are
  causality, devices with the same entries agree, compaction cannot be observed, a device reads what it
  wrote, a revert restores.
- **Last-writer registers** (`Registers`, `RegisterStore`). Notebooks, tags, associations and resources,
  and all tables of the server backend, are kept by `resolve`. Delivery order is shown not to matter
  exactly when the versions are ranked; the honest hypotheses for that are named, and what happens
  without them is shown by runs. The rows of resources are also rewritten when their note is deleted or
  revived; which changes leave them registers nevertheless is shown exactly.
- **The change journal** (`Journal`, `JournalProtocol`, `JournalRuns`). A writer appends lines or replaces
  the file by a snapshot under a new epoch, reading the sidecars one by one while edits go on; a reader
  keeps an (epoch, byte offset) cursor into a copy that may be replaced between its look at the header
  and its reading of the lines.
- **The line mirror** (`TextLines`, `LineMirror`, `LineDiff`, `DiffEffects`, `LineOrder`, `NoteLinesState`). A list
  of lines with tombstones, the four operations on it, and the edit script for a new body: what it keeps,
  and what it records of each line.
- **Contacts and calendar entries** (`TextCodec`, `PropertyLines`, `VCard`, `VCardForm`, `CalendarTime`,
  `ICalendar`, `ICalendarForm`). Folding, escaping and the printer and parser pairs, each with the exact set
  of values that survive, the printed text line by line, and what is read of any other writer's lines.
  Strings are UTF-8 octet strings, one character per octet, and character boundaries are modelled.
- **Fast forms** (`Pagination`, `AliasIndexes`, `Linking`, `AliasRaces`, `Ordering`). The bounded heap
  against the sorted list, the cached alias index against a rebuild, also when updates overlap, and the
  sort-key bands.
- **The push cycle** (`SyncCycle`). Any number of overlapping cycles, each failing at any point.

Device ids, note ids and instants are their ranks in the order the program compares them by. What comes
from outside (clock readings, random ids, answers of the network and of the store below) is a parameter
of the step or the method. Methods on classes are the program's loops and in-place updates; each is tied
to the function that the lemmas are about.

## What the code does not promise

Some statements one would expect are false of the code. For each there is a run or an input on which it
fails, and a theorem for all inputs saying exactly when it holds.

- The README of the program says that every entity converges. For registers this needs clocks that
  follow causality and versions identified by their vector (`OrderFreeIff`, `HonestVersionsConverge`), and
  the second is not guaranteed: a win stores the incoming vector alone, so two writes can reach equal
  vectors (`HonestClocksCanDiverge`).
- It also says that a stale edit can never resurrect a delete. With a skewed clock one can
  (`SkewedClockResurrects`); none can, in any order of arrival, exactly if what beats a version also beats
  what that one beats (`NeverResurrectsIff`).
- A note's deletion or revival rewrites its resources without a change of their own, so stores can
  disagree on a resource for good (`NoteDeleteSplitsStores`), and a stale delete can hide a newer edit of it
  (`NoteDeleteHidesNewerEdit`). A resource stays a register throughout a run exactly if nothing reaches
  into it (`RowsAreRegistersIff`); stores agree whatever the order (`StoresConvergeIff`), and a row is always
  what an unbeaten change left (`ReadsUnbeatenIff`), exactly if the changes hold no such pair.
- Stores agree on what a deleted note, notebook, tag or resource still holds exactly on the condition of
  `WholeRowConvergesIff`, which `DeletedColumnsMayDiffer` misses. On associations they always agree
  (`AssociationsConverge`).
- A log entry with an explicit zero counter, which no append writes, makes `merge` unwrap an empty
  frontier (`FrontierNeverEmptyIff`, `ExplicitZeroDefeatsMerge`).
- Content recovered under a tombstone is chosen by listing position when timestamps tie (`SameNoteIff`,
  `TiedUpsertsDiverge`).
- A journal read can skip an entry when the copy is compacted between header and lines (`NoLossIff`,
  `StaleReadSkips`); the next read makes it good (`StaleReadHeals`).
- A compaction writes an unreadable association with the least priority, and so drops what the file said
  of it (`CompactCoversIff`, `UnreadableAssociationIsDropped`).
- A journal line can be handed over twice within one epoch: after a cursor that could not be saved, and
  after a copy that was compacted between header and lines (`AtMostOncePerEpochIff`, `UnsavedReadRepeats`,
  `StaleReadRepeats`).
- A row can be stranded at the watermark, or pruned unsent, when clock readings tie or a cycle outlasts
  the retention window (`RunKeepsInvIff`, `EqualTimesLoseARow`, `SlowCyclePrunesUnsent`). Overlapping cycles
  can move the watermark back, and rows are sent again (`NeverCollectedAgain`, `OverlapCollectsAgain`).
- An update without an alias takes no lock, so the index updates of two updates of one note may come in
  the wrong order (`OppositeOrderIff`, `IndexNoteIff`, `LocklessUpdateSpoilsIndex`).
- A contact's name with a ';' does not return (`VCardRoundTripIff`, `GivenBackIff`); an appended sort key is
  not last once the greatest key is taken (`PlacedLastIff`, `GreatestKeyIsShared`).

## Model

| member | source | states |
|---|---|---|
| `Convergence.VectorsAreCausality` | keeplin-core/src/storage/fs/notes.rs:280-305 | In every run of appends, copies and compactions, one entry's vector dominates another's exactly when it is that entry or the other happened before it (a writer had read a copy reflecting it, transitively); equal vectors occur only on one and the same entry; happens-before is acyclic. |
| `Convergence.StrongConvergence` | keeplin-core/src/storage/note_log.rs:61-127 | In every run, two devices holding the same entries, compacted alike or not and listed in any order, get the same merged vector, winner vector, winner device and conflict flag. |
| `Convergence.SameNoteIff` | keeplin-core/src/storage/note_log.rs:99-127 | In every run, they also read the same note in every listing order exactly when the winner is live or the greatest-stamped upserts of the logs agree in content; otherwise two listings exist that read different notes. |
| `ConvergenceRuns.TiedUpsertsDiverge` | keeplin-core/src/storage/note_log.rs:99-127 | A run of two devices that write at the same instant, after which one deletes the note and both hold the same entries: the winner is deleted, the newest upserts disagree, and the two read different notes. |
| `Convergence.CompactingStoreSimulates` | keeplin-core/src/storage/fs/notes.rs:298-300 | In every run, each device reads from its compacted files what it would read from files that were never compacted. |
| `Convergence.ReadingNeverPanics` | keeplin-core/src/storage/note_log.rs:88-98 | In every run and any listing order the frontier of the heads is not empty, so the winner that the program unwraps is there. |
| `Convergence.ReadYourWrites` | keeplin-core/src/storage/fs/notes.rs:280-305 | Right after an append the new entry strictly dominates every other visible head, the merge reports no conflict and returns the appended operation. |
| `Replication.RunInv` | keeplin-core/src/storage/fs/notes.rs:280-305 | Every step keeps the invariant: each file reflects a prefix of its owner's history up to compaction, each entry dominates all its writer had read, and each counter is accounted for by an entry in the causal past. |
| `Replication.VisibleHeads` | keeplin-core/src/storage/note_log.rs:62-72 | The heads a device reads are exactly the newest events its copies reflect. |
| `Replication.MergedVectorBounds` | keeplin-core/src/storage/note_log.rs:73-77 | The merged vector of a device dominates every entry its copies reflect, compacted away or not. |
| `Replication.OwnCounter` | keeplin-core/src/storage/note_log.rs:13-15 | A writer's own counter in what it reads is the number of entries it has ever appended. |
| `Replication.WriteMeaning` | keeplin-core/src/storage/fs/notes.rs:280-305 | An append adds one entry with the operation, device and time it was given at the end of the own log and of the history, and touches no other file; a log of fewer than 256 entries grows by it and a longer one is left with at most two. |
| `Replication.ShortLogsAreWhole` | keeplin-core/src/storage/fs/notes.rs:298-300 | In every run without compactions by hand, a copy that reflects at most 256 entries of a device holds exactly those entries: no version is lost before that. |
| `Replication.RunBoundsFiles` | keeplin-core/src/storage/fs/lifecycle.rs:191 | In every run no file ever holds more than 256 entries. |
| `NoteLog.MergeMeaning` | keeplin-core/src/storage/note_log.rs:61-127 | The merged vector is the least upper bound of the heads' vectors; the winner is an undominated head, of the greatest time among those and of the greatest device at that time; a conflict is reported exactly when two heads are undominated; the note is the winner's, or under a tombstone the content of a latest upsert in any log, stamped deleted at the winner's time, and none exactly if there is no upsert. |
| `NoteLog.MergeByLoops` | keeplin-core/src/storage/note_log.rs:61-127 | The loops over logs, heads and entries compute exactly the merge function. |
| `NoteLog.FrontierNeverEmptyIff` | keeplin-core/src/storage/note_log.rs:78-98 | For all choices of visible heads the frontier is non-empty exactly when no two heads dominate each other with different vectors. |
| `NoteLog.ZeroFreeHeadsMerge` | keeplin-core/src/storage/note_log.rs:78-98 | Heads whose vectors hold no explicit zero always have a winner. |
| `NoteLog.ExplicitZeroDefeatsMerge` | keeplin-core/src/storage/note_log.rs:88-98 | Two parseable one-entry logs, one with an explicit zero counter, have an empty frontier: the program's unwrap fails on them. |
| `NoteStore.NoteDirectory.AppendNoteOp` | keeplin-core/src/storage/fs/notes.rs:280-305 | Appending writes the join of all heads of readable logs with the own counter bumped at the end of the own log only, compacts it past 256 entries, keeps the directory mergeable, and returns the note the new files merge to, or "not found" if there is none; with an unreadable own log it fails and writes nothing. |
| `NoteStore.NoteDirectory.ReceiveLog` | keeplin-core/src/storage/fs/notes.rs:129-158 | Another device's log file, unreadable or without explicit zeros in its last entry, may replace the copy at any time and leaves the directory mergeable. |
| `VersionVectors.JoinByLoop` | keeplin-core/src/storage/note_log.rs:24-32 | The in-place loop over the second vector computes the pointwise maximum. |
| `VersionVectors.JoinIsLeastUpperBound` | keeplin-core/src/storage/note_log.rs:24-32 | The join dominates both vectors, and whatever dominates both dominates it. |
| `VersionVectors.IncrementStrictlyDominates` | keeplin-core/src/storage/note_log.rs:13-15 | A bumped vector strictly dominates the one it came from. |
| `VersionVectors.DominatesEverywhere` | keeplin-core/src/storage/note_log.rs:18-21 | Checking the keys of the second vector decides domination at every device, an absent key counting as zero. |
| `Compaction.CompactNowOrLater` | keeplin-core/src/storage/note_log.rs:130-148 | Compacting now and again after any later appends gives the same log as compacting once at the end. |
| `Compaction.CompactionInvisible` | keeplin-core/src/storage/note_log.rs:130-148 | Replacing logs by logs of the same compaction, one device id per log, changes neither whether merging succeeds nor any field of the result. |
| `Compaction.CompactingSomeLogsInvisible` | keeplin-core/src/storage/note_log.rs:130-148 | Compacting any subset of the logs leaves the merge as it was. |
| `Compaction.CompactIsSelection` | keeplin-core/src/storage/note_log.rs:130-148 | A compacted log holds at most two entries, all of them from the log. |
| `History.StateAtIsNewest` | keeplin-core/src/history.rs:15-17 | The state at an instant is a version at or before it that none such outranks; it is missing exactly when there is none, or when as many versions as the scan limit are newer. |
| `History.RevertFindsIff` | keeplin-core/src/history.rs:20-26 | A revert finds the version it goes back to exactly if there is one at or before the instant and fewer than 10 000 are newer. |
| `History.RevertRestores` | keeplin-core/src/history.rs:20-43 | After a revert the device reads the newest version at or before the instant apart from its updated and deleted stamps, with no conflict; going back to a deletion leaves the note deleted now, with the content of one of the newest upserts the device holds, or no note if it holds none. |
| `Registers.OrderFreeIff` | keeplin-core/src/storage/note_log.rs:158-179 | Folding resolve over a set of versions gives one register in every order and with any repetition exactly when every pair is decided and no three versions beat each other in a circle. |
| `Registers.HonestVersionsConverge` | keeplin-core/src/storage/note_log.rs:158-179 | If strict domination implies a later (timestamp, device), equal vectors mean the same version and stamps differ, then resolve is comparison of (timestamp, device) and delivery order never matters. |
| `Registers.FoldIsTop` | keeplin-core/src/storage/note_log.rs:158-179 | The register after any deliveries is the delivered version that beats every other one delivered. |
| `Registers.BeatenStaysBeaten` | keeplin-core/src/storage/note_log.rs:158-179 | Over a whole run of deliveries of versions among which what beats a version also beats what that one beats, no version delivered, before or after, beats the one in the register. |
| `Registers.NeverResurrectsIff` | keeplin-core/src/storage/note_log.rs:158-179 | For every set of versions: whatever of them is delivered, in any order and with any repetition, none delivered beats the one in the register, exactly if what beats a version also beats what that one beats. |
| `Registers.TransitiveIffNoCycle` | keeplin-core/src/storage/note_log.rs:158-179 | If of any two versions one beats the other, that is so exactly if no three beat each other in a circle. |
| `Registers.RegisterIsMonotone` | keeplin-core/src/storage/note_log.rs:158-179 | Each further delivery leaves the register or moves it up in one total order. |
| `Registers.ResolveIff` | keeplin-core/src/storage/note_log.rs:158-179 | Strict domination decides whatever the clocks say, equal vectors change nothing, and concurrent versions go by (timestamp, device). |
| `Registers.LocalWriteWins` | keeplin-core/src/storage/db/conflict.rs:64-75 | A local write, the stored vector bumped, always replaces the register it starts from. |
| `Registers.SkewedClockResurrects` | keeplin-core/src/storage/note_log.rs:158-179 | With a clock that contradicts causality, three versions with distinct times bring an edit back after a delete that dominates it. |
| `Registers.HonestClocksCanDiverge` | keeplin-core/src/storage/db/conflict.rs:64-75 | A run of three devices with all clocks on time in which two different writes reach equal vectors: their holders then ignore each other's version and every other one for good. |
| `RegisterStore.RowsAreRegistersIff` | keeplin-core/src/storage/db/sync.rs:62-406 | In every run a row is the register of its key throughout, its stamp, its liveness and an edit's columns being those of the change that the fold in arrival order leaves, exactly if no winning deletion or revival of a note reaches into it. |
| `RegisterStore.RowsAreRegisters` | keeplin-core/src/storage/db/sync.rs:62-406 | So rows of notes, notebooks, tags and associations are registers in every run. |
| `RegisterStore.AlwaysRegisterIff` | keeplin-core/src/storage/db/sync.rs:120-183 | For order-free versions: whichever of the changes arrived, in any order and with any repetition, the row is its register, exactly if they hold no deletion of a note with a live version of the resource in it, and no revival of a note with a version leaving the resource in it deleted at the same instant. |
| `RegisterStore.StoresConvergeIff` | keeplin-core/src/storage/db/sync.rs:62-406 | For a key with order-free versions: two stores that received the same of the changes, in any order and with any repetition, always agree on its version, on whether it is deleted and on its live row, exactly if it is no resource that a change of a note can reach. |
| `RegisterStore.ReadsUnbeatenIff` | keeplin-core/src/storage/db/sync.rs:62-406 | For a key of whose versions one always beats the other: whichever changes arrived, in any order and with any repetition, the row is what one left that no other delivered one beats, exactly if no three versions beat each other in a circle and the key is no resource that a change of a note can reach. |
| `RegisterStore.NoStaleResurrection` | keeplin-core/src/storage/db/sync.rs:62-406 | Then, in every sequence of applied changes, a delete that beats an edit is never undone by it, and an edit that beats a delete is never hidden by it. |
| `RegisterStore.NoteDeleteSplitsStores` | keeplin-core/src/storage/db/sync.rs:177-183 | A resource created and its note deleted, in either order: the stores disagree on whether the resource is deleted, though its key has one version. |
| `RegisterStore.NoteDeleteHidesNewerEdit` | keeplin-core/src/storage/db/sync.rs:177-183 | A note's deletion gives its resource an earlier time, and a delete that the resource's own edit beats then replaces that edit. |
| `RegisterStore.WholeRowConvergesIff` | keeplin-core/src/storage/db/sync.rs:62-406 | Every order and repetition of the changes leaves the same whole row exactly if the top version is an edit, or a delete that keeps nothing of what any of the delivered versions leaves when it arrives alone. |
| `RegisterStore.AssociationsConverge` | keeplin-core/src/storage/db/conflict.rs:153-178 | Every order and repetition of the changes leaves the same whole row of an association, which is replaced whole by its deletion too. |
| `RegisterStore.DeletedColumnsMayDiffer` | keeplin-core/src/storage/db/sync.rs:140-183 | An edit of a tag and the delete that has seen it: the delete that arrives first keeps no title, so the whole rows differ. |
| `RegisterStore.RowsAreProper` | keeplin-core/src/storage/db/sync.rs:62-406 | If no edit fills a column that its kind does not have, no row does: comparing whole rows compares real columns. |
| `RegisterStore.RegisterIsMergeWinner` | keeplin-core/src/storage/note_log.rs:78-98 | In every run whose visible heads' clocks follow causality, delivering the heads to a register in any order and repetition leaves exactly the winner of merging the logs. |
| `RegisterStore.Store.ApplyChange` | keeplin-core/src/storage/db/sync.rs:62-406 | Applying a change writes the new row exactly when there is none or the change wins; a winning deletion of a note then marks its live resources deleted, a revival revives those deleted at the instant the note was, and nothing else changes. |
| `RegisterStore.Store.ApplyReceived` | keeplin-core/src/sync/engine.rs:41-44 | The receive loop applies the changes in turn, up to the first whose apply fails. |
| `RegisterStore.WinnerWrites` | keeplin-core/src/storage/db/sync.rs:62-406 | A winning edit is the row. A winning deletion sets the deletion mark, the stamp and the update time of the row there is and leaves its content, owner and creation time, a resource's update time too; of nothing, or of an association, it makes an empty row. |
| `RegisterStore.ColumnsOfLastEdit` | keeplin-core/src/storage/db/sync.rs:62-406 | In every run a row, deleted or not, holds the content, owner and creation time of the last edit that won, and is empty if none ever did; this is for every kind but associations. |
| `RegisterStore.NoteDeletionMarks` | keeplin-core/src/storage/db/sync.rs:177-183 | A winning deletion of a note marks exactly its live resources, at its instant, and changes no other row but its own. |
| `RegisterStore.RevivalUndoesDeletion` | keeplin-core/src/storage/db/sync.rs:120-183 | Deleting a note and reviving it brings back just the resources that went with it, as they were, and any deleted at that very instant. |
| `JournalProtocol.NoLossIff` | keeplin-core/src/storage/fs/journal.rs:331-386 | In every interleaving of edits, appends, compactions, copies and reads: after a read, every entry the writer had appended up to the reader's copy was handed over, or a later state of its entity was, exactly if the copy was not compacted since the header showed the stored epoch, or every record the read skips was handed over or is superseded by one it reads. |
| `JournalProtocol.StaleReadHeals` | keeplin-core/src/storage/fs/journal.rs:331-386 | After a stale read (header epoch equal to the stored one, file already replaced) the next read loses nothing, whatever happened in between. |
| `JournalRuns.StaleReadSkips` | keeplin-core/src/storage/fs/journal.rs:331-386 | A run in which a stale read leaves an appended entry unread: the header is looked at, the copy is replaced, then the lines are read from the old offset. |
| `JournalProtocol.AtMostOncePerEpochIff` | keeplin-core/src/storage/fs/journal.rs:331-386 | In every run no line of an epoch was handed over twice exactly if at every read the header seen was of the cursor's epoch and the cursor past all that had been handed over of the copy's epoch, or nothing of that had been. |
| `JournalProtocol.RepeatsNothingIff` | keeplin-core/src/storage/fs/journal.rs:346-353 | One read hands over no line again exactly under that condition on the cursor, the header seen and the copy. |
| `JournalProtocol.ReadRecordsIff` | keeplin-core/src/storage/fs/journal.rs:375-384 | A read that hands lines over leaves the cursor past them exactly if the cursor is saved and the copy was not compacted between header and lines. |
| `JournalProtocol.SavingReadsRepeatNothing` | keeplin-core/src/storage/fs/journal.rs:331-386 | So in every run whose reads all do both, no line of an epoch is handed over twice. |
| `JournalRuns.UnsavedReadRepeats` | keeplin-core/src/storage/fs/journal.rs:377-384 | A run in which the cursor cannot be saved and the next read hands the line over again. |
| `JournalRuns.StaleReadRepeats` | keeplin-core/src/storage/fs/journal.rs:346-353 | A run in which the copy is compacted between header and lines, its lines are handed over under the old epoch's cursor, and the next read hands them over again. |
| `JournalRuns.UnreadableAssociationIsDropped` | keeplin-core/src/storage/fs/tags.rs:47-77 | A file with an entry of an association that the compaction finds unreadable, whose replacement does not cover it. |
| `JournalProtocol.RunInv` | keeplin-core/src/storage/fs/journal.rs:103-131 | Every step keeps the invariant: versions of the file only grow within an epoch and cover all earlier entries across epochs, and everything before the cursor is covered by what was handed over. |
| `JournalProtocol.CompactSucceeds` | keeplin-core/src/storage/fs/journal.rs:134-232 | A snapshot under the next epoch covers every entry of the file it replaces, although its records are read one by one, at different moments, while edits go on. |
| `JournalProtocol.CompactCoversIff` | keeplin-core/src/storage/fs/tags.rs:47-77 | A compaction covers the file it replaces exactly if the file has no entry of an association that is found unreadable. |
| `Journal.LogReader.ReadNewEntries` | keeplin-core/src/storage/fs/journal.rs:346-384 | The line loop hands over exactly the records that start at or after the seek position and moves the stored (epoch, offset) to the end of the file if it is to be moved. |
| `Journal.RecordsInOrder` | keeplin-core/src/storage/fs/journal.rs:346-384 | What a read hands over are, in file order and each once, the items of exactly the records that start at or after the byte it seeks to. |
| `Journal.DeviceLog.Compact` | keeplin-core/src/storage/fs/journal.rs:103-131 | The snapshot loop writes one record per sidecar, with the state it is read in, behind a header of the next epoch; an unreadable association is written with the least priority, and with any other sidecar unreadable the file stays. |
| `Journal.CompactedFileMeaning` | keeplin-core/src/storage/fs/journal.rs:103-131 | A compacted file is the header line of the epoch after the file's, with that line's length in bytes, and one record for each sidecar in turn with its state, or with the least priority if it is unreadable. |
| `Journal.DeviceLog.AppendLine` | keeplin-core/src/storage/fs/journal.rs:28-69 | Appending adds one line at the end, and compacts a file that has reached 64 KiB and more than 512 entries. |
| `Journal.OverThresholdIff` | keeplin-core/src/storage/fs/journal.rs:28-69 | A file is over the thresholds exactly if it has at least 65 536 bytes and more than 512 of its lines are records. |
| `LineDiff.DiffReachesBody` | keeplin-core/src/collab/state.rs:137-227 | For every mirror with distinct ids in its order, whatever tombstones lie between, applying the edit script for a body leaves exactly its lines live, with the kept, reused and new ids in place, and the order free of duplicates. |
| `LineDiff.NoOpsIffUnchanged` | keeplin-core/src/collab/state.rs:137-227 | The script is empty exactly when the live lines are just the body's lines (a single empty line is not the empty body, which has none). |
| `LineDiff.KeepsLongestEnds` | keeplin-core/src/collab/state.rs:150-163 | The kept prefix is as long as any common prefix, and the kept suffix as long as any common suffix that does not overlap it. |
| `DiffEffects.DiffSparesEnds` | keeplin-core/src/collab/state.rs:137-227 | No operation of the script names a line of the longest common ends; it moves nothing, and every insert brings a fresh id. |
| `DiffEffects.DiffKeepsIds` | keeplin-core/src/collab/state.rs:168-227 | Between those ends lines are rewritten in place, as far as there are new ones for them; old lines left over go, and new ones left over come in together behind the last line kept. |
| `DiffEffects.DiffRecordsLine` | keeplin-core/src/collab/state.rs:168-227 | Of a line that was there a diff leaves everything as it was exactly if it shows as before; otherwise its vector counts one more write of the device, its creation time stays, writer and time are the diff's, and a deleted line keeps its text. |
| `DiffEffects.DiffRecordsNewLines` | keeplin-core/src/collab/state.rs:204-227 | A diff brings as many new lines as the body has more than were live; the vector of each counts one write more than that of the one before it, and the mirror's counts them all. |
| `DiffEffects.VectorsTellVersions` | keeplin-core/src/collab/state.rs:137-227 | Two successive diffs by one device never leave one line in two versions with the same vector. |
| `LineMirror.ReplayAgrees` | keeplin-core/src/collab/state.rs:51-134 | Any operations have the same visible effect, and materialise the same body, on two mirrors of the same order, ids, liveness and live contents, whatever their vectors. |
| `LineMirror.AllEffects` | keeplin-core/src/collab/state.rs:51-134 | What a sequence of operations does to order, ids and live text depends on nothing else of the mirror. |
| `LineMirror.AppliedMeaning` | keeplin-core/src/collab/state.rs:51-134 | What operations do to what the text does not show: an update or delete of a known line makes its vector the least upper bound of its own and the operation's, keeps its creation time, notes the operation's writer and time, and touches no other line; a delete keeps the content; an insert or move makes the mirror's vector the least upper bound; an unknown line changes nothing. |
| `LineDiff.LiveCut` | keeplin-core/src/collab/state.rs:51-72 | Inserting behind a live line lands between it and the next live line, however many tombstones follow it. |
| `LineOrder.DistinctKeptIff` | keeplin-core/src/collab/state.rs:51-134 | An operation keeps the order free of duplicates exactly if an insert's id is new to it and a move's ids are distinct. |
| `LineOrder.MovePermutes` | keeplin-core/src/collab/state.rs:113-133 | A move of known, distinct lines permutes the order. |
| `LineOrder.MoveKeepsOthers` | keeplin-core/src/collab/state.rs:113-133 | A move leaves the lines it does not name in their relative order. |
| `LineOrder.MoveLands` | keeplin-core/src/collab/state.rs:113-133 | The moved lines stand together: first without an anchor, behind the anchor, or last when the anchor is not among the other lines. |
| `NoteLinesState.NoteLines.DiffBody` | keeplin-core/src/collab/state.rs:137-227 | An accepted body is what materialises afterwards; the operations returned are those applied; a body over a limit changes nothing and yields the violation. |
| `NoteLinesState.NoteLines.Apply` | keeplin-core/src/collab/state.rs:51-134 | One operation updates order, lines and vector in place as the value function says. |
| `NoteLinesState.NoteLines.KeptEnds` | keeplin-core/src/collab/state.rs:150-163 | The two index loops find the longest common prefix and, short of it, the longest common suffix, as `KeepsLongestEnds` says. |
| `NoteLinesState.Violation` | keeplin-core/src/format.rs:94-104 | The first line over 4096 bytes is reported before the count of lines, which may be at most 65536; no violation means both limits hold. |
| `NoteLinesState.WithinLimitsIff` | keeplin-core/src/format.rs:94-104 | A body is accepted exactly if it has at most 65 536 lines and none over 4096 bytes. |
| `NoteLinesState.CheckBody` | keeplin-core/src/format.rs:94-104 | The loop over the lines reports exactly that violation; an empty body has none. |
| `TextLines.JoinSplit` | keeplin-core/src/collab/state.rs:140-144 | Joining the split lines of a body gives the body, and no line holds a newline. |
| `TextCodec.FoldRoundTripIff` | keeplin-core/src/interop.rs:14-56 | Unfolding folded lines gives them back exactly if none holds a newline and none but the first starts with a space or tab. |
| `TextCodec.UnfoldFold` | keeplin-core/src/interop.rs:14-30 | Where lines are cut is invisible: reading folded lines is reading the lines themselves. |
| `TextCodec.PhysicalLinesFit` | keeplin-core/src/interop.rs:33-56 | Every physical line is at most 75 octets and consists of whole characters. |
| `TextCodec.PhysicalForm` | keeplin-core/src/interop.rs:33-56 | The physical lines are the pieces of the line in order, a space before each but the first, and each but the last is filled: the next character would take it past 75 octets. |
| `TextCodec.FoldedForm` | keeplin-core/src/interop.rs:33-56 | The written text is exactly those physical lines, each ended by a carriage return and a newline. |
| `TextCodec.FoldLine` | keeplin-core/src/interop.rs:33-56 | The cutting loop ends and writes exactly the physical lines, for every text. |
| `TextCodec.Unfold` | keeplin-core/src/interop.rs:14-30 | The joining loop computes the unfolded lines. |
| `TextCodec.UnfoldOneMore` | keeplin-core/src/interop.rs:14-30 | One more line of any text: starting with a space or tab it is appended, without it, to the logical line before it; otherwise, and at the very start, it is a line of its own. |
| `TextCodec.UnfoldUnended` | keeplin-core/src/interop.rs:14-30 | A last line without a line end is read all the same. |
| `TextCodec.UnfoldLineEnds` | keeplin-core/src/interop.rs:14-30 | A newline alone ends a line just as a carriage return and a newline do. |
| `TextCodec.UnescapeEscape` | keeplin-core/src/interop.rs:59-90 | Escaping and unescaping any text loses its carriage returns and nothing else. |
| `TextCodec.EscapeRoundTripIff` | keeplin-core/src/interop.rs:59-90 | A text survives escaping exactly if it holds no carriage return. |
| `TextCodec.EscapeText` | keeplin-core/src/interop.rs:59-72 | The character loop computes the escaped text. |
| `TextCodec.EscapeMeaning` | keeplin-core/src/interop.rs:59-72 | Wherever it stands, a backslash, comma or semicolon is escaped by a backslash before it, a newline by backslash and n, a carriage return is dropped, and every other character stays. |
| `TextCodec.UnescapeText` | keeplin-core/src/interop.rs:75-90 | The character loop, with its look-ahead behind a backslash, computes the unescaped text. |
| `TextCodec.UnescapeMeaning` | keeplin-core/src/interop.rs:75-90 | A backslash before n or N is read as a newline, before any other character as that character, and at the very end as itself. |
| `PropertyLines.SplitParts` | keeplin-core/src/interop.rs:93-98 | A property line splits at its first ':' into its name in upper case, its parameters dropped, and its whole value; a line without ':' is none. |
| `VCard.VCardRoundTripIff` | keeplin-core/src/interop.rs:139-221 | Printing and parsing returns the same contact exactly if its uid is not empty, its text fields hold no carriage return, its name parts when present are non-empty and free of ';', and its extra lines hold a ':' under a name that is not read, no newline and no leading blank. |
| `VCard.ParseVcard` | keeplin-core/src/interop.rs:181-221 | The parsing loop computes the fold over the unfolded lines, stopping at the end mark. |
| `VCardForm.ReadsCardIff` | keeplin-core/src/interop.rs:181-221 | A contact is read exactly if a begin mark stands before every end mark. |
| `VCardForm.OutsideIgnored` | keeplin-core/src/interop.rs:181-221 | Unmarked lines in front of the card and all lines behind its end mark change nothing. |
| `VCardForm.LineSetsField` | keeplin-core/src/interop.rs:191-213 | Inside a card UID, FN, ORG and NOTE lines replace what was read before, EMAIL and TEL lines add one value, VERSION is passed over; a card starts empty. |
| `VCardForm.LineSetsName` | keeplin-core/src/interop.rs:200-211 | A name line sets the family name to the first component and the given name to the second, each missing when it is empty or absent; further components are dropped. |
| `VCardForm.LineKeptWhole` | keeplin-core/src/interop.rs:181-221 | Any other property line that is no mark is kept whole at the end of the extra lines, and a line without ":" is passed over. |
| `VCard.PrintVcard` | keeplin-core/src/interop.rs:139-178 | The printing loops write exactly the folded card lines. |
| `VCardForm.PrintedCard` | keeplin-core/src/interop.rs:139-178 | Line by line what a contact is printed as: BEGIN, VERSION 4.0, UID (a new one if empty), FN, N if there is a name part, one EMAIL and one TEL line for each value in order, ORG and NOTE if present, the extra lines, END, and nothing else. |
| `VCard.GivenBackIff` | keeplin-core/src/interop.rs:200-211 | For every family name: the name value is cut at ';' before it is unescaped, so the given name returns exactly if it is non-empty when present and free of ';' and carriage returns, or, behind a family name with a ';', if it is just what spills over from that name. |
| `ICalendar.CalendarRoundTripIff` | keeplin-core/src/interop.rs:260-364 | Printing and parsing returns the same event or to-do exactly if its uid is not empty, its texts hold no carriage return, its instants are whole seconds, and its extra lines hold a ':' under a name that is not read and not a mark of the kind, no newline and no leading blank. |
| `ICalendar.SplitComponents` | keeplin-core/src/interop.rs:407-433 | The loop collects the lines between the marks of the kind; an unclosed component counts. |
| `ICalendar.ParseIcs` | keeplin-core/src/interop.rs:287-311 | The first component of the kind is parsed, property by property. |
| `ICalendarForm.ReadsEntryIff` | keeplin-core/src/interop.rs:407-433 | An entry is read exactly if the text has a begin mark of its kind. |
| `ICalendarForm.OutsideIgnored` | keeplin-core/src/interop.rs:407-433 | What stands before the first begin mark of the kind and behind the end mark that follows is not read, and an entry without an end mark goes on to the end of the text. |
| `ICalendarForm.LineChangesEntry` | keeplin-core/src/interop.rs:293-364 | Inside an entry each line with a ":" sets the one field its name stands for, for events and to-dos separately, is passed over (DTSTAMP, and STATUS and PERCENT-COMPLETE of a to-do) or is kept whole; any other line is passed over. |
| `ICalendar.PrintIcs` | keeplin-core/src/interop.rs:260-284 | The printer writes exactly the folded lines of the entry inside its calendar. |
| `ICalendarForm.PrintedEntry` | keeplin-core/src/interop.rs:254-345 | Line by line what an event or to-do is printed as, inside a calendar of version 2.0 with the program's PRODID: UID, DTSTAMP, SUMMARY, the times and the location or the due time and completion (time, status and 100 percent), DESCRIPTION, the extra lines, and nothing else. |
| `CalendarTime.ParseFormat` | keeplin-core/src/interop.rs:101-117 | Writing and reading an instant of a four-digit year loses the fraction of its second and nothing else. |
| `CalendarTime.FormatMeaning` | keeplin-core/src/interop.rs:101-103 | An instant is written as four digits of the year, two each of month and day, T, two each of hour, minute and second, Z. |
| `CalendarTime.ParseIff` | keeplin-core/src/interop.rs:106-117 | A text is read as an instant exactly if it is, between blanks, that written form, the form without the Z, or the date alone for midnight; what is read is always a valid whole second. |
| `CalendarTime.TrimMeaning` | keeplin-core/src/interop.rs:106-107 | Only blanks are taken off at either end, and all of them. |
| `Pagination.CollectorRefinesPaginate` | keeplin-core/src/storage/fs/pagination.rs:54-128 | Pushing distinct-keyed items in any order into the bounded heap gives the page and the token that cutting the sorted list gives. |
| `Pagination.PageMeaning` | keeplin-core/src/storage/fs/pagination.rs:87-128 | A page holds the items next behind the token in key order, as many as the limit or all there are, and carries the key of its last item as token exactly if items are left. |
| `Pagination.WalkVisitsAll` | keeplin-core/src/storage/fs/notes.rs:391-407 | Following the tokens from the start visits every item exactly once in key order, for every requested page size. |
| `Pagination.WalkNeedsPositiveLimit` | keeplin-core/src/storage/fs/pagination.rs:87-128 | With a limit taken as it is, the walk is complete exactly if the limit is positive or there is nothing to list. |
| `Pagination.PushKeepsFirst` | keeplin-core/src/storage/fs/pagination.rs:54-68 | One push keeps the first limit + 1 of all items let through so far. |
| `Pagination.PageCollector.Push` | keeplin-core/src/storage/fs/pagination.rs:54-68 | A push ignores keys up to the cursor and otherwise inserts, replaces the top, or drops the item. |
| `Pagination.PageCollector.IntoPage` | keeplin-core/src/storage/fs/pagination.rs:71-83 | The page is the first limit items, with a token for the last of them exactly if more are held. |
| `Pagination.ListPage` | keeplin-core/src/storage/fs/notes.rs:391-407 | Listing by pushing every indexed item returns the page of the sorted listing. |
| `Pagination.EffectivePageSize` | keeplin-core/src/storage/mod.rs:19-25 | A request for 1 to 1000 items is granted as it is, for none means 100, for more means 1000. |
| `SyncCycle.AtLeastOncePush` | keeplin-core/src/sync/engine.rs:19-52 | In every run whose writes and prunes are safe in that sense, with failing, succeeding and overlapping cycles, each row at or before the watermark was in a batch whose send succeeded, and only such rows are pruned. |
| `SyncCycle.RunKeepsInvIff` | keeplin-core/src/sync/engine.rs:19-52 | Whatever the clock and however long cycles take: a run keeps the push invariant throughout exactly if each write is past the watermark and past what every cycle under way relies on, and each prune drops only rows that were sent. |
| `SyncCycle.IdealRunIsSafe` | keeplin-core/src/sync/engine.rs:19-52 | With a strictly increasing clock and cycles shorter than the retention window all writes and prunes of every run are so. |
| `SyncCycle.UnsentIsCollectedNext` | keeplin-core/src/storage/db/sync.rs:23-59 | A row not yet sent is collected by any cycle that reads the watermark now. |
| `SyncCycle.NeverCollectedAgain` | keeplin-core/src/sync/engine.rs:19-52 | After a cycle that finishes while no other is under way, no cycle of the run ever collects again a row written by that cycle's time. |
| `SyncCycle.OverlapCollectsAgain` | keeplin-core/src/sync/engine.rs:19-52 | A run with a strict clock in which the cycle stamped first finishes last and moves the watermark back, so that a row already sent is collected again. |
| `SyncCycle.CycleSendsAll` | keeplin-core/src/sync/engine.rs:19-52 | A cycle whose send succeeds leaves nothing unsent that was written before it; a cycle that fails leaves the watermark alone. |
| `SyncCycle.CycleSendsIff` | keeplin-core/src/storage/db/sync.rs:23-59 | What one undisturbed cycle sends is every row in the journal later than the watermark it found and nothing else; it moves the watermark to its own time exactly if it completes. |
| `SyncCycle.JournalIff` | keeplin-core/src/storage/db/sync.rs:558-570 | In every run the journal holds exactly the rows written that no prune of the run reached back to, however they were sent. |
| `SyncCycle.EqualTimesLoseARow` | keeplin-core/src/sync/engine.rs:27-30 | A run with two equal clock readings in which a row falls at the watermark unsent and is never collected. |
| `SyncCycle.SlowCyclePrunesUnsent` | keeplin-daemon/src/server.rs:1064-1076 | A run in which a cycle outlasts the retention window and pruning drops a row that was never sent. |
| `SyncCycle.SyncStore.RunSync` | keeplin-core/src/sync/engine.rs:19-52 | The ordered effects of one cycle: it completes exactly if send, receive and every apply succeed, and its state is that of the cycle's steps as far as it got. |
| `Linking.CachedIndexEqualsRebuild` | keeplin-core/src/linking.rs:58-133 | Through every sequence of local operations and changes from elsewhere, the cached index, when present, equals a rebuild from any listing of the store. |
| `Linking.NoConflictsListed` | keeplin-core/src/linking.rs:643-675 | From a store without clashing aliases no sequence of local creates, updates and deletes makes the conflict listing show a group. |
| `Linking.LocalRunKeepsConflictFree` | keeplin-core/src/linking.rs:643-675 | Local operations never leave two live notes of one normal notebook, or two live notebooks, with the same alias. |
| `Linking.NoteAliasTakenIff` | keeplin-core/src/linking.rs:128-133 | The index says an alias is taken exactly when another live note of that notebook has it. |
| `Linking.NotebookAliasTakenIff` | keeplin-core/src/linking.rs:136-140 | The index says a notebook alias is taken exactly when another live notebook has it. |
| `Linking.OppositeOrderIff` | keeplin-core/src/linking.rs:665-675 | Two updates of one note whose index updates come in the opposite order of their store writes leave the right index exactly if both versions have the same entry. |
| `AliasRaces.IndexNoteIff` | keeplin-core/src/linking.rs:665-675 | When updates overlap, the index write of one leaves the note's entry right exactly if the note stored by then has the same entry, and touches no other entry. |
| `AliasRaces.LockedUpdatesKeepIndex` | keeplin-core/src/linking.rs:665-675 | In every run of overlapping updates that all carry an alias, and so take the lock, the index is right for every note that is not just being updated. |
| `AliasRaces.LocklessUpdateSpoilsIndex` | keeplin-core/src/linking.rs:665-675 | A run in which an update without alias overtakes one with an alias: at the end nothing is under way and the index still has the alias. |
| `Linking.GroupNoteConflicts` | keeplin-core/src/linking.rs:540-561 | The grouping loop lists exactly the (alias, notebook) groups of two or more listed notes, each with its notes by id. |
| `Linking.MembersComplete` | keeplin-core/src/linking.rs:540-561 | The members of a group are the listed notes of that notebook with that alias, each as often as it is listed, and no others. |
| `Linking.GroupListedIff` | keeplin-core/src/linking.rs:540-561 | A group has two members or more exactly if two of the listed live notes clash in it. |
| `Linking.LinkingBackend.StoreNote` | keeplin-core/src/linking.rs:643-675 | A create or update drops an Inbox note's alias, builds the index for a note with an alias or links, refuses a taken alias, fails as the store below does, and maintains the index. |
| `Linking.WriteNoteMeaning` | keeplin-core/src/linking.rs:340-379 | A create or update of a note is a conflict exactly if another live note of its notebook, no Inbox, has the alias; else not found exactly if an update's note is missing; else done exactly if the store below accepts. Done, just that note is there as given, an Inbox note without its alias; on any other outcome the notes are as they were. |
| `Linking.LinkingBackend.StoreNotebook` | keeplin-core/src/linking.rs:731-757 | A create or update of a notebook refuses a taken alias, fails as the store below does, and maintains the index. |
| `Linking.WriteNotebookMeaning` | keeplin-core/src/linking.rs:731-757 | The same for notebooks, whose aliases must be unique among all live notebooks. |
| `Linking.OperationMeaning` | keeplin-core/src/linking.rs:643-757 | What each operation answers and does to notes and notebooks: deletions mark what is there or are not found, and changes from elsewhere are taken as they come, clashing or not. |
| `AliasIndexes.AgreeDetermines` | keeplin-core/src/linking.rs:58-67 | The entries by id determine the whole index, sets by alias included. |
| `AliasIndexes.NoteUpsertedAgrees` | keeplin-core/src/linking.rs:70-86 | Upserting a note keeps both directions of the index in agreement and leaves just this note's entry, or none if it is deleted, in the Inbox or without alias. |
| `AliasIndexes.AliasIndex.UpsertNote` | keeplin-core/src/linking.rs:70-86 | The two maps are updated in place as the value function says. |
| `AliasIndexes.AliasIndex.RemoveNote` | keeplin-core/src/linking.rs:89-98 | Removing a note drops its reference, and the set if it was the last. |
| `AliasIndexes.AliasIndex.FillFrom` | keeplin-core/src/linking.rs:58-67 | A rebuild upserts every listed note and notebook. |
| `Ordering.PinnedIffInBand` | keeplin-core/src/ordering.rs:50-175 | Over any sequence of create, pin, unpin, reorder, move and delete, a live note of a normal notebook is pinned exactly when its effective key is in 1 to 999, and no Inbox note is pinned. |
| `Ordering.PlaceBandedIff` | keeplin-core/src/ordering.rs:50-69 | Placing a new note keeps that exactly if it comes unpinned without a key, or with a key of its own band: a note that has a key is left as it is. |
| `Ordering.PinTakesLeastFree` | keeplin-core/src/ordering.rs:72-92 | Pinning fails exactly when all 999 keys are held by live notes of the notebook; otherwise the note gets the least key none holds, and nothing else changes. |
| `Ordering.LowestFreePinnedKeyIff` | keeplin-core/src/ordering.rs:199-210 | The loop's candidate is the least key of the band not in the sorted list, and there is none exactly when all are. |
| `Ordering.LowestFreeByLoop` | keeplin-core/src/ordering.rs:199-210 | The loop with its early exit computes that candidate. |
| `Ordering.ProfileMeaning` | keeplin-core/src/storage/backend.rs:88-102 | The profile holds the pinned keys in order, the least key of all, the greatest key outside the pin band, and the number of notes. |
| `Ordering.ProfileByLoop` | keeplin-core/src/storage/backend.rs:88-102 | Collecting the pinned keys and sorting them at the end computes that profile. |
| `Ordering.NextNormalKeyLastIff` | keeplin-core/src/ordering.rs:213-218 | The next key is past every key of the notebook exactly unless the greatest 32-bit key is taken. |
| `Ordering.NextNormalKeyMeaning` | keeplin-core/src/ordering.rs:213-218 | The next normal key is 1000 if no key is as great, one more than the greatest otherwise, and the greatest 32-bit key again once that is taken. |
| `Ordering.PlacedLastIff` | keeplin-core/src/ordering.rs:50-69 | A note without a key lands strictly last in a normal notebook exactly unless a live note there holds the greatest key. |
| `Ordering.ArrivalMeaning` | keeplin-core/src/ordering.rs:50-118 | What a created note, or one moved to another notebook, is in the store: as given, or without pin and key, with the next normal key or in the Inbox one less than the least, 1000 or 999; refused exactly by a notebook of 2^24 live notes; and no other note changes unless the Inbox is renumbered. |
| `Ordering.GreatestKeyIsShared` | keeplin-core/src/ordering.rs:213-218 | A run of a create, a reorder to the greatest key and another create, after which both notes have that key. |
| `Ordering.InboxPlacedFirst` | keeplin-core/src/ordering.rs:59-64 | A note without a key that lands in the Inbox lands strictly first there, and an Inbox of one page never refuses it but for being full. |
| `Ordering.PlacingKeepsOrder` | keeplin-core/src/ordering.rs:179-196 | Resequencing an Inbox of one page for a new note keeps the order of its notes and changes nothing but their keys. |
| `Ordering.ResequencedMeaning` | keeplin-core/src/ordering.rs:179-196 | Renumbering gives the notes of the page the keys 1000, 2000 and so on in their order, and changes nothing else of them and no other note. |
| `Ordering.OrderedNotes.ResequenceInbox` | keeplin-core/src/ordering.rs:179-196 | The loop over one page gives its notes the keys 1000, 2000 and so on, writing only those that have another. |
| `Ordering.OrderedNotes.PinNote` | keeplin-core/src/ordering.rs:72-92 | The pin operation with its refusals changes the store as the step function says. |
| `Ordering.UnpinnedLastIff` | keeplin-core/src/ordering.rs:95-104 | An unpinned note gets the next normal key and stands strictly behind every other live note of its notebook exactly unless one of them holds the greatest key; nothing else changes. |
| `Ordering.OperationMeaning` | keeplin-core/src/ordering.rs:72-175 | What pin, unpin, reorder, move and delete answer in every case, and that a reorder changes just that key, to the one asked for, and a delete just that mark. |
| `Ordering.OrderedNotes.UnpinNote` | keeplin-core/src/ordering.rs:95-104 | Unpinning changes the store as the step function says, of which `UnpinnedLastIff` states the meaning. |
| `Ordering.OrderedNotes.MoveNote` | keeplin-core/src/ordering.rs:107-118 | A note moved to another notebook loses its pin and is placed there anew; within its notebook nothing changes. |

## Left out

- VersionVectors.IncrementStrictlyDominates: counters are unbounded; overflow of 64-bit counters is not modelled.
- Journal.DeviceLog.Compact: epochs are unbounded instead of saturating.
- JournalProtocol.NoLossIff: one writer and one reader, whole lines; a torn last line, malformed lines and compactions that find an association unreadable (`CompactCoversIff`) are not modelled.
- Replication.RunInv: log files of entries from several devices, and unreadable ones (but for `AppendNoteOp`), are not modelled; a copy never goes back to fewer entries.
- RegisterStore.Store.ApplyChange: the tables of the server backend, keyed by kind and id. The filesystem backend merges note logs instead of keeping note rows, and marks the resources of a deleted note also when the deletion does not win; that is not modelled. A deletion of a note that fails between its row and its resources is not either.
- NoteLinesState.NoteLines.DiffBody: the ids of new lines are a parameter that must be distinct and not in the order, which random ids are only with overwhelming probability.
- CalendarTime.ParseFormat: the date parser is modelled for the fixed-width forms; the library's leniency with other forms, leap seconds and years beyond four digits are not.
- ICalendar.ParseIcs: the first entry of a kind is parsed; the list of all entries is not.
- Pagination.PageCollector.Push: the binary heap is kept as its content in order; its shape and costs are not modelled.
- Linking.GroupNoteConflicts: the order of the groups is not modelled.
- Linking.CachedIndexEqualsRebuild: operations are atomic; overlapping updates are the subject of AliasRaces, without the alias check. Whether a note holds links is given; their targets and bookmarks are left out.
- Ordering.PlaceBandedIff: an Inbox of more than one page whose first key is 1 or less is resequenced by the program, which pages over the key it rewrites; here that case has its own outcome and no effect.
- SyncCycle.SyncStore.RunSync: what a change does when applied is the subject of RegisterStore; reports of progress are left out.
- Log and entry encodings (`convert.rs`, serde, UUID and timestamp text) are taken as injective.
- The index of note metadata and the list of notes that advanced (`notes.rs`) are left out.
- Concurrent editing of one note's lines: operations overwrite without comparing vectors, so nothing is promised.
- Resolving references to notes by alias, the regular expressions for links and full-text search are left out.
- Purging of resource blobs, reverting whole notebooks and schema migrations are left out.
- File, SQL, WebSocket, HTTP and gRPC plumbing, encryption and authentication are left out.
