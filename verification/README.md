# The layered code index, verified in Dafny

syntext answers code searches from an index in three layers: immutable base
segments on disk, a delete-set that hides base documents, and an in-memory
overlay of recent edits. Three operations change it. A commit builds a new
overlay and delete-set from pending edits. A flush turns the overlay into a
durable delta segment and a delete-set sidecar. A compaction rewrites a suffix
of the segments, renumbers every document, remaps every posting and drops the
delete-set. All of this must always agree with something very simple: a map
from each path to what is indexed for it.

This project models those operations with their error paths, the files and the
manifest behind them, the lock protocol around them, and a few smaller parts
with contracts of their own, and proves that the agreement holds: for every
operation, at every point a crash can fall, for every interleaving of handles
on the locks, and along every run of one handle, which includes steps that took
effect without being reopened; only a handle that then writes over a base it no
longer knows leaves the run model, and what it does is stated exactly too.
`dafny verify dfyconfig.toml` checks it.

## Modules

- `Common`, `Snapshots`: ids and errors; the snapshot, its live rows, the path
  map it means, gram queries, well-formedness.
- `Overlays`, `Pending`, `Commit`, `Index`: edits waiting for a commit,
  rebuilding the overlay, the commit itself.
- `Disk`, `Writers`: the index directory as an object that records every state
  it passes through, opening it, writing segments.
- `Flush`: the durable flush.
- `CompactPlan`, `Packing`, `Compaction`, `Compact`, `CompactApply`,
  `CompactPublish`, `Converge`: planning, packing, renumbering, remapping and
  publishing a compaction, and when repeated compaction comes to rest.
- `Build`: the first index, from a list of files.
- `Runs`, `Bookkeeping`, `Handle`, `Stale`: whole runs against the simple map,
  the paths noted for the next flush along them, the caller's operations as such
  runs, what a handle that fell behind does to the index.
- `Plain`, `Examples`: concrete documents, files and manifests, and concrete
  runs from a build on which promises fail.
- `Locks`, `Threads`: the two locks with any number of handles; several threads
  of one handle.
- `ReadEpoch`, `Anchor`: the working-tree anchor and its read epoch, for one
  step and along whole runs.
- `Catalogue`, `Racy`, `CatalogueCodec`: the change catalogue, what its verdict
  "unchanged" is worth, its file format.
- `Utf16`, `NameStatus`, `Tokens`: encoding normalization, the parser for
  `git diff --name-status -z`, the token estimate.

The tokenizer, the content hash, the payload checksum, UTF-8 validation, the
test for safe paths and the stored form of a path are parameters about which
nothing is assumed, except that lossy conversion to UTF-8 leaves UTF-8 alone.
File contents read at commit, metadata, hashes, clock readings, whether a lock
is free and whether a system call succeeds are inputs or arbitrary choices.

## Where the code and its comments disagree

The model follows the code. These are the cases where a promise does not hold
for all inputs. Each has an input that shows it and a proof of exactly when the
promise holds.

- The overlay's ids are not always consecutive. The comment at
  `src/index/delta_apply.rs:78-80` says they are, but the delta path numbers
  new documents from the old `next_doc_id` (`src/index/overlay/build.rs:231`)
  while dropped ids leave holes. The segment writer accepts holes, opening does
  not (`src/index/open.rs:204-210`), so such a flush replaces the manifest and
  every later open fails. Input: `Examples.GapRun`. Exactly when, for every
  commit: `Runs.NextReopensExact`, from `Overlays.DeltaGapless` and
  `Overlays.DeletionStaysConsecutive`; for every flush: `Flush.WriteFlushFiles`.
- Compaction need not come to rest when there are empty files: the packer
  charges one byte for them, the planner none. Input: `Converge.StuckIndex`.
  Exactly when: `Converge.SettledStep` with `Converge.MergesExact`.
- A handle that published a compaction but failed to reopen keeps its old
  snapshot, and the guard of its next flush compares only counts
  (`src/index/delta_apply.rs:49-61`), which can coincide; it then hides by id
  documents that have been renumbered. Input:
  `Examples.StaleFlushLosesDocument`. Exactly when live documents survive and
  are listed once: `Stale.StaleFlushKeepsRows`, `Stale.StaleFlushListsOnce`,
  `Stale.StaleFlushIsExact`. A handle left behind by a flush of documents
  is refused, as long as no other process writes (`Runs.LeftBehindIsRefused`).
- The guard of its next compaction compares only where segments start
  (`src/index/compact.rs:112-144`), not how many documents they hold. Input:
  `Examples.StaleCompactionLosesDocument`. Exactly when the disk keeps its
  meaning: `Stale.StaleCompactionKeepsMeaning`.
- A fresh build need not have at most one live document for a path.
  `Index::build_from_file_records` (`src/index/mod.rs:172-177`) hands the
  caller's list on after a sort (`src/index/build_external.rs:46-64`) without
  looking for repeated paths, which the sibling entry refuses
  (`src/index/source.rs:225-230`). Input: `Examples.RepeatedBuild`. Exactly
  when it has: `Build.BuiltMeaning`, and for what opens `Build.BuiltIsWF`.
- An install can lose a commit. A durable operation gives up `write.lock`
  (`src/index/delta_apply.rs:188`) before it opens and installs what it wrote;
  a commit by another thread in between is overwritten, and its edits are no
  longer in the buffer that `src/index/update.rs:291-300` notifies again.
  Input: `Threads.InstallLosesCommit`. Exactly which edits, and exactly when
  none: `Threads.InstallLosesExactly`.
- A commit can undo an install, if it loaded its snapshot before and stores it
  after; the handle is then behind the disk with no failure. Input:
  `Threads.CommitRevertsInstall`. Exactly when: `Threads.CommitUndoesInstall`.
- Draining the flush bookkeeping before a flush that fails
  (`src/index/flush.rs:246-251`) can keep a deletion from becoming durable: with
  an empty overlay the next flush finds nothing to do (`src/index/flush.rs:189`),
  and a new process still finds the file. Input:
  `Bookkeeping.DrainedDeletionIsLost`. Exactly when such a flush is right:
  `Bookkeeping.NothingToFlushExactly`.
- It also costs more than re-applies at the anchor, contrary to the comment: the
  next commit records a later epoch and a path read earlier passes for settled.
  Input: `ReadEpoch.FailedFlushLosesEarliestEpoch`. Exactly for which paths:
  `ReadEpoch.TrustworthyExactly`, with `ReadEpoch.RecentExactly`. Later flushes
  and compactions carry such an entry on (`Anchor.CarriedEntryMisleads`);
  exactly which entries are sure to describe the file: `Anchor.DescribesExactly`.
- The catalogue asks that a file's time be old when the present reading began
  (`src/changes/catalogue.rs:129-130`), while the margin is documented against
  the reading of the content (`src/changes/fingerprint.rs:15-16`). A file hashed
  in the moment it was written and rewritten with the same size and time passes
  for unchanged later. Input: `Racy.SecondBatchMisses`, and `Racy.UnchangedMisses`
  for every young entry. Exactly when the verdict is sure:
  `Racy.LooksTellExactly`.
- The anchor takes an absent file for settled even when a document was flushed
  for it. Input: `ReadEpoch.DeletedAfterReadingIsAnchored`. Exactly when:
  `ReadEpoch.SettledDocumentIsCurrent`.

## Model

| member | source | states |
|---|---|---|
| `Snapshots.QueryExact` | src/search/executor.rs:191-212 | For every well-formed snapshot, reading base postings, overlay postings and the delete-set for a gram leads to exactly the live paths whose indexed content holds it: none missing, none hidden or stale |
| `Snapshots.IdsAscend` | src/index/open.rs:103-232 | Live ids, base then overlay, are strictly ascending, so no id names two documents |
| `Common.SortedIds` | src/index/compact_plan.rs:38-53 | The members of an id set, each once, smallest first |
| `Overlays.BuildIncremental` | src/index/overlay/build.rs:89-170 | Whichever path it takes, the gram index of the new overlay, patched or rebuilt, lists for every gram exactly the documents that hold it in strictly ascending order; the documents are the untouched old ones followed by the new ones; it fails exactly on running out of 32-bit ids |
| `Overlays.BuildDelta` | src/index/overlay/build.rs:192-269 | Unposting the dropped documents and appending the new ones gives exactly the index of the remaining documents; kept documents keep their ids, new ones are numbered from the old `next_doc_id` |
| `Overlays.BuildFull` | src/index/overlay/build.rs:108-169 | All documents renumbered without gaps from the base limit, with the exact index of them |
| `Overlays.StripExact` | src/index/overlay/build.rs:207-229 | Postings that survive taking out the dropped ids are those of the kept documents |
| `Overlays.DeltaStaysConsecutive` | src/index/overlay/build.rs:192-269 | From an overlay numbered without gaps up to `next_doc_id`, whatever is committed on the delta path, deletions alone included: it stays so if and only if the documents replaced or removed are its oldest, and with a file added this is also exactly when its ids are consecutive; the comment at delta_apply.rs:78-80 claims they always are |
| `Overlays.DeltaGapless` | src/index/overlay/build.rs:192-269 | From any overlay, with gaps or without: the next one is free of gaps up to its next id if and only if the documents dropped are the oldest and no gap lies after them, so also exactly when an overlay with gaps mends |
| `Overlays.DeletionStaysConsecutive` | src/index/overlay/build.rs:207-229 | When nothing is added, what is left is consecutive if and only if between any two documents that stay there is neither a gap nor a document that goes |
| `Overlays.FullIsGapless` | src/index/overlay/build.rs:108-169 | The full path always numbers without gaps |
| `Pending.PendingEdits.NotifyChange` | src/index/pending.rs:60-66 | Appends a change to the buffer |
| `Pending.PendingEdits.NotifyDelete` | src/index/pending.rs:69-75 | Appends a deletion to the buffer |
| `Pending.PendingEdits.TakeForCommit` | src/index/pending.rs:89-120 | Empties the buffer; the two sets are the paths whose last recorded edit is a change or a deletion |
| `Pending.PendingEdits.RequeueUncommitted` | src/index/pending.rs:136-158 | The buffer then asks for what the drained edits followed by the newer ones ask for, with one edit per path |
| `Commit.BaseDocIdLimit` | src/index/helpers.rs:166-182 | The greatest segment end, or an overflow error exactly when some end exceeds 32 bits |
| `Commit.ComputeDeleteSet` | src/index/pending.rs:204-221 | The previous set plus all base ids of the given paths |
| `Commit.ReadChanged` | src/index/commit.rs:129-152 | Every changed path is sorted by its outcome, each read once with its content |
| `Commit.CommitMeaning` | src/index/commit.rs:154-256 | The snapshot a commit stores is well formed and means the simple map update: changed paths take their outcome, deleted ones go, all others stay |
| `Commit.HiddenRow` | src/index/commit.rs:220-225 | Hiding the base ids of some paths hides those paths and no others |
| `Index.CommitInner` | src/index/commit.rs:107-261 | Fails exactly when the projected overlay exceeds half of a non-empty base or ids run out; otherwise the path map is updated as specified, the overlay has exactly the projected size, the base is untouched and the delete-set only grows |
| `Index.CommitErrorExactly` | src/index/commit.rs:177-193 | A commit is refused exactly when the overlay it would leave exceeds half of a non-empty base, or else when 32-bit ids do not suffice, with the counts it reports |
| `Index.NextOverlaySize` | src/index/helpers.rs:149-163 | The projected count is the size of the overlay that gets built |
| `Index.Index.CommitBatch` | src/index/commit.rs:60-93 | Success: the map update and an emptied buffer. Failure: snapshot and bookkeeping as before, and the buffer asks for the drained edits followed by those that arrived meanwhile. Nothing pending or a held write.lock: no change |
| `Index.Index.NoteCommitForFlush` | src/index/flush.rs:72-87 | The epoch is recorded only if none is; resolved paths accumulate |
| `Index.Index.TakeAnchorInputs` | src/index/flush.rs:252-268 | The bookkeeping is drained before the outcome of the flush is known |
| `Index.Index.InstallRebuilt` | src/index/update.rs:279-307 | The reopened snapshot is installed, bookkeeping forgotten, queued edits kept in order |
| `Disk.LoadFrame` | src/index/open.rs:87-344 | Opening looks at nothing but the manifest and the files it names; what it makes of them is `Disk.LoadsExactly` |
| `Disk.OpensExactly` | src/index/open.rs:103-232 | Opening gives certain segments if and only if each has both its files, whole and of their kind, with their contents, starts where recorded or else where the one before ends and never earlier, and numbers its documents without gaps within the ceiling |
| `Disk.LoadsExactly` | src/index/open.rs:297-306 | An index opens as a snapshot if and only if its files give those segments and the named delete-set is there and whole; only a manifest that names none gives an empty one |
| `Disk.MissingFileFails` | src/index/open.rs:288-306 | One named file, of a segment or the delete-set, that is missing, cut short or of another kind, and nothing opens |
| `Disk.OpenSegmentsShape` | src/index/open.rs:103-232 | If opening succeeds every named segment file is there, and every prefix of the manifest opens as that prefix of the segments |
| `Disk.Directory.Write` | src/index/segment/segment_writer.rs:105-106 | A non-atomic write under a new name: whole or cut short, every state on the way recorded |
| `Disk.Directory.WriteDeletes` | src/index/deletes_idx.rs:179-198 | The sidecar appears whole under a fresh name or not at all; nothing older is touched |
| `Disk.Directory.SaveManifest` | src/index/manifest.rs:233-258 | The manifest is replaced whole by one rename or stays |
| `Disk.Directory.GcOrphans` | src/index/manifest.rs:276-330 | Deletes one file at a time and never one the manifest names; the removals may fail, and if none does nothing else is left |
| `Disk.Directory.Publish` | src/index/delta_apply.rs:175-178 | Manifest last, garbage after: every recorded state before the rename opens as the old index, every one from it on as the new; if every system call succeeds the manifest does take over and is reopened |
| `Disk.CrashSafeAfterQuiet` | src/index/manifest.rs:233-330 | Writing new files before publishing keeps the whole operation crash-safe |
| `Writers.PostingMapExact` | src/index/segment/segment_writer.rs:194-230 | The written posting lists are ascending and hold exactly the pairs added |
| `Writers.SerializeAscending` | src/index/segment/segment_writer.rs:179-192 | Documents added in ascending order are written as given; the writer accepts gaps |
| `Writers.SerializeExactly` | src/index/segment/segment_writer.rs:179-192 | Any writer: its documents are written in strictly ascending order, none lost, and it is refused only when two of them have one id |
| `Writers.WriteToDir` | src/index/segment/segment_writer.rs:89-117 | Both files hold what the writer was given, under fresh names, and the reference records the byte total |
| `Flush.FillDelta` | src/index/delta_apply.rs:83-101 | The delta's documents and postings are those of the overlay, grams derived again from contents |
| `Flush.FlushKeepsRows` | src/index/delta_apply.rs:63-115 | A flushed snapshot that reopens is well formed and has the very same live documents, ids included |
| `Flush.FlushKeepsQueries` | src/index/delta_apply.rs:75-115 | Every gram query returns the same ids before and after the flush |
| `Flush.DeltaNotHidden` | src/index/delta_apply.rs:106-115 | The persisted delete-set hides none of the newly written documents |
| `Flush.WriteFlushFiles` | src/index/delta_apply.rs:63-115 | For any snapshot, in step with the disk or not: opening with the new manifest gives the base that was there with the overlay on top, under the delete-set of the snapshot, if and only if the overlay is numbered without gaps, ends within the id ceiling and starts no earlier than that base ends; otherwise nothing opens |
| `Flush.InStepFlush` | src/index/delta_apply.rs:47-61 | For a snapshot in step this is the flushed snapshot itself, and only gaps or the ceiling can forbid it |
| `Flush.FlushGuardExactly` | src/index/delta_apply.rs:47-61 | Over a base that opens with its counts recorded the guard lets a snapshot through if and only if both have the same number of segments and of documents, hidden ones included |
| `Flush.FlushOverlayDurable` | src/index/delta_apply.rs:34-190 | Crash-safe at every step; the guard refuses before anything is written and never refuses a snapshot in step with the disk; unpublished means unchanged; published, in step or not, means the directory opens as the base it had with the overlay on top exactly when the overlay can follow that base, and otherwise not at all; past the guard only a failing system call keeps it from publishing |
| `CompactPlan.LiveSegmentBytes` | src/index/compact_plan.rs:31-64 | The fast branch (recorded total less hidden bytes) and the slow one both give the bytes of the visible documents |
| `CompactPlan.HiddenBytes` | src/index/compact_plan.rs:36-52 | The ascending scan with its early stop counts exactly the hidden documents of the segment |
| `CompactPlan.LiveSnapshotBytesFrom` | src/index/compact_plan.rs:24-73 | The bytes of all live documents from a segment on, overlay included |
| `CompactPlan.PartitionPoint` | src/index/compact_plan.rs:75-82 | The number of leading segments that start at or before an id |
| `CompactPlan.FirstDeletedSafe` | src/index/compact_plan.rs:75-82 | No hidden id lies before the first deleted segment, and it is the last such place |
| `CompactPlan.PlanIsSafe` | src/index/compact_plan.rs:111-199 | Every plan, triggered or forced, starts at or before the first hidden document |
| `CompactPlan.PlansExactly` | src/index/compact_plan.rs:111-145 | The planner is idle if and only if the overlay is at most a tenth of the base, the segments are within the limit and file ids are not bloated |
| `CompactPlan.ForcedExactly` | src/index/compact_plan.rs:184-199 | A forced plan is missing if and only if overlay and delete-set are empty and no trigger holds |
| `CompactPlan.PlanStartsLatest` | src/index/compact_plan.rs:147-165 | A plan starts at the last place before which nothing is hidden and, over the limit, fewer segments than the limit stay; only bloat on its own rewrites everything |
| `CompactPlan.PlanBatchFits` | src/index/compact_plan.rs:84-109 | Over the limit, kept segments and target add up to it; the batch is the smallest of at least the build's size whose multiple by the target covers the bytes to be rewritten |
| `CompactPlan.ComputePlan` | src/index/compact_plan.rs:95-109 | The batch size is computed from the live bytes to be rewritten |
| `Packing.PackTiles` | src/index/compact.rs:57-67 | Output segments are non-empty and cover the documents in order with nothing left out |
| `Packing.PackGreedy` | src/index/compact.rs:57-67 | For every output segment: it fits the batch unless it is a single document, and the next document would not have fitted |
| `Packing.PackingBound` | src/index/compact.rs:58-67 | k output segments satisfy floor(k/2) * batch < the sum of max(size, 1) |
| `Packing.AtMostTwiceTarget` | src/index/compact_plan.rs:84-93 | Without empty files at most 2 * target - 1 segments result, so exactly one when the target is one |
| `Packing.OneSegment` | src/index/compact.rs:58-67 | One segment suffices exactly when the total cost fits the batch or there is at most one document |
| `Packing.SegmentOfUnique` | src/index/compact.rs:70-87 | A document belongs to exactly the segment whose range holds it |
| `Compact.CompactionRenumbers` | src/index/compact.rs:177-228 | Surviving documents keep their order and are numbered consecutively from the prefix limit; the prefix keeps its ids |
| `Compact.CompactionKeepsMeaning` | src/index/compact.rs:146-323 | The rewritten index is well formed and means the same path map although delete-set and overlay are dropped |
| `Compact.CompactionKeepsQueries` | src/index/compact.rs:230-254 | Every gram leads to the same paths as before |
| `Compact.OutputsTile` | src/index/compact.rs:62-67 | Output segments follow each other without gaps from the prefix limit on |
| `Compact.OutputsGreedy` | src/index/compact.rs:57-67 | The same said of the segments of the compacted index and the sizes of their documents |
| `Compact.SettledFits` | src/index/open.rs:103-232 | Without an overlay a compaction never passes the id ceiling |
| `Compaction.CompactionState.Place` | src/index/compact.rs:51-95 | One document more: a new segment when the current one would exceed the batch, the next id, and the old id mapped to it; fails when ids run out |
| `Compaction.CompactionState.AddDocument` | src/index/compact.rs:51-95 | The state has packed one document more, greedily, with the old-id map exact |
| `Compaction.PlacesStep` | src/index/compact.rs:51-95 | Placing a document keeps the layout exact: which writer holds which run, and where every old id went |
| `Compaction.CompactionState.AddPosting` | src/index/compact.rs:240-253 | A posting goes to the segment that owns the new id, or is dropped with its document |
| `Compaction.PostStep` | src/index/compact.rs:240-253 | Writer t holds a posting exactly when the new id is in its range and the old id was posted, and each gram's list is built strictly ascending |
| `Compaction.CompactionState.AddMap` | src/index/compact.rs:230-254 | All lists of one segment, or of the overlay, are remapped |
| `CompactApply.AddSegment` | src/index/compact.rs:186-219 | The live documents of a segment are collected in order; fails exactly when ids run out |
| `CompactApply.AddSuffix` | src/index/compact.rs:186-228 | All live documents of the suffix and then of the overlay are collected; fails exactly when ids run out |
| `CompactApply.MapPostings` | src/index/compact.rs:230-254 | The postings seen are those of the suffix segments and of the overlay, each list reaching its writer in ascending order |
| `CompactPublish.PostedIsHeld` | src/index/compact.rs:230-254 | For a live row, being posted somewhere in the suffix is the same as holding the gram |
| `CompactPublish.WriterIsOutput` | src/index/compact.rs:258-269 | What each writer holds is one run of the live rows with exactly their grams |
| `CompactPublish.CollectOutputs` | src/index/compact.rs:184-254 | The writers of a whole compaction are the packed, renumbered, reindexed live rows |
| `CompactPublish.ManifestSegmentBases` | src/index/compact.rs:97-106 | The recorded base of every segment, or else the end of the one before, saturating |
| `CompactPublish.BasesAgree` | src/index/compact.rs:97-106 | Those bases are where opening puts the segments |
| `CompactPublish.CompactGuardExactly` | src/index/compact.rs:112-144 | Over a base that opens with its counts recorded the guard lets a snapshot through if and only if its segments start where those of the base do |
| `CompactPublish.SyncedPassesGuard` | src/index/compact.rs:112-144 | The guard never refuses a snapshot in step with the manifest |
| `CompactPublish.WriteOutputs` | src/index/compact.rs:262-269 | Every output segment is on disk under fresh names with its base recorded |
| `CompactPublish.OutputsOpen` | src/index/open.rs:103-232 | A chain of written segments opens exactly when its last id is within the ceiling; past it opening fails |
| `CompactPublish.CompactedOpens` | src/index/compact.rs:184-269 | For any snapshot over any base: opening gives the prefix of that base with the rewritten segments on top, exactly within the ceiling |
| `CompactPublish.WriteCompacted` | src/index/compact.rs:163-290 | For any snapshot that passes the guard over any index on disk, openable or not, with right document counts or not: the new manifest opens as the kept prefix with the rewritten segments on top if and only if that prefix opens and the segments start no earlier than it ends and stay within the ceiling; otherwise nothing opens |
| `CompactPublish.CompactIndex` | src/index/compact.rs:146-323 | Crash-safe at every step; refused plans change nothing; published, in step or not and over any index on disk, the directory opens as the prefix it had with the rewritten segments on top exactly under that condition, which for a snapshot in step is the compacted snapshot, or not at all past the ceiling; past the guard only a failing system call or running out of 32-bit ids keeps it from publishing |
| `CompactPublish.CompactsOnto` | src/index/compact.rs:163-290 | Over a base that opens with its recorded document counts the condition is the ceiling alone |
| `Converge.SettledPlan` | src/index/compact_plan.rs:111-182 | After a compaction the planner acts only on too many segments, and then plans to merge everything past the limit into one |
| `Converge.SettledStep` | src/index/compact_plan.rs:136-174 | The next compaction satisfies the planner if and only if the tail merges, and the tail has the same sizes afterwards |
| `Converge.MergesExact` | src/index/compact_plan.rs:84-93 | The tail fits one segment exactly when it holds no empty file, or one document at most, or its bytes plus one per empty file fit the batch constant |
| `Converge.ConvergesInTwo` | src/index/compact_plan.rs:111-182 | Without edits and empty files the planner returns nothing after at most two compactions |
| `Converge.TwoMayBeNeeded` | src/index/compact_plan.rs:136-174 | Two can be needed: three files of 200 MB with a limit of two segments |
| `Converge.OutputsBound` | src/index/compact_plan.rs:151-174 | A planned compaction leaves at most suffix start plus 2 * target - 1 segments when no file is empty |
| `Converge.MergesAtOnce` | src/index/compact_plan.rs:111-182 | From a settled index whose tail merges no run compacts twice |
| `Converge.NeverMerges` | src/index/compact_plan.rs:111-182 | If the tail does not merge, every run of compactions leaves the planner asking for another |
| `Converge.StuckIndex` | src/index/compact.rs:58-61 | An index with that fate: one empty file beside one of the batch size; a compaction, as planned, gives back the very same index |
| `Runs.StepRefines` | src/index/mod.rs:315-376 | Commit, flush, compaction, restart, a failed write, and a flush or compaction that took effect without being reopened each do to the index what they do to the simple map |
| `Runs.RunRefines` | src/index/commit.rs:206-256 | After any run the index in memory means the simple map, and the index on disk the map of the last durable step, or does not open if that step left a gap or passed the ceiling; this also holds for a handle that kept its old snapshot after publishing, until it publishes once more over segments it does not share with the disk |
| `Runs.RunQueries` | src/index/compact.rs:186-254 | After any such run every gram query finds exactly the paths of that map that hold the gram |
| `Runs.InStepNotLost` | src/index/delta_apply.rs:47-61 | No step of a handle that is in step leaves the scope of that theorem |
| `Runs.LeftBehindIsRefused` | src/index/delta_apply.rs:49-61 | A handle whose flush of documents left memory as it was, because the result does not open or was not reopened, is refused by both guards until it restarts, along every run |
| `Runs.RetriedCompaction` | src/index/compact.rs:112-144 | A compaction that left memory as it was need not be refused, since its result can start its segments where the old ones did; tried again it keeps the same prefix, so its outcome is decided as before, whether or not the disk opens |
| `Bookkeeping.RunAccounts` | src/index/flush.rs:62-87 | Along every run, away from the overlay memory and disk differ in the paths noted for the next flush or drained by a failed one and in no others, and memory has none of those |
| `Bookkeeping.NothingToFlushExactly` | src/index/flush.rs:189-191 | When a flush finds nothing to do, along every run, a new process would see what memory holds if and only if no path that a failed flush drained is still indexed on disk |
| `Bookkeeping.NothingLost` | src/index/flush.rs:252-268 | Without a failed flush no path is drained in vain, so that is always so |
| `Bookkeeping.NothingToFlushIsRight` | src/index/flush.rs:189-191 | From an index just opened and without a failed flush, nothing to do means that a new process sees what memory holds, along every run |
| `Bookkeeping.DrainedDeletionIsLost` | src/index/flush.rs:246-251 | Any file of any index just opened: deleted, committed, and the flush fails; memory is without it, the next flush has nothing to do, and a new process still finds it |
| `Runs.NextReopensExact` | src/index/overlay/build.rs:89-269 | For every commit of any files on either path: exactly when the overlay it leaves can be flushed into an index that opens |
| `Runs.SecondEditBreaksFlush` | src/index/overlay/build.rs:230-232 | Committing the newest of several overlay files once more and then flushing, over whatever opens, publishes an index that cannot be opened (open.rs:204-210) |
| `Examples.GapRun` | src/index/overlay/build.rs:230-232 | It can be reached: build an empty index, commit two files, commit the second again, flush |
| `Handle.Handle.RunDurableFlush` | src/index/flush.rs:217-244 | By a handle in step with the disk or not: every ending is one step of the run model and says what is in memory and on disk, including a flush that took effect but was not reopened; unopenable exactly when the overlay cannot follow the base on disk; in step, with every system call and the lock obtained, it fails only by that; the bookkeeping is gone either way, and only a flush of committed content moves the head |
| `Handle.Handle.RunCompaction` | src/index/mod.rs:345-376 | By a handle in step or not: every ending is one step of the run model and says what is in memory and on disk, including a compaction that took effect but was not reopened; in step it fails to open exactly past the ceiling, and otherwise succeeds with every system call and the lock obtained |
| `Handle.Handle.FlushOverlay` | src/index/flush.rs:169-197 | By a handle in step or not: every call, failed or not, is a run of commit, flush and compaction steps with the bookkeeping of paths followed through it; nothing to do means an empty overlay and no path waiting to be made durable as gone; success means a flush, then a compaction exactly if the planner asks, and the head left alone; a commit that fails changes nothing, and only being over the cap is no error; with every system call and lock obtained, an error in step means gaps or the ceiling |
| `Stale.StaleFlushKeepsRows` | src/index/delta_apply.rs:49-115 | For any snapshot flushed over any base: every live document not replaced by the overlay survives if and only if each base document that the handle hides and the disk does not has its path in the overlay |
| `Stale.StaleFlushListsOnce` | src/index/delta_apply.rs:49-115 | The result lists no path twice if and only if the base documents the handle leaves visible have distinct paths, none of them in the overlay |
| `Stale.StaleFlushIsExact` | src/index/delta_apply.rs:106-115 | The result is the index on disk with the overlay in place of what it replaces if and only if the handle hides exactly what the disk hides and what the overlay replaces |
| `Stale.StaleCompactionKeepsMeaning` | src/index/compact.rs:112-254 | For any snapshot compacted over any base: the meaning of the disk is kept if and only if what is written, with what stops being hidden in the prefix, means what was live after the prefix |
| `Stale.StaleCompactionNothingHidden` | src/index/compact.rs:112-254 | With nothing hidden in the prefix on disk: if and only if handle and disk have the same documents after it |
| `Examples.StaleFlushLosesDocument` | src/index/delta_apply.rs:49-61 | A run of actual files and manifests from a fresh build: an edit, a planned compaction that takes effect without being reopened, and a flush that passes the guard, hides a live document and lists another twice |
| `Examples.StaleCompactionLosesDocument` | src/index/compact.rs:112-144 | After the same run as far as the compaction, and another handle's commit, flush and compaction on what it left, the first handle's compaction passes its guard and drops the file that the other one added |
| `Build.SplitBatches` | src/index/walk.rs:328-348 | Batches hold every file in order, none is empty, none counts for more than the limit, and none ends before the first file of the next would exceed it |
| `Build.FillBatch` | src/index/build.rs:171-192 | Readable files get consecutive ids with exactly their grams; fails exactly when ids run out |
| `Build.BuiltMeaning` | src/index/build.rs:110-217 | For any list, repeated records included: what is built has one live document a path if and only if no readable path is listed twice, and then means the map from every readable path to its entry |
| `Build.BuildIndexFromFileList` | src/index/build.rs:59-300 | For any list: crash-safe; published, the directory opens with exactly the rows of the readable records in order, within the ceiling and in step, or past the id ceiling not at all; only a failing system call or running out of 32-bit ids keeps it from publishing |
| `Build.BuiltIsWF` | src/index/mod.rs:172-177 | The snapshot so opened is well formed if and only if no readable path is listed twice |
| `Build.BuiltIsSearchable` | src/index/build.rs:171-192 | A gram finds a readable file of a fresh index if and only if it is one of the grams of that file's own content, and the recorded hash and size are those of that content and of the list |
| `Build.BuiltFindsOnly` | src/index/build.rs:171-192 | And whatever a gram finds is a readable file of the list whose content holds it |
| `Build.RepeatedRecord` | src/index/build_external.rs:46-64 | A readable record listed twice is indexed twice, for every record |
| `Examples.RepeatedBuild` | src/index/mod.rs:172-177 | The published files and manifest of such a build: they open, with two live documents for one path |
| `Build.RunFromBuild` | src/index/build.rs:59-300 | After any run from a fresh build in which no readable path is listed twice, the index means the map of the files first read, updated by every commit since |
| `Build.UntouchedStaysSearchable` | src/index/build.rs:59-300 | After any run from a fresh build that is accounted for, this still holds of every file that no commit has touched |
| `Locks.NextInv` | src/index/flush.rs:217-244 | Every lock step of every handle keeps the protocol invariant |
| `Locks.WritersExclude` | src/index/delta_apply.rs:41-46 | In every run, whoever changes files or manifest holds write.lock and the exclusive lock, and no other handle holds either lock in any mode |
| `Locks.SharedHoldersInStep` | src/index/compact.rs:158-162 | In every run, a handle with the shared lock and no failed durable operation behind it has the base that is on disk |
| `Locks.GuardPasses` | src/index/delta_apply.rs:49-61 | Such a handle is never turned away by the guard, through the gap between shared and exclusive; only a handle with a failure behind it can be, or can be let through by coincidence |
| `Locks.InstallsCurrent` | src/index/delta_apply.rs:180-189 | What a durable operation reopens is still what is on disk when it is installed, through the downgrade gap |
| `Locks.ReadersExclude` | src/index/build.rs:68-74 | Nobody reads the manifest while somebody is changing the directory |
| `Locks.AloneCompletes` | src/index/flush.rs:217-244 | With no other handle about, one that is in step gets through a whole durable operation and ends open on what it wrote |
| `Locks.FailedHandleMayLag` | src/index/mod.rs:361-373 | The proviso is needed: after a failure another process can publish before the shared lock is back |
| `Locks.LaggingHandleMayWrite` | src/index/mod.rs:361-373 | A handle that is behind can reach the writing of files: a guard that compares counts may let it through |
| `Threads.NextInv` | src/index/flush.rs:217-244 | Every step of every thread of one handle, committing or making durable, keeps the invariant of their protocol |
| `Threads.InstallLosesExactly` | src/index/update.rs:279-300 | Along every run an install takes out of memory exactly the edits committed since its operation gave up write.lock; they are neither queued nor on disk, and there are none if and only if no commit fell in between |
| `Threads.CommitUndoesInstall` | src/index/commit.rs:60-93 | A commit leaves the handle on the manifest it is on if and only if nothing was installed since the commit loaded its snapshot; otherwise memory is behind the disk, failure or not |
| `Threads.SerialLosesNothing` | src/index/delta_apply.rs:180-189 | If no commit and no durable operation starts between the giving up of write.lock and the install, memory has every committed edit along the whole run |
| `Threads.InstallLosesCommit` | src/index/update.rs:279-300 | A run of two threads that loses an edit whose commit succeeded |
| `Threads.CommitRevertsInstall` | src/index/commit.rs:69-92 | A run of two threads without a failure after which memory is behind the disk |
| `ReadEpoch.EpochPrecedesRecentReads` | src/index/flush.rs:55-87 | Along every run the recorded epoch precedes the reading of every path read since the last drain, and every other reading is no later than it |
| `ReadEpoch.RecentExactly` | src/index/flush.rs:252-268 | Those are exactly the paths that some commit since the last flush, failed or not, has read |
| `ReadEpoch.AllRecentWithoutFailure` | src/index/flush.rs:246-268 | If no flush failed since everything was last flushed, those are all the paths |
| `ReadEpoch.SettledDocumentIsCurrent` | src/index/worktree_anchor.rs:96-115 | For such a path, read as a document and settled at flush time, flushed content and disk agree if and only if there still is a file |
| `ReadEpoch.SettledNonDocumentIsCurrent` | src/index/worktree_anchor.rs:175-197 | For such a path, resolved without a document, a file still there is the one that was passed over |
| `ReadEpoch.TrustworthyExactly` | src/index/worktree_anchor.rs:96-115 | Along every run, an entry taken for settled is sure to have the content that was read if and only if the recorded epoch is at most one tick after the reading (or within the margin of time zero); paths read since the last drain always qualify |
| `ReadEpoch.FailedFlushLosesEarliestEpoch` | src/index/flush.rs:246-251 | A path that does not: after a failed flush and another commit a changed path passes for settled; the comment says only re-applies are lost |
| `ReadEpoch.DeletedAfterReadingIsAnchored` | src/index/worktree_anchor.rs:98-105 | A file deleted between reading and flushing is anchored as absent although its document was flushed |
| `ReadEpoch.BuildNext` | src/index/worktree_anchor.rs:175-221 | Touched paths are recorded if settled and dropped otherwise, the rest carries over, and nothing is written beyond the entry limit |
| `Anchor.DescribesExactly` | src/index/worktree_anchor.rs:96-115 | An entry with a file is sure to describe what was read, whatever is done to the file with modification times at most the racy margin behind, if and only if the time it records is at least that margin older than the reading |
| `Anchor.CarriedEntryDescribes` | src/index/worktree_anchor.rs:175-221 | Along every run: an entry recorded for a path read since the last drain and carried over through any number of commits, flushes, lost flushes and compactions is unchanged, and whenever the file looks as recorded it has the content that the index on disk has |
| `Anchor.EntriesDescribe` | src/index/flush.rs:252-268 | Along every run without a lost flush this is so for every entry with a file |
| `Anchor.CarriedEntryMisleads` | src/index/flush.rs:246-251 | A run with one lost flush whose entry, carried on by a compaction, matches the file although its content is not what was indexed |
| `Catalogue.BatchReplays` | src/changes/catalogue.rs:91-210 | For any candidates, repeated ones included, replaying the records turns the digests before into those after; without content changes they stay |
| `Catalogue.BatchIsTruthful` | src/changes/catalogue.rs:91-203 | Every record's kind and its old and new fingerprints fit the state it was made against, and applying them gives the new state |
| `Catalogue.BatchAccounts` | src/changes/catalogue.rs:91-203 | For the last observation of each path in a batch, in terms of sizes, times, epoch and clock: unchanged only if the size and both parts of the time are those tracked and the time is neither negative nor to come nor within two seconds of the epoch; otherwise, present and hashed, the hashed fingerprint is tracked and the kind follows the digests; absent means deleted and gone; a failed stat or hash changes nothing |
| `Catalogue.ChangesExactly` | src/changes/catalogue.rs:205-207 | When no path is observed twice, a batch counts as a content change if and only if some digest differs afterwards |
| `Catalogue.UnhashableExactly` | src/changes/catalogue.rs:191-200 | A batch is uncertain because of files that are there, are not known to be unchanged and cannot be hashed |
| `Catalogue.Catalogue.ObserveOne` | src/changes/catalogue.rs:91-203 | One candidate: record and entry are what its size, time and hash call for, said without the comparison it makes; it reports a content change if and only if the digests differ |
| `Catalogue.Catalogue.ObservePaths` | src/changes/catalogue.rs:80-211 | The batch is that of its candidates in order; the generation advances by one exactly on a content change, which for distinct paths is a digest that differs; changed entries carry the new generation, others keep digest and stamp |
| `Catalogue.Catalogue.Acknowledge` | src/changes/catalogue.rs:214-225 | A consumer's position never goes back, others are untouched, and its lag is what is left |
| `Catalogue.DigestsFollowGeneration` | src/changes/catalogue.rs:80-211 | Along every run generations never go back, equal generations mean equal digests, and an entry stamped no later than g has the digest it had at g |
| `Catalogue.StampsStayBelow` | src/changes/catalogue.rs:170-206 | Along every run no stamp exceeds the generation |
| `Racy.LooksTellExactly` | src/changes/fingerprint.rs:142-154 | Looking as it did when hashed, a file has the content hashed, whatever is written to it, if and only if its time was two seconds old at the hashing or it was empty |
| `Racy.UnchangedIsSure` | src/changes/catalogue.rs:125-140 | So a file reported unchanged has the content that was hashed, if its time was that old then |
| `Racy.UnchangedMisses` | src/changes/catalogue.rs:125-140 | If it was not, there is a history on which a later batch reports a changed file unchanged |
| `Racy.SecondBatchMisses` | src/changes/fingerprint.rs:15-17 | Two batches on one file: hashed in the second of its writing, rewritten with the same size and time, reported unchanged |
| `CatalogueCodec.RoundTripIffFits` | src/changes/codec.rs:56-209 | Reading back what was written gives the same catalogue if and only if every key is UTF-8 of at most 65535 bytes and both counts are below 2^32 |
| `CatalogueCodec.DecodedFits` | src/changes/codec.rs:56-152 | Whatever the bytes, a decoded catalogue has such keys and counts |
| `CatalogueCodec.AcceptsOnlySealed` | src/changes/codec.rs:63-99 | Accepted bytes start with the magic, the version and the generation, and the checksum they carry is that of all the rest; anything else is refused |
| `CatalogueCodec.AcceptsOnlyWhole` | src/changes/codec.rs:101-145 | A file is refused unless it is long enough for all the entries it announces |
| `CatalogueCodec.HeaderLayout` | src/changes/codec.rs:207-212 | What is written starts with these, at these offsets, and then the number of entries |
| `CatalogueCodec.EntryLayout` | src/changes/codec.rs:178-190 | An entry in the file: length and path, digest, size, seconds in two's complement, nanoseconds, stamp, at their offsets |
| `CatalogueCodec.LeWeights` | src/changes/codec.rs:216-239 | Byte i of an integer has the weight 256^i |
| `CatalogueCodec.WriteCatalogue` | src/changes/codec.rs:155-209 | The bytes appended record by record are the specified encoding |
| `CatalogueCodec.ReadCatalogue` | src/changes/codec.rs:56-152 | The cursor over arbitrary bytes stays in bounds and gives the specified result or the specified error |
| `CatalogueCodec.LeRoundTrip` | src/changes/codec.rs:216-239 | A little-endian integer reads back if it fits its width |
| `Utf16.TranscodesExactly` | src/index/encoding.rs:24-58 | Any text in UTF-16 of either byte order behind its mark (sections 2.1 and 2.2 of RFC 2781) normalizes to its UTF-8 form (section 3 of RFC 3629) |
| `Utf16.OneUnitExactly` | src/index/encoding.rs:28-35 | Two bytes behind a mark, in the order that the mark announces, become the UTF-8 form of the unit they make |
| `Utf16.PairExactly` | src/index/encoding.rs:46-49 | A pair of surrogates becomes one character by the formula of section 2.1 of RFC 2781 |
| `Utf16.ReplacesExactly` | src/index/encoding.rs:37-58 | For arbitrary bytes behind a mark: the UTF-8 form of what each unit contributes, in order, which is a character, half of one, or U+FFFD if it is a lone surrogate, and one U+FFFD for a trailing odd byte |
| `Utf16.ReplacedInPlace` | src/index/encoding.rs:37-58 | Each lone surrogate has its U+FFFD after exactly what the units before it contribute |
| `Utf16.Utf8Injective` | src/index/encoding.rs:37-58 | Different texts have different UTF-8 forms, so these results fix the text |
| `Utf16.Utf8Shape` | src/index/encoding.rs:46-49 | The UTF-8 form of a character is the shortest, with lead and continuation bytes as in section 3 of RFC 3629 |
| `Utf16.Utf8Untouched` | src/index/encoding.rs:24-35 | A UTF-8 mark is stripped and text without a mark is left alone |
| `NameStatus.ParseExact` | src/index/delta.rs:177-242 | Parsing accepts exactly the lists in which known statuses and safe paths alternate; every path, in its stored form, lands in the bucket of its status, in order, none lost |
| `NameStatus.ParseNameStatusZ` | src/index/delta.rs:177-242 | The loop computes the specified result, errors included |
| `NameStatus.OneRecordExactly` | src/index/delta.rs:199-240 | One record, letter by letter: where each of the four statuses puts its path, and the error for any other status or an unsafe path |
| `NameStatus.LastNulOptional` | src/index/delta.rs:177-182 | The NUL byte after the last path may be missing without losing the path |
| `NameStatus.ParseUndoesWriting` | src/index/delta.rs:173-242 | What git writes for any list of A, M, T and D records parses back to the same buckets in order, in stored form, with the count conserved |
| `Tokens.Estimate` | context/src/tokens.rs:125-149 | The loop adds up the cost of the maximal runs |
| `Tokens.RunsCost` | context/src/tokens.rs:128-140 | A word costs a fifth of its letters, a number a third of its digits, several blanks a quarter, each rounded up; one blank nothing |
| `Tokens.SingleCost` | context/src/tokens.rs:141-147 | Any other character adds its own cost: nothing for a carriage return, two from U+1F000 on, otherwise one |
| `Tokens.TakeRun` | context/src/tokens.rs:151-161 | The length of the span of one class |
| `Tokens.SpanIsMaximal` | context/src/tokens.rs:151-161 | A span holds one class only and stops only at the end or before another class |
| `Tokens.NearlyAdditive` | context/src/tokens.rs:125-149 | For all texts, estimating them together or apart differs by at most one |
| `Tokens.NearlyAdditiveIsTight` | context/src/tokens.rs:132-141 | Both ends of that range are reached |
| `Tokens.DivCeilRoundsUp` | context/src/tokens.rs:130-139 | The rounded-up quotient covers its dividend and no more than one divisor beyond |

## Left out

- Flush.FlushOverlayDurable: lock steps are in `Locks` and the anchor sidecar in `ReadEpoch`, so its manifest here has no anchor file, and path-index sidecars are absent.
- Handle.Handle.FlushOverlay: edits that other threads notify during the call are modelled in `Index.Index.CommitBatch`, their commits in `Threads`; a base on disk that opens is taken to have been written by these operations (no overlapping segments, document counts recorded), which every call keeps.
- Handle.Handle.RunCompaction: over an index on disk that does not open, what it leaves is stated as in `CompactPublish.CompactIndex`, without saying that a result that opens has no overlapping segments.
- Runs.RunRefines: says nothing after a handle that lost its place has flushed, or has compacted over a prefix it does not share with the disk; `Stale` says exactly what such a step does to the index.
- Disk.Directory.Write: a file is whole or cut short, and cut-short files are never named by a manifest; segment files are not synced by the original, so losing power after the manifest rename is not covered.
- Locks.NextInv: one operation at a time for each handle (several are in `Threads`); manifests are told apart by numbers; the guard, which compares counts, is any test that lets through a handle in step and may let through one with a failure behind it; waiting and fairness do not arise because every acquisition is a try.
- Threads.NextInv: edits and manifests are told apart by numbers, an install is one step, other processes and full rebuilds are absent, and the guard is taken to refuse every snapshot of an older manifest (what it lets through by coincidence is in `Stale`).
- Anchor.EntriesDescribe: a flush that published but was not reopened counts as lost here, modification times lag their writes by at most the racy margin, and entries for absent files are in `ReadEpoch.SettledDocumentIsCurrent`.
- Racy.LooksTellExactly: reading a file's metadata and its content are one moment, and modification times lag their writes by at most the racy margin.
- Bookkeeping.NothingToFlushExactly: the read epoch that goes with the paths is in `ReadEpoch` and `Anchor`.
- Catalogue.DigestsFollowGeneration: a run is one process; a catalogue reopened from a file that was not saved after its last batch can number a different state the same way.
- CatalogueCodec.WriteCatalogue: keys are written in a given order without repeats, standing for the sort, and the temporary file and rename are not modelled.
- Tokens.Estimate: the floating-point safety factor of `with_scale` is not modelled.
- The overlay ratios of the planner and of the commit cap are integer comparisons (ten and two times the overlay against the base) in place of floating-point division.
- 64-bit sums of sizes and generations are unbounded here, except the flush generation, which saturates as in the code.
- The path index: stable file ids, the bloat trigger that depends on them (a parameter of the planner), and the `paths.idx` cache, which a partial compaction fills with the rewritten suffix's paths only.
- The two ways a commit reads content (from disk or preloaded) are one classification here; preloaded bytes skip encoding normalization in the original.
- Legacy combined segment files, manifest parsing and checksum, sidecar headers, file-size limits and filename checks at open.
- The symbol database, calibration, git subprocesses, fsmonitor, permissions, rebuild fallback policy, `should_delta`.
- Search beyond one gram: query planning, verification of matches, result rendering, the command line.
