# clawmem: a model in Dafny

The project models the two state machines of the clawmem memory service and proves what they keep.

**Scoped memory** (`Scoped*`, `SnapshotChain`, `Compaction`). Records and snapshots of a repository, run, cycle and
agent. `ScopedStore.FileStore` is the file store, one map entry per file; `ScopedService.Service` is the service over
it, with the operations that create, upsert, resolve, move, snapshot and export. `ScopedRules` states the invariant and
what a state may turn into, `SnapshotChain` the hash-linked snapshots, `Compaction` the ranked selection of texts,
`ScopedNotes` and `ScopedPersist` what persisting notes writes, resolves and records, and
`ScopedRuns` what holds over whole runs. `ScopedFields` restates what the calls write, list and select in terms of the
fields given and stored alone.

**Generic memory** (`Memory*`, `Maintenance`, `Ops`, `Aggregates`). Records with stability, retention and expiry.
`MemoryStore.FileStore` and `MemoryService.Service` store, create and recall them; `Ops.Service` runs the four
maintenance jobs and computes the overview and the two aggregate views. `Maintenance` says what the jobs do to a store
and how they relate, `MemoryRuns` and `MemoryHistory` what holds over every sequence of calls. `MemoryFields` says what
is created, read, due, deleted and summarised in terms of the fields alone.

How the program is rendered:

- A directory of JSON files is a map from ids to records. Reading a directory picks its entries in an arbitrary order,
  so that every result is shown not to depend on it. The one Go type `FileStore` serves both halves and is two classes
  here, as the halves share no files.
- Time is an integer number of nanoseconds. `Clock.WallClock` never runs backwards but may stand still. 64-bit wrap-around
  is written out where it matters, in the decay window.
- Ids come from an arbitrary source of well-formed ids; that an id is in use already is possible, and then a create fails.
- A checksum is a symbolic digest that is determined by the hashed payload and determines it. The payload is the one the
  program hashes, with the previous checksum in it.
- Class, status, retention policy and job names are datatypes with a constructor for names nobody knows. Text handling covers ASCII.
- Go errors are `Result` values; their message texts are not modelled. The loops of `PersistNotes` are methods of their own
  (`WriteNotes`, `ResolveNotes`, `Checkpoint`), as is each turn of some loops.

Where the code does something a reader might not expect, the model follows the code and a lemma says exactly when:

- A snapshot taken without query criteria, and so every snapshot of `PersistNotes`, never checks out against its own
  checksum: it is hashed with limit 0 and saved with limit 50 (`BuiltSnapshot`, `PersistNotes`).
- The chain of a cycle's snapshots breaks with the 502nd, which points back to the 500th, and at equal creation times: when the
  two newest are tied, or when the younger of a tie has the smaller id (`CycleChain`, `NextLinkExact`, `ChainGrowsExact`;
  `LongChainBreaks` and `TieBreaks` show stores that reach both).
  A snapshot without a cycle links across all cycles of its run.
- A call of `PersistNotes` that asks to resolve an id such as "a/b" writes all its notes, then fails without a snapshot; sent
  again it writes them again and fails again, as it goes through only when all asked ids can be file names (`FailureMeans`).
- Resolving by id does not ask the transition table and takes superseded and archived records back to resolved (`ResolveByIdLowers`).
- The compact context still contains resolved records, because every rule it uses includes them (`FetchCompactContext`).
- A recalling read recomputes the score and can take a preserved record below 70 (`ReadMayUndercut`).
- A score that decays to 0 is read as freshly computed (`DecayReads`).
- The decay window overflows 64 bits after several hundred thousand recalls. Decays of a record are then too close exactly when
  the wrapped window falls short of the gap (`GapExact`, `SpacingExact`); a record just past the bound is due again the moment it
  has been decayed (`OverflowingWindow`, `RerunExact`).
- The expired counter of the overview counts shielded records, which cleanup leaves (`ExpiredSplit`).
- The candidate counter of the overview counts protected records and merges groups whose joined keys coincide (`CandidatesBound`).

Verify with `dafny verify dfyconfig.toml`.

## Model

| member | source | states |
|---|---|---|
| Text.CleanTexts | internal/domain/scopedmemory/models.go:338-354 | the trim / drop-blank / dedupe / sort loop gives the specified cleaned list; the same routine is CleanTags |
| Text.CleanMeaning | internal/domain/scopedmemory/models.go:338-354 | the cleaned list is strictly sorted and holds exactly the non-blank trimmed texts |
| Text.CleanTwice | internal/domain/scopedmemory/models.go:338-354 | cleaning a clean list changes nothing |
| Text.CleanDependsOnTexts | internal/domain/memory/models.go:331-347 | cleaning depends only on the set of trimmed texts, not on order or repetition |
| Text.BeforeTotalOn | internal/platform/store/file_store_scoped.go:148-156 | string comparison is a strict total order, so id tie-breaks settle every comparison |
| Text.BeforeMeaning | internal/platform/store/file_store_scoped.go:148-156 | text a comes before text b exactly when, at the first place where they differ, a has ended or has the smaller character |
| Text.TrimMeaning | internal/domain/scopedmemory/models.go:338-354 | trimming takes off the white space around a text and no more |
| Text.FoldMeaning | internal/domain/scopedmemory/models.go:278-305 | names are read trimmed and in lower case; only the letters A to Z change |
| Text.UsableIdMeaning | internal/platform/store/file_store.go:353-364 | an id can be a file name exactly when it is not blank and holds no slash, backslash or double dot |
| ScopedModel.TransitionTableClimbs | internal/services/scopedmemory/service.go:929-947 | the transition table allows a change between known statuses exactly when it does not move down open < resolved < superseded < archived |
| ScopedModel.NormalizeClassTwice | internal/domain/scopedmemory/models.go:278-305 | reading a class name gives a normal form: reading it again changes nothing |
| ScopedModel.NormalizeStatusTwice | internal/domain/scopedmemory/models.go:307-323 | the same for a status name |
| ScopedModel.ClassRead | internal/domain/scopedmemory/models.go:278-305 | each class is read from exactly its names, in any letter case and with outer white space |
| ScopedModel.StatusRead | internal/domain/scopedmemory/models.go:307-323 | each status is read from exactly its name, and a blank text as none |
| ScopedModel.ActionableClasses | internal/services/scopedmemory/service.go:920-927 | the classes with status transitions are gaps, risks, backlog items, reviewer notes and policy exceptions, by any of their names |
| ScopedModel.RecordRead | internal/platform/store/file_store_scoped.go:331-371 | what reading makes of a stored record, field by field, with what fills the gaps of a legacy one |
| ScopedModel.RecordAccepted | internal/domain/scopedmemory/models.go:213-245 | a record is stored exactly when it has an id, repository, run, class, text or content, and date, and a resolved one its date of resolution |
| ScopedModel.SnapshotAccepted | internal/domain/scopedmemory/models.go:247-272 | the same for a snapshot, and what reading makes of it |
| ScopedModel.NormalizeRecordTwice | internal/platform/store/file_store_scoped.go:331-371 | a normalised record is a fixpoint of normalisation, so what is stored reads back as it was written |
| ScopedModel.NormalizeSnapshotTwice | internal/platform/store/file_store_scoped.go:373-397 | the same for snapshots |
| ScopedModel.NormalizeQueryTwice | internal/domain/scopedmemory/models.go:173-195 | the same for queries |
| ScopedModel.QueryPages | internal/domain/scopedmemory/models.go:173-211 | the page of a query: 50 entries without a limit, never more than 500, from the given offset or the start |
| ScopedModel.RecordBeforeTotalOn | internal/platform/store/file_store_scoped.go:148-156 | the record order (creation, then id) is a strict total order on records with distinct ids |
| ScopedModel.SnapshotBeforeTotalOn | internal/platform/store/file_store_scoped.go:251-259 | the same for snapshots |
| ScopedStore.ListingMeaning | internal/platform/store/file_store_scoped.go:99-170 | a listing holds every record that passes the filters, each once, oldest first |
| ScopedStore.SnapshotListingMeaning | internal/platform/store/file_store_scoped.go:226-273 | the same for the snapshots of a scope |
| ScopedStore.ListingUnique | internal/platform/store/file_store_scoped.go:283-305 | whatever order the directory is read in, filtering and sorting give that one listing |
| ScopedStore.SnapshotListingUnique | internal/platform/store/file_store_scoped.go:307-329 | the same for snapshots |
| ScopedStore.ListingIgnoresPage | internal/platform/store/file_store_scoped.go:99-170 | limit and offset take no part in selection |
| ScopedStore.QueryListing | internal/platform/store/file_store_scoped.go:99-170 | a query lists exactly the records that pass each of its filters, a blank one letting all pass, by creation and then id |
| ScopedStore.ScopeListing | internal/platform/store/file_store_scoped.go:226-273 | a scope lists exactly the snapshots of its repository, run and cycle, as far as given, by creation and then id |
| ScopedStore.FileStore.CreateScopedRecord | internal/platform/store/file_store_scoped.go:15-43 | the whole new state of a create, with its error cases: invalid record, unusable id, id in use |
| ScopedStore.FileStore.UpdateScopedRecord | internal/platform/store/file_store_scoped.go:45-73 | the whole new state of an update, with its error cases: invalid record, unusable id, unknown id |
| ScopedStore.FileStore.GetScopedRecord | internal/platform/store/file_store_scoped.go:75-97 | the stored record as read, or the right error |
| ScopedStore.FileStore.CreateScopedSnapshot | internal/platform/store/file_store_scoped.go:172-200 | the whole new state of a snapshot create, with its error cases |
| ScopedStore.FileStore.GetScopedSnapshot | internal/platform/store/file_store_scoped.go:202-224 | the stored snapshot as read, or the right error |
| ScopedStore.FileStore.LoadAllScopedRecords | internal/platform/store/file_store_scoped.go:283-305 | every record is read exactly once, in an arbitrary order |
| ScopedStore.FileStore.LoadAllScopedSnapshots | internal/platform/store/file_store_scoped.go:307-329 | every snapshot is read exactly once, in an arbitrary order |
| ScopedStore.FileStore.ListScopedRecords | internal/platform/store/file_store_scoped.go:99-170 | one page of the listing, with the right total and hasMore |
| ScopedStore.FileStore.ListScopedSnapshots | internal/platform/store/file_store_scoped.go:226-273 | one page of the snapshot listing, with the right total and hasMore |
| ScopedService.Service.ListAllRecords | internal/services/scopedmemory/service.go:558-588 | paging ends and returns exactly the listing dropped by the starting offset, for every limit and offset |
| ScopedService.Service.ListAllSnapshots | internal/services/scopedmemory/service.go:590-612 | the same for snapshots |
| ScopedRules.NewRecordOk | internal/services/scopedmemory/service.go:614-656 | a record made by createRecord reads back as written and keeps the field and date rules |
| ScopedRules.ResolveRecordOk | internal/services/scopedmemory/service.go:757-768 | resolving keeps them, and lets the record evolve: identity stays, open is left |
| ScopedRules.MoveRecordOk | internal/services/scopedmemory/service.go:125-166 | so does a status transition the table allows |
| ScopedRules.RefreshGapOk | internal/services/scopedmemory/service.go:696-716 | so does refreshing an open gap; each provenance field is filled only if blank |
| ScopedRules.EvolvesTransitive | internal/services/scopedmemory/service.go:614-811 | what holds of each step (records never disappear, identity and provenance kept, open never re-entered) holds across steps |
| ScopedRules.AddRecordKeeps | internal/services/scopedmemory/service.go:614-656 | adding a record that is no second open gap keeps the invariant |
| ScopedRules.ReplaceRecordKeeps | internal/services/scopedmemory/service.go:748-811 | replacing a record by a successor that is no new open gap keeps the invariant |
| ScopedRules.NoGapWithTextLeft | internal/services/scopedmemory/service.go:777-811 | after resolve-by-text no open gap of the repository and run has one of the texts, in any cycle or agent |
| ScopedRules.ResolveByIdLowers | internal/services/scopedmemory/service.go:748-775 | resolving by id lowers a status exactly for the superseded and archived records it changes |
| ScopedRules.UsablePrefix | internal/services/scopedmemory/service.go:748-757 | resolving by id works through the ids up to the first that cannot be a file name |
| ScopedService.Service.NextRecordId | internal/services/scopedmemory/service.go:104-115 | generated ids are usable as file names; nothing says they are unused |
| ScopedService.Service.CreateRecord | internal/services/scopedmemory/service.go:614-656 | one new record made from the draft; or, only when a generated id is in use, AlreadyExists and the store unchanged; the invariant is kept |
| ScopedService.Service.AppendTextRecords | internal/services/scopedmemory/service.go:658-679 | exactly one new record per cleaned text, in order; every older record untouched; a taken id stops it, with the records of the first texts written |
| ScopedService.Service.FindOpenGap | internal/services/scopedmemory/service.go:721-746 | the oldest open gap whose repository, run and text fit, and whose cycle and agent fit where given; none only if there is none |
| ScopedService.Service.UpsertUnresolvedGaps | internal/services/scopedmemory/service.go:681-719 | per cleaned text the oldest fitting gap of the start state is refreshed, or a new one written; nothing else changes; a taken id stops it, with the first texts done; at most one open gap per key stays true |
| ScopedService.Service.ResolveOne | internal/services/scopedmemory/service.go:753-773 | one turn of resolve-by-id: which id is reported, and which record changes how |
| ScopedService.Service.ResolveByIds | internal/services/scopedmemory/service.go:748-775 | exactly the resolvable records before the first unusable id are resolved, and exactly the hits are reported in order |
| ScopedService.Service.ResolveGapsByText | internal/services/scopedmemory/service.go:777-811 | exactly the open gaps of the repository and run with one of the texts are resolved and reported, and none is left |
| ScopedService.Service.UpdateRecordStatus | internal/services/scopedmemory/service.go:125-166 | every outcome: blank, unusable or unknown id, class without transitions, forbidden transition, and the moved record |
| ScopedResolve.ResolvedSettles | internal/services/scopedmemory/service.go:748-775 | resolving leaves every other status alone, and moves down only to resolved |
| ScopedGaps.OpenGapListing | internal/services/scopedmemory/service.go:721-746 | listing the open gaps of a repository and run gives them all, oldest first |
| ScopedGaps.NoCandidateNoGap | internal/services/scopedmemory/service.go:721-746 | no candidate means no open gap with this very scope and text, even with a blank cycle or agent, so an insert cannot make a second one |
| ScopedGaps.UpsertedMore | internal/services/scopedmemory/service.go:681-719 | upserting one more text disturbs none of the earlier upserts |
| ScopedService.Service.WriteNotes | internal/services/scopedmemory/service.go:265-294 | the seven writing steps: each note, in order, has its own record, a new one with the full scope or the refreshed oldest gap that fits, and nothing else changes; when a generated id is taken, so have the first notes |
| ScopedService.Service.ResolveNotes | internal/services/scopedmemory/service.go:296-320 | the six resolving steps: exactly the asked records that can be resolved and the open gaps with a listed text are resolved, and exactly those and the asked ones resolved already are reported; or the steps stop at the first asked id that cannot be a file name, with those before it resolved |
| ScopedService.Service.Checkpoint | internal/services/scopedmemory/service.go:322-354 | the closing snapshot, complete with summary, creator, counts, refs and previous checksum, is the only new one, and exactly one record is added, which refers to it; it fails only on a taken id, with no record added |
| ScopedService.Service.PersistNotes | internal/services/scopedmemory/service.go:241-363 | the whole call: a rejected one changes nothing; one that goes through took exactly these steps, so unlisted records are untouched and the lists hold only what it wrote and what it was asked to resolve; one that fails stopped at a taken id or at an unusable asked id, with exactly the steps before that taken; statuses change only to resolved, and move down only for asked ids |
| ScopedNotes.WroteAllThenUpserted | internal/services/scopedmemory/service.go:681-719 | upserting the gaps after other classes keeps the account of what was written; the fitting gaps are still those of the start |
| ScopedResolve.ResolvedMoreIds | internal/services/scopedmemory/service.go:748-775 | resolving by id in several calls resolves what one call for all the ids would |
| ScopedResolve.ResolvedMoreGaps | internal/services/scopedmemory/service.go:777-811 | resolving by text afterwards adds exactly the open gaps of the first state |
| ScopedPersist.CourseFramed | internal/services/scopedmemory/service.go:241-363 | start records in neither list are untouched, and every new record is listed or is the reference |
| ScopedPersist.CourseWrote | internal/services/scopedmemory/service.go:265-294 | every listed written record keeps one of the notes, new with the full scope or a gap that fits, and every note has one |
| ScopedPersist.CourseResolved | internal/services/scopedmemory/service.go:296-320 | every id listed as resolved is resolved and was asked for, by id or by text; no gap with a listed text is left open |
| ScopedPersist.CourseCheckpointed | internal/services/scopedmemory/service.go:322-354 | the snapshot refers to exactly the written and resolved ids, and all of them are stored |
| ScopedPersist.NothingAskedNothingDone | internal/services/scopedmemory/service.go:241-363 | a call with nothing to write and nothing to resolve changes nothing |
| ScopedPersist.FailureMeans | internal/services/scopedmemory/service.go:241-363 | a call with acceptable scope and status fails only on a taken id or because a list holds an id that cannot be a file name; in the second case it took no snapshot and has written every note, those that are not gaps as new records |
| ScopedFields.NotesMeaning | internal/services/scopedmemory/service.go:241-363 | the notes of a call are exactly the trimmed non-blank texts it gives, each for the class it gives it for |
| ScopedFields.RejectedNotes | internal/services/scopedmemory/service.go:241-252 | a call is rejected exactly for a blank repository or run, or a given status that is none of the four, and then changes nothing |
| ScopedFields.NewRecordFields | internal/services/scopedmemory/service.go:246-294 | a new record of a call that went through: open when no status was given or when it is a gap, else with the given status, unless the same call resolved it; its creator, expiry, content (working context only), metadata, links and scope as given; and a new gap only where no open gap fitted |
| ScopedFields.RefreshedRecordFields | internal/services/scopedmemory/service.go:681-719 | a listed record that was there before is the oldest open gap that fitted, refreshed: blank links filled in, metadata laid over, the rest kept |
| ScopedFields.CheckpointFields | internal/services/scopedmemory/service.go:322-354 | the scope, creator, summary, manifest ref and counts of the closing snapshot, and every field of the record that refers to it |
| ScopedFields.ResolvedByIds | internal/services/scopedmemory/service.go:748-775 | resolving by id changes exactly the asked unresolved records of the five classes, only their status and dates, and reports exactly those and the resolved ones |
| ScopedFields.StatusUpdateFields | internal/services/scopedmemory/service.go:125-166 | an update goes through exactly for a stored record of the five classes and a named status that does not lie before its own; what it leaves of the record, and nothing else changes |
| ScopedPersist.CleanIds | internal/services/scopedmemory/service.go:356-363 | cleaning stored ids for the snapshot only sorts them and drops repeats |
| ScopedSnapshots.CriteriaSaved | internal/services/scopedmemory/service.go:379-391 | with caller criteria the saved criteria are the hashed ones; without, limit 0 is hashed and 50 saved |
| ScopedSnapshots.BuiltSnapshot | internal/services/scopedmemory/service.go:365-430 | what is stored is what was built but for that limit; the stored snapshot checks out against its checksum if and only if the caller gave criteria |
| ScopedService.Service.CreateSnapshot | internal/services/scopedmemory/service.go:365-430 | the whole new state and the snapshot itself: refs as given or as listed, previous checksum of the scope, checksum; it fails exactly for its namespace or, only when a generated id is in use, with AlreadyExists |
| ScopedFields.SnapshotCovers | internal/services/scopedmemory/service.go:380-404 | a snapshot without refs refers to exactly the stored records of the namespace, or of the given criteria with their blank scope fields taken from it, less as many of the oldest as the criteria skip |
| ScopedFields.SnapshotRefsGiven | internal/services/scopedmemory/service.go:393-394 | a snapshot with refs refers to exactly these, trimmed, each once and in order |
| ScopedFields.SnapshotFields | internal/services/scopedmemory/service.go:365-430 | a snapshot is rejected exactly for a blank repository or run; otherwise its scope, creator, summary, manifest ref, metadata and time, from the input |
| ScopedService.Service.LatestSnapshot | internal/services/scopedmemory/service.go:999-1005 | the loop finds the strictly youngest entry of the page |
| ScopedService.Service.LatestSnapshotChecksum | internal/services/scopedmemory/service.go:985-1006 | the checksum the next snapshot points back to, from the first page of 500 |
| SnapshotChain.LatestOfSorted | internal/services/scopedmemory/service.go:985-1006 | on a sorted page the loop keeps the first of the youngest entries |
| SnapshotChain.AddSnapshotKeeps | internal/services/scopedmemory/service.go:365-430 | adding a snapshot the way the service does keeps every stored snapshot linked: for any clock to a stored one of its scope that is no younger, and without ties to the one its scope then showed as latest |
| SnapshotChain.NextLinkExact | internal/services/scopedmemory/service.go:985-1006 | the next snapshot of any scope points back to the newest one if and only if the listing fits one page and the newest is strictly younger than the one before |
| SnapshotChain.CycleChain | internal/services/scopedmemory/service.go:985-1006 | with increasing creation times a cycle's snapshots form one linked list if and only if there are at most 501 of them |
| SnapshotChain.ChainGrowsExact | internal/services/scopedmemory/service.go:365-430 | for any clock, a new snapshot extends a linked listing if and only if the listing fits one page, its newest entry is strictly younger than the one before, and the new one is listed last, which at a tie the ids decide |
| ScopedSnapshots.ChainOfLength | internal/services/scopedmemory/service.go:365-430 | for every length there is a store with that many snapshots of one cycle at strictly increasing times |
| ScopedSnapshots.LongChainBreaks | internal/services/scopedmemory/service.go:985-1006 | so the bound is reached: a valid store with 502 snapshots of a cycle that are not one linked list |
| ScopedSnapshots.TieBreaks | internal/services/scopedmemory/service.go:985-1006 | a tie breaks a chain: a valid store with two snapshots of a cycle, taken in one instant, that are not a linked list |
| SnapshotChain.EqualChecksums | internal/services/scopedmemory/service.go:1008-1044 | equal checksums mean equal hashed content, the hashed limit included |
| SnapshotChain.EqualHeadsEqualHistories | internal/services/scopedmemory/service.go:1008-1044 | two chains with the same head checksum are the same chain, entry by entry |
| SnapshotChain.RecomputeExact | internal/services/scopedmemory/service.go:1008-1044 | a stored snapshot checks out against its checksum if and only if the hashed limit is the saved one |
| ScopedSnapshots.PresentAll | internal/services/scopedmemory/service.go:440-468 | when every ref resolves, the export is one record per ref, in ref order |
| ScopedSnapshots.RefsResolveLater | internal/services/scopedmemory/service.go:440-468 | refs that resolve once resolve in every later state |
| ScopedService.Service.GetSnapshot | internal/services/scopedmemory/service.go:432-434 | the snapshot as read, or the right error |
| ScopedService.Service.ExportSnapshot | internal/services/scopedmemory/service.go:440-468 | the records of the refs in ref order; only when none resolves, the listing of the criteria |
| ScopedSnapshots.ExportedHeadIsNext | internal/services/scopedmemory/service.go:470-534 | the head a run export reports is the checksum the next snapshot of the scope will carry if and only if there are at most 500 snapshots or none after the 500th is younger than it |
| ScopedService.Service.CountClassesAndStatuses | internal/services/scopedmemory/service.go:495-500 | the two tables count every class and status as often as it occurs |
| ScopedService.Service.ExportRun | internal/services/scopedmemory/service.go:470-534 | all records and snapshots of the run or cycle in order, their exact counts, the sorted snapshot ids and checksum texts, the head checksum and the time |
| ScopedService.Service.Manifest | internal/services/scopedmemory/service.go:502-518 | the loop over the snapshots collects their ids and the texts of their checksums, both sorted, and the checksum of the strictly youngest |
| ScopedFields.RunListings | internal/services/scopedmemory/service.go:470-534 | a run exports exactly the stored records and snapshots of its repository, run and, if given, cycle |
| ScopedRuns.Run | internal/services/scopedmemory/service.go:117-534 | any sequence of calls goes through a history of states that keep the invariant and only evolve; each call answers and leaves behind exactly what its own contract says, whether it goes through or fails, and changes statuses as it may |
| ScopedRuns.StatusMoves | internal/services/scopedmemory/service.go:125-166 | in each call a status stays or moves up, but for a record that persisting notes was asked to resolve by id, which ends resolved |
| ScopedRuns.HistoryEvolves | internal/services/scopedmemory/service.go:614-811 | between any two moments of a run the later state evolves from the earlier |
| ScopedRuns.RecordHistory | internal/services/scopedmemory/service.go:614-811 | between any two moments: no record lost, identity and content kept, open never re-entered, non-actionable records unchanged, provenance write-once, dates in order |
| ScopedRuns.OneOpenGap | internal/services/scopedmemory/service.go:681-746 | at every moment at most one open gap per repository, run, cycle, agent and trimmed text |
| ScopedRuns.SnapshotHistory | internal/services/scopedmemory/service.go:365-430 | a stored snapshot never changes |
| ScopedRuns.ChainHistory | internal/services/scopedmemory/service.go:985-1006 | at every moment a cycle's snapshots are one linked list if and only if there are at most 501 |
| ScopedRuns.CheckpointExports | internal/services/scopedmemory/service.go:440-468 | at every later moment a PersistNotes snapshot exports exactly one record per ref, in ref order |
| ScopedRuns.PersistedExports | internal/services/scopedmemory/service.go:241-468 | whatever later calls of a run do, the snapshot of a call that persisted notes exports exactly one record per id that call listed, in the order of its refs |
| Compaction.RankingTotalOn | internal/services/scopedmemory/service.go:847-867 | the five-level comparator is a strict total order on records with distinct ids |
| Compaction.CompactedMeaning | internal/services/scopedmemory/service.go:828-886 | the kept texts are distinct, stand for their best-ranked eligible records, in that order, and a text is left out only when the cap is full of better ones |
| Compaction.EligibleExact | internal/services/scopedmemory/service.go:833-844 | which records a selection is from: not archived, and of the current cycle or not open only where the rule says so |
| Compaction.RankedIsPreferred | internal/services/scopedmemory/service.go:846-918 | the comparator in terms of the fields: same cycle and agent, same cycle, no cycle, others; then open, resolved, superseded, archived; then the later update, the later creation, the smaller id |
| Compaction.KeptByFields | internal/services/scopedmemory/service.go:828-886 | so each kept text has its preferred record, the preferred texts come first, and one is missing only when preferred ones fill the list |
| Compaction.CompactTexts | internal/services/scopedmemory/service.go:828-886 | the filter, the sort and the picking loop give that selection, whatever the order of the input |
| Compaction.TakeFirstTexts | internal/services/scopedmemory/service.go:869-885 | the picking loop takes the first distinct texts up to the cap |
| Compaction.FirstOfTextRepresents | internal/services/scopedmemory/service.go:869-885 | the first ranked record of each text is its best one |
| ScopedService.Service.FetchClass | internal/services/scopedmemory/service.go:536-556 | the selection applied to all records of one class |
| ScopedService.Service.FetchCompactContext | internal/services/scopedmemory/service.go:205-239 | each list of the context is the selection for its class and rule; a rejected namespace gives an error |
| ScopedFields.ContextFields | internal/services/scopedmemory/service.go:168-239 | each list of the context: from the run's records of the class that are not archived, prior summaries of other cycles only, at most seven of these and five of each other class |
| MemoryModel.ComputeStability | internal/domain/memory/models.go:218-235 | a computed score is always within 0..100 |
| MemoryModel.StabilityGrows | internal/domain/memory/models.go:218-235 | more importance, recalls, references or protection never lower the score; the bonuses add at most 71, and exactly 71 when all are at their caps |
| MemoryFields.StabilityExact | internal/domain/memory/models.go:218-235 | the score exactly: importance, 5 for each of four recalls, 4 for each of four references, 20 if pinned, 15 for replay, within 0 and 100 |
| MemoryModel.FittingWindow | internal/domain/memory/models.go:249-270 | the window is at least 12 hours, 24 if not session retained, and the 64-bit product is what the formula says if and only if it is at most 2562047 hours |
| MemoryModel.CountsThatFit | internal/domain/memory/models.go:249-270 | it always fits while 4 * recalls + 6 * references is at most 2561940 |
| MemoryModel.NamespaceFor | internal/domain/memory/models.go:309-329 | the loop joins the non-blank trimmed parts with slashes |
| MemoryModel.LoadFields | internal/platform/store/file_store.go:311-351 | what reading a stored record leaves alone and what it derives |
| MemoryFields.LoadedFields | internal/platform/store/file_store.go:311-351 | what a stored record is read as, field by field, with the default for each one it lacks |
| MemoryFields.QueryListing | internal/platform/store/file_store.go:106-167 | a query lists exactly the records that pass each filter, by creation and then id, with the page sizes |
| MemoryModel.LoadValidExact | internal/platform/store/file_store.go:311-351 | a stored record reads as a valid one if and only if its id, type, scope, summary, a source and its scores are right and its policy is known or unset |
| MemoryModel.RecallValid | internal/domain/memory/models.go:237-243 | a recalled valid record is valid |
| MemoryModel.DecayValid | internal/domain/memory/models.go:272-287 | a decayed valid record is valid |
| MemoryModel.PreserveValid | internal/services/ops/service.go:240-247 | a preserved valid record is valid, linked, replay_preserve and at least 70 stable |
| MemoryModel.CreatedBeforeTotalOn | internal/platform/store/file_store.go:145-153 | the listing order is a strict total order on records with distinct ids |
| MemoryModel.NewerTotalOn | internal/services/ops/service.go:211-216 | the order within a group of duplicates is a strict total order |
| MemoryStore.FileStore.Create | internal/platform/store/file_store.go:48-75 | the whole new state of a create, with its error cases |
| MemoryStore.FileStore.Update | internal/platform/store/file_store.go:77-104 | the whole new state of an update, with its error cases |
| MemoryStore.FileStore.Delete | internal/platform/store/file_store.go:193-208 | the whole new state of a delete, with its error cases |
| MemoryStore.FileStore.Get | internal/platform/store/file_store.go:169-191 | the stored record, not normalised, or the right error |
| MemoryStore.FileStore.ListAll | internal/platform/store/file_store.go:286-309 | every record is read, normalised, exactly once, in an arbitrary order |
| MemoryStore.FileStore.Count | internal/platform/store/file_store.go:210-219 | the number of records |
| MemoryStore.FileStore.List | internal/platform/store/file_store.go:106-167 | one page of the one sorted listing of the matching records, with the right total and hasMore |
| MemoryStore.CollectedIsListing | internal/platform/store/file_store.go:106-167 | whatever order the directory is read in, filtering and sorting give that listing |
| MemoryStore.FileStore.FindByIdempotency | internal/platform/store/file_store.go:228-242 | finds a record if and only if the trimmed key is non-blank and in use; what it finds is such a record |
| MemoryService.Service.Create | internal/services/memory/service.go:60-74 | a create whose key is in use returns an existing record with that key and leaves the store unchanged; otherwise one new record, or a refusal that changes nothing: Rejected exactly for an unacceptable input, AlreadyExists only when some generated id is in use; keys stay unique |
| MemoryService.Service.CreateBatch | internal/services/memory/service.go:76-86 | a batch creates, in order, for each input before the first refused one whose key is not in use; it fails exactly at that input, for what it says or for a taken id, and what was created stays |
| MemoryCreation.AcceptableExact | internal/services/memory/service.go:150-206 | a complete input makes a valid record if and only if its importance is within 0..100 and its policy is known or unset |
| MemoryFields.AcceptableFields | internal/services/memory/service.go:150-206 | what a create accepts, field by field |
| MemoryFields.KeysInUse | internal/platform/store/file_store.go:228-242 | the idempotency keys in use are exactly the trimmed non-blank keys of the stored records |
| MemoryFields.CreatedFields | internal/services/memory/service.go:150-206 | what a create makes of its input, field by field |
| MemoryFields.ValidFields | internal/domain/memory/models.go:168-216 | what an update accepts, field by field |
| MemoryFields.RecalledFields | internal/domain/memory/models.go:237-243 | what a read leaves of a record, field by field |
| MemoryService.Service.Get | internal/services/memory/service.go:109-117 | reading counts as a recall and is written back; the error cases change nothing |
| MemoryService.Service.UpdateRecord | internal/services/memory/service.go:131-133 | an update goes through exactly for a valid record whose id is usable and stored |
| MemoryService.Service.Delete | internal/services/memory/service.go:135-137 | a delete goes through exactly for a usable stored id |
| MemoryCreation.NewRecordAdded | internal/services/memory/service.go:60-74 | a new record with an unused key keeps keys unique and adds exactly that key |
| MemoryCreation.AddedMore | internal/services/memory/service.go:76-86 | what a batch adds is the sum of what its creates add |
| MemoryCreation.ResubmitAddsMissing | internal/services/memory/service.go:76-86 | sending a fully keyed batch again after it stopped part-way adds exactly one record per missing key and changes nothing stored; a batch that went through adds nothing the second time |
| Ops.Service.RunJob | internal/services/ops/service.go:137-161 | on a store of readable records every supported job completes, leaves the store as specified and reports the exact count; an unsupported one fails and changes nothing but its status |
| Ops.Service.RunDecayUpdate | internal/services/ops/service.go:163-176 | exactly the due and unexpired records are decayed, and counted |
| Ops.Service.RunExpiredCleanup | internal/services/ops/service.go:178-193 | exactly the expired and unshielded records are deleted, and counted |
| Ops.Service.RunStaleCompaction | internal/services/ops/service.go:195-228 | exactly the records that are neither newest of their group nor protected are deleted, whatever the order of the groups |
| Ops.Service.GroupRecords | internal/services/ops/service.go:196-204 | records are split by (namespace, type, source_ref), keeping their order |
| Ops.Service.CompactGroup | internal/services/ops/service.go:207-226 | within one sorted group exactly the stale records are deleted |
| Ops.Service.RunReplayPreservation | internal/services/ops/service.go:230-252 | exactly the linked, replay-case or replay-tagged records that are not fully preserved are updated, and counted |
| Ops.Service.MaintenanceOverview | internal/services/ops/service.go:111-135 | the decay queue counts the work of two jobs (QueueConservation), the expired count includes shielded records (ExpiredSplit), the replay count is of the linked records (ReplayCounted), the stale count is the surplus of joined keys; with them the time and the latest status of every job, by name |
| Ops.ExpiredSplit | internal/services/ops/service.go:111-135 | the expired count is what cleanup would remove plus the shielded expired records, which alone are left to count after a cleanup |
| Ops.ReplayCounted | internal/services/ops/service.go:111-135 | the replay count is of the linked records, and preserving adds to it exactly the records that job works on |
| Ops.Service.SortedJobs | internal/services/ops/service.go:126-134 | whatever the map order, each status is listed once, sorted by job name |
| MemoryFields.JobsInOrder | internal/services/ops/service.go:111-135 | the known jobs are listed in the order decay, cleanup, preservation, compaction |
| Ops.Service.CountWhere | internal/services/ops/service.go:381-409 | the counting loops count the records that pass |
| Ops.Service.CountStaleSummaryCandidates | internal/services/ops/service.go:411-424 | adding up all but one per joined key gives the records less the distinct joined keys |
| Maintenance.QueueConservation | internal/services/ops/service.go:163-193 | at one instant the decay queue is split, with nothing left over and no overlap, between decay_update and expired_cleanup |
| MemoryFields.DueExact | internal/domain/memory/models.go:249-270 | decay takes exactly an unprotected unexpired record that has been unused for 12 hours with session retention, else for 24 and a half of importance, a third of stability, 4 per recall and 6 per reference, as long as that fits 64 bits of nanoseconds |
| MemoryFields.WindowExact | internal/domain/memory/models.go:249-270 | beyond that the span is the same hours wrapped to 64 bits |
| MemoryFields.RemovableExact | internal/services/ops/service.go:178-193 | cleanup takes exactly the expired records that are neither pinned, linked nor preserved |
| MemoryFields.DecayedFields | internal/domain/memory/models.go:272-287 | what decay leaves of a record, field by field |
| MemoryFields.PreservableExact | internal/services/ops/service.go:230-252 | preservation takes exactly the linked, replay and replay-tagged records that lack something it gives |
| MemoryFields.PreservedFields | internal/services/ops/service.go:230-252 | what preservation leaves of a record, field by field |
| Maintenance.DecayAndCleanupCommute | internal/services/ops/service.go:163-193 | the two jobs in either order give the same store |
| Maintenance.DecayReads | internal/domain/memory/models.go:272-287 | a decayed record reads with its lowered score, except that a score that would reach 0 reads as freshly computed; no record reads as 0 |
| Maintenance.DueAfterWindow | internal/domain/memory/models.go:249-270 | a record whose 64-bit window reaches the least gap is not due within 12 hours of its last update, 24 if not session retained |
| Maintenance.FittingReachesGap | internal/domain/memory/models.go:249-270 | a window that fits 64 bits reaches that gap |
| Maintenance.GapExact | internal/domain/memory/models.go:249-270 | a record comes due too early if and only if its window, as it comes out in 64 bits, ends within the least gap and before it expires; without expiry or a later access, if and only if the window falls short of the gap |
| Maintenance.OverflowingWindow | internal/domain/memory/models.go:249-270 | a record that a read brings to 640486 recalls is due at once, and still due when it has been decayed |
| Maintenance.DecayOnce | internal/services/ops/service.go:163-176 | rerunning decay_update at the same instant updates nothing while recalls and references stay within the bound |
| Maintenance.RerunExact | internal/services/ops/service.go:163-176 | without the bound, the rerun decays exactly the records whose 64-bit window came out as zero or negative, or less where a last access lies ahead of the clock |
| Maintenance.NewestExists | internal/services/ops/service.go:195-228 | every group has a newest record |
| Maintenance.CompactionExact | internal/services/ops/service.go:195-228 | the survivors are exactly the newest of each group and the pinned or linked, unchanged; no group is lost |
| Maintenance.DeletedHasNewer | internal/services/ops/service.go:195-228 | for every deleted record a duplicate (same namespace, type and source) survives that was updated later, or at the same time with a smaller id |
| MemoryFields.DeletedExactly | internal/services/ops/service.go:195-228 | compaction deletes a record if and only if it is neither pinned nor linked and a newer one of the same namespace, type and source ref is stored |
| MemoryFields.CandidateCount | internal/services/ops/service.go:411-424 | the candidate count is of the records less one per joined text, and without bars of exactly the records that have a newer duplicate |
| Maintenance.CompactionOnce | internal/services/ops/service.go:195-228 | a second compaction deletes nothing |
| Maintenance.CandidatesBound | internal/services/ops/service.go:411-424 | the candidate count exceeds what compaction deletes by exactly the protected old records plus the groups the joined key merges; equality if and only if there are neither |
| Maintenance.JoinedKeyTellsApart | internal/services/ops/service.go:411-424 | the joined key tells groups apart when neither namespace nor type contains a bar |
| Maintenance.CandidatesExact | internal/services/ops/service.go:411-424 | without such bars the count is exact if and only if no record that is not newest is protected |
| Maintenance.PreservationFixpoint | internal/services/ops/service.go:230-252 | after preservation every replay record is linked, replay_preserve and at least 70 stable, and a second run updates nothing |
| Maintenance.ReadMayUndercut | internal/domain/memory/models.go:237-243 | a recalling read keeps a preserved record at 70 if and only if its recomputed score reaches 70 |
| Maintenance.ReadUndercutsLowImportance | internal/domain/memory/models.go:237-243 | a concrete preserved record that a first read takes to 30 |
| Maintenance.JobCounts | internal/services/ops/service.go:163-252 | a job leaves untouched records alone, and the record count drops by exactly what it reports as deleted |
| MemoryRuns.StepEffect | internal/services/ops/service.go:163-252 | all that one step can do to one record, and why |
| MemoryRuns.RunKeeps | internal/services/ops/service.go:137-252 | every run keeps every record readable as a valid one, and idempotency keys unique |
| MemoryRuns.RecordsAccountedFor | internal/services/ops/service.go:163-252 | over a run the record count changes by creations less reported deletions |
| MemoryRuns.ProtectedSurvives | internal/services/ops/service.go:178-252 | once a record reads as pinned or replay-linked no run removes it or clears that |
| MemoryRuns.ReplayIsProtected | internal/platform/store/file_store.go:330-332 | every replay case and replay_preserve record reads as replay-linked |
| MemoryRuns.PreservedOnlyCompacted | internal/services/ops/service.go:195-228 | a record with a preserving policy is removed by compaction or not at all |
| MemoryRuns.FullyPreservedStays | internal/services/ops/service.go:163-252 | what preservation established stays through every run without a read of that record |
| MemoryRuns.DecaySpacing | internal/services/ops/service.go:163-176 | two decays of a record in one run are at least 12 hours apart, 24 if not session retained, whatever happens between, while its 64-bit window reaches that far |
| MemoryRuns.SpacingExact | internal/services/ops/service.go:163-176 | some run decays a just decayed record again too early if and only if the record is early due |
| MemoryRuns.ExtendsMore | internal/services/memory/service.go:60-117 | runs compose, so calls one after the other are one run |
| MemoryRuns.CreationsAreFrom | internal/services/memory/service.go:76-86 | every creation of a batch is of one of its inputs |
| MemoryHistory.Run | internal/services/ops/service.go:137-161 | any sequence of calls on the memory and maintenance services is a run whose steps are, call by call, those the calls ask for; so counts are accounted for, keys stay unique, protected records survive, preserving records go only if compaction was called, preserved ones stay unless read, and decays are spaced |
| MemoryHistory.StepsAreAsked | internal/services/ops/service.go:137-161 | no job, read or creation takes place that no call asked for |
| MemoryHistory.RunOutcome | internal/services/ops/service.go:137-252 | what is proved of runs, stated of any sequence of calls |
| Ops.Service.NamespaceSummaries | internal/services/ops/service.go:50-79 | one summary per namespace of the matching records, sorted, each describing exactly its group |
| Ops.Service.ClawbotSummaries | internal/services/ops/service.go:81-109 | one summary per slash-joined clawbot key, sorted, each describing exactly its group |
| MemoryFields.NamespaceView | internal/services/ops/service.go:50-79 | one summary per namespace, in order, with the fields of one of its records and counts of exactly its records |
| MemoryFields.ClawbotView | internal/services/ops/service.go:81-109 | one summary per slash-joined project, environment and clawbot, in order, with the fields of one of its records and counts of exactly the records that join to it |
| MemoryFields.ClawbotTriples | internal/services/ops/service.go:81-109 | without slashes in projects and environments these are exactly the records of that project, environment and clawbot |
| Aggregates.Summarize | internal/services/ops/service.go:59-78 | the grouping loop, the averages and the sort give that view |
| Aggregates.SortSummaries | internal/services/ops/service.go:306-332 | whatever the map order, the summaries come out sorted by key with averaged stability |
| Aggregates.DescribesMore | internal/services/ops/service.go:284-304 | adding a record to a summary describes the group with that record |
| Aggregates.ViewTotals | internal/services/ops/service.go:284-343 | over all its summaries a view adds up to exactly the summarized records: totals, pinned, replay-linked, decay-eligible and bytes |
| Aggregates.ViewsAgree | internal/services/ops/service.go:50-109 | the two views agree on every sum, even where the joined key merges clawbots |
| Ops.ViewMatchesList | internal/platform/store/file_store.go:106-167 | a view adds up to the total that listing with the same query reports |
| Aggregates.TypesAddUp | internal/services/ops/service.go:284-304 | the counts per type add up to the total of a summary |
| Aggregates.AverageInside | internal/services/ops/service.go:306-316 | no summary is of nothing, and its average lies between the least and the greatest stability of its group |
| Aggregates.LatestMore | internal/services/ops/service.go:334-343 | the last activity is the latest activity of the group |
| Aggregates.TotalOfParts | internal/services/ops/service.go:50-109 | a sum over everything is the sum over the parts when each record is in exactly one part |

## Left out

- File-system errors, directory creation, paths and JSON text: a stored value is read back as it was written.
- Interleaving of concurrent requests: look-up and write take separate locks in the program; the claims are about calls one after the other.
- The real hash function, hexadecimal and RFC 3339 text: the digest is symbolic, its text in a run export an arbitrary function of it, and an instant stands for its text.
- HTTP handlers, configuration, start-up, bootstrap seeding (`CreateSeed`) and the replay and trust services.
- The store's global summary (file_store.go, `Summary`): counting of the kind shown for the overview and the aggregate views.
- Job durations and error texts.
- Record sizes in bytes: the length of a record's JSON text is an arbitrary function of the record.
- White space and letters beyond ASCII.
- 64-bit overflow of the recall and reference counters themselves; that of the decay window is modelled.
- The single-class reads (`FetchPriorCycleSummaries` and its siblings): thin wrappers around the listing that is modelled.
- MemoryRuns.FullyPreservedStays: excludes reads of the record itself, because a read can lower its score; ReadMayUndercut says exactly when.
- MemoryRuns.DecaySpacing: supposes that the 64-bit window reaches the gap at the second decay, because the code does not space decays otherwise; SpacingExact says exactly when, and below the bound of CountsThatFit it always does.
- SnapshotChain.CycleChain: supposes creation times that strictly increase within the cycle; ChainGrowsExact says what happens at ties.
- Ops.Service.RunJob: supposes that every stored record reads as a valid one; a record that does not would make a job stop where the program stops.
