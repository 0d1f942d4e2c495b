# Verified model of the print proxy's cores

A Dafny model of five parts of the proxy that keep state or rewrite data, with proofs of what each
promises. `dafny verify dfyconfig.toml` checks everything.

**Raster translation.** Apple raster (URF) comes in as a stream and leaves as PWG Raster
(PWG 5102.4-2012, section 4). Packets are copied, not decoded, and headers are patched backwards at
the end. `RasterReaders` holds two readers that know nothing of the translator; `UrfTranslation`
describes the translation as functions of the whole source; `UrfFidelity` relates the two;
`UrfEnvironment`, `UrfSourceReader` and `UrfTranslator` are the imperative program, with a source
that splits reads, a destination that splits writes and honours seeks, faults and cancellation.
`PacketEncoder` is the run-length printer of the same packets.

**Accounting.** `JobSnapshots` merges snapshots of a job, and `SnapshotMerging` says what that amounts
to field by field; `JobRollups` keeps daily rollup rows by
adding differences and is compared with a ledger of every job ever registered, folded afresh;
`JobReplay`, `CpuAccounting` and `StatsBatches` cover batches that may be written more than once;
`JobHistories` and `ActionRollups` say what the rows hold from the reports and actions alone;
`Collector` is the writer with its tables, its retries and its retention pass.

**Job registry.** `JobRegistry` is the state machine of a job's row under all requests,
`RegistryHistories` says what a row holds from its requests alone, `Reconciliation` is the paged retry
queue with its doubling delays, `RegistryStore` the store.

**DNS-SD.** `TxtAdmission` fits TXT data into the limits of sections 6.1 and 6.2 of RFC 6763;
`Publications` builds records; `AvahiDaemon` is a daemon whose groups vanish and whose calls fail
with or without effect, and which logs its answers; `AvahiPublisher` updates and rolls back.

**Leases and policy.** `SpanResources` and `SpanTracker` count buffers and temporary files up a tree
of spans, and `SpanHistories` says from a program's steps which leases there are. `JobAttributes`,
`MediaSelection` and `JobNormalizer` take policy-controlled names out of attribute trees and choose the
medium. `Basics`, `Bytes`, `Texts` and `PwgHeader` serve the rest.

The shape is the same throughout: a function says what a step does to the state, a class or method
with the source's fields and loops is proved equal to it, lemmas state what every run keeps, and others
say what the state holds after any run without naming that function.

Where the code does less than it could be taken to promise, the model keeps the code and says when:

- A source that returns a byte beyond the input limit together with an unexpected EOF is taken to
  have ended, and is translated as if that byte were not there (`UrfFidelity.CutIsTranslated`, `UrfFidelity.TinyIsCut`).
- Literal mode of the packet printer holds a row only up to 128 pixels (`PacketEncoder.LiteralFits`).
- Registering a job again after its checkpoint was cleaned up counts it twice, unless its first row is
  out of the window (`JobRollups.RegistrationExactly`); a snapshot that precedes its job's registration changes
  what a replay leaves (`JobReplay.IgnoredFirstIsMergedLater`). An intermediate snapshot may stay in
  a rollup row whose day falls out of retention during a replay (`JobReplay.IntermediateStays`).
- An action that is written again after its detail was dropped counts twice
  (`ActionRollups.CountedOnceExactly`).
- `Reserve` keeps a caller's terminal time, and a mapping without an upstream id erases the stored
  one (`JobRegistry.ReserveKeepsTerminalTime`, `JobRegistry.MappingIsWrittenOnce`); a terminal row
  in unusual spelling is not cleaned up until it is respelled (`JobRegistry.OddSpellingIsNeverDeleted`).
- `UpdateState` to "uncertain" keeps an old retry time, so it can overtake a waiting row
  (`Reconciliation.UncertainOvertakes`); `Reconciliation.Overtakes` is the exact case.
- A pass takes one page for all queues and skips the rows of printers that do not answer. A page of
  such rows keeps every later row from its turn; `Reconciliation.TurnExactly` is the exact case.
- A comment in `publisher_avahi.go` (480-482) says that a partially restored group is never retained.
  It is, exactly when an update and its rollback both fail and no answer, to freeing it or to asking for
  its state, tells that the group is gone (`AvahiPublisher.Publisher.Refresh`,
  `AvahiPublisher.PartialGroupCanStay`); the next successful update ends that state.
- TXT admission is not stable under the profiles it leaves, in two cases: a withdrawal for size drops
  spare keys that would fit afterwards, and urf without pdl is published for a queue without AirPrint
  (`TxtAdmission.StableOtherwise`, with the exact conditions and examples beside it).
- Resource totals are sums exactly while these stay within 64 bits (`SpanResources.BalancedRuns`,
  `SpanResources.SaturationForgets`).

## Model

| member | source | states |
|---|---|---|
| `UrfTranslator.Translate` | internal/urf/translate.go:41-137 | success means the destination holds, rewound, the finished document of the source; every content that ever starts with `RaS2` is that document; without a fault the outcome, errors included, is a function of the source bytes, however reads and writes were split. Only a source of one byte more than the limit can be cut, by a faulty reader: then the same holds of it without that byte |
| `UrfFidelity.Fidelity` | internal/urf/translate.go:310-346 | after a successful translation a PWG reader accepts the output and finds the pages, sizes, pixels, resolution, duplex and tumble settings that a URF reader finds in the whole source, and every header announces that number of pages |
| `UrfFidelity.FinishedReadsAlike` | internal/urf/translate.go:573-606 | the same for any destination content that a run may finish with, together with the byte counts of the result |
| `UrfFidelity.TranslatedExactly` | internal/urf/translate.go:310-346 | a translation succeeds if and only if the source is within the limits, has a valid file header and at least one page, and every page passes its checks and decodes within the output limit |
| `UrfFidelity.InputLimit` | internal/urf/translate.go:919-981 | a source of exactly the limit is translated as if there were no limit; one byte more is never accepted |
| `UrfFidelity.ByteCounts` | internal/urf/translate.go:422-439 | output = 4 + 1796 P + packets and input = 12 + 32 P + packets + s with 0 <= s < 32; the decoded sizes sum to at most the configured maximum |
| `UrfFidelity.CopyPagesFaithful` | internal/urf/translate.go:310-346 | every page the translator copies is one the URF reader decodes, at the place where the reader finds it |
| `UrfFidelity.CopyRowsExact` | internal/urf/translate.go:636-654 | copying the row groups of a page succeeds exactly when they decode and the output has room, and moves to where decoding ends |
| `UrfFidelity.CopyRowsKind` | internal/urf/translate.go:636-714 | a page whose packets cannot be copied ran out of bytes, or out of room in the output; out of room if the URF reader can decode it |
| `UrfFidelity.CopyRowExact` | internal/urf/translate.go:655-705 | copying the packets of one line stops exactly where decoding the line stops |
| `UrfFidelity.CopyPacketExact` | internal/urf/translate.go:655-705 | literal, run and clear-to-end packets are copied with the length the packet grammar gives them, clipped at the row end |
| `UrfFidelity.RowsLength` | internal/urf/translate.go:636-714 | the decoded rows of a page are full: rows times width times bytes per pixel, so a remainder below one pixel never occurs |
| `UrfFidelity.ProductsFit` | internal/urf/translate.go:987-1004 | no product of header fields overflows 64 bits |
| `UrfFidelity.DocumentReads` | internal/urf/translate.go:521-606 | the emitted page headers and bodies are read back page by page with the final page count |
| `PwgHeader.HeaderReads` | internal/urf/translate.go:521-606 | the 1796 header bytes written for a page are read back as its colour, width, height, line length and page count |
| `PwgHeader.HeaderPatch` | internal/urf/translate.go:793-815 | patching four bytes at the page-count offset gives exactly the header with that count |
| `PwgHeader.FrameWord` | internal/urf/translate.go:521-606 | every word of a header is read back at its own byte offset |
| `PwgHeader.SheetFields` | internal/urf/translate.go:533-567 | page size, imaging box and floating page size are those of the medium, turned for a landscape page |
| `PwgHeader.PolicyFields` | internal/urf/translate.go:529-593 | duplex, tumble, resolution, source, quality and image box are those of the queue and the page |
| `PwgHeader.TransformFields` | internal/urf/translate.go:609-634 | only back sides of duplex documents are mirrored, along the axes that sides and sheet-back ask for |
| `PwgHeader.TextFields` | internal/urf/translate.go:521-606 | the text fields of a header stand at their own offsets |
| `UrfTranslation.PatchBody` | internal/urf/translate.go:793-815 | patching one page count changes that page header and nothing else of the document |
| `UrfTranslation.PatchMarker` | internal/urf/translate.go:816-843 | the marker patch after all page counts completes the document |
| `UrfFidelity.MediaPixelsExactly` | internal/urf/translate.go:504-519 | the media size in whole pixels, refused exactly when a side is empty or passes 32 bits |
| `UrfTranslation.CheckedMul` | internal/urf/translate.go:987-992 | a product, or nothing when it passes 64 bits |
| `UrfFidelity.CheckPageExactly` | internal/urf/translate.go:392-469 | a page header is accepted if and only if, in plain arithmetic, it has the mapping's format, the queue's resolution and sides, the medium's size in one orientation, and sizes within every limit; the result holds its fields and the new running total, and every rejected header gets the one error its first failing check calls for |
| `UrfFidelity.OptionsExactly` | internal/urf/translate.go:139-224 | a call is refused for its options exactly if the mapping, a limit, a media string or size, the resolution, sides, sheet-back or quality is not acceptable |
| `UrfFidelity.FileKinds` | internal/urf/translate.go:41-137 | why nothing at all is emitted: no room for the marker, a short or foreign file header, or no page |
| `UrfFidelity.PageKind` | internal/urf/translate.go:330-346 | why a page that passes its checks is not emitted: no room for its header, or its packets lack room or bytes: room if the URF reader can decode them, bytes if all that are left would fit |
| `UrfFidelity.OptionsBind` | internal/urf/translate.go:41-137 | the options of a call bind it: the mapping decides the format, and sizes, pages and totals stay within the limits given, or within the default where none is given |
| `UrfSourceReader.SourceReader.Read` | internal/urf/translate.go:919-981 | bytes move the count; the end is reported only when the source was handed over whole, or is cut exactly at the limit; the limit only when a further byte exists |
| `UrfSourceReader.SourceReader.Probe` | internal/urf/translate.go:919-981 | at the limit one more byte is asked for; the end is reported with a further byte left exactly when the source is cut: when one byte came together with an unexpected EOF |
| `UrfFidelity.CutIsTranslated` | internal/urf/translate.go:919-981 | a source of one byte more than the limit must be refused; cut, it is translated exactly when it is acceptable without that byte |
| `UrfFidelity.TinyIsCut` | internal/urf/translate.go:919-981 | such a source: one page of one gray pixel, 47 bytes under a limit of 47, and any byte more |
| `UrfTranslator.Translator.ReadFull` | internal/urf/translate.go:736-760 | fills the buffer with the next source bytes or reports why it could not |
| `UrfTranslator.Translator.Write` | internal/urf/translate.go:762-791 | appends all bytes or fails; what a destination accepted is a prefix |
| `UrfTranslator.Translator.CopyBytes` | internal/urf/translate.go:716-734 | copies n bytes through the scratch buffer, whatever its chunks are |
| `UrfTranslator.Translator.CopyPacket` | internal/urf/translate.go:655-705 | one packet is copied as the functional description says, with its errors |
| `UrfTranslator.Translator.CopyPageData` | internal/urf/translate.go:636-714 | all row groups of a page are copied as the functional description says, with its errors |
| `UrfTranslator.Translator.ReadHeader` | internal/urf/translate.go:348-374 | a page header, or a suffix shorter than one at the end of the source |
| `UrfTranslator.Translator.EmitPageHeader` | internal/urf/translate.go:521-606 | the provisional header of a page is appended and its page-count offset remembered |
| `UrfTranslator.Translator.TranslatePages` | internal/urf/translate.go:310-346 | the page loop equals the functional description on every source, and leaves no marker in the destination |
| `UrfTranslator.Translator.SeekWrite` | internal/urf/translate.go:845-879 | bytes are overwritten in place; every content on the way is the old one with part of them |
| `UrfTranslator.Translator.Finalize` | internal/urf/translate.go:793-843 | page counts first, then the marker; if it succeeds the destination is the finished document, rewound, and no other marked content ever existed |
| `UrfTranslator.Translator.Run` | internal/urf/translate.go:41-137 | a whole run against the functional description, with the destination log |
| `PacketEncoder.PrintedReads` | internal/urf/testdata/cmd/generate/main.go:324-364 | reading is the inverse of printing for every sequence of valid packets |
| `PacketEncoder.EncodeRuns` | internal/urf/testdata/cmd/generate/main.go:338-364 | for every row of any width the printed runs decode to exactly the row, single-pixel literals that wrap to 0 and runs split at 128 included; no literal holds two equal neighbours |
| `PacketEncoder.EncodeSolid` | internal/urf/testdata/cmd/generate/main.go:326-337 | solid mode decodes to the first pixel repeated, hence to the row exactly when the row is uniform |
| `PacketEncoder.LiteralFits` | internal/urf/testdata/cmd/generate/main.go:363-363 | one literal packet round-trips every row of a width if and only if the width is at most 128 |
| `PacketEncoder.EncodePixels` | internal/urf/testdata/cmd/generate/main.go:324-364 | every legible mode decodes to what the line shows: the pixels, or in solid mode the first one repeated |
| `PacketEncoder.EncodeRows` | internal/urf/testdata/cmd/generate/main.go:302-322 | for all lines of legible modes the printed page decodes to what they show, with the repeat count cut to a byte; these are the lines themselves if and only if every line fits its mode and repeats 1 to 256 times |
| `PacketEncoder.RunLength` | internal/urf/testdata/cmd/generate/main.go:341-345 | the longest run of equal pixels up to 128 |
| `JobRollups.RollupsAreFolds` | internal/stats/jobs.go:122-194 | after any run with a monotone clock and one registration per key, every retained cell of both rollup tables is the fresh fold (sum, or maximum) over the latest snapshot of every job ever registered, also after its checkpoint was cleaned up |
| `JobRollups.RunReachable` | internal/stats/jobs.go:122-233 | every step of every such run keeps tables and ledger in agreement |
| `JobRollups.PersistAgrees` | internal/stats/jobs.go:122-233 | one job transaction keeps checkpoints, rollups and settings histogram equal to the ledger |
| `JobRollups.CleanAgrees` | internal/stats/maintenance.go:39-101 | the retention pass keeps that agreement |
| `JobRollups.RowBumped` | internal/stats/jobs.go:150-194 | adding the difference of two contributions to a row gives the fold with the new snapshot |
| `JobRollups.FoldChange` | internal/stats/jobs.go:150-182 | replacing one job snapshot moves the fold by the difference of its contributions, or raises the maximum |
| `JobRollups.RowConserves` | internal/stats/jobs.go:95-119 | in every reachable state the outcome columns of a row sum to its job count, no settings cell is negative, and the settings cells sum to the same number |
| `JobRollups.OutcomeSettled` | internal/stats/jobs.go:37-66 | over any run a job whose observed state is terminal never changes outcome again |
| `JobRollups.RegisteredAgainCountsTwice` | internal/stats/jobs.go:131-143 | registering a job again after its checkpoint was dropped leaves the row of its first registration one job too high, whichever row it goes into now |
| `JobRollups.RegistrationExactly` | internal/stats/jobs.go:122-233 | one more snapshot leaves every retained cell the fresh fold if and only if it does not register a job again whose checkpoint was dropped, or the row of that job is out of the window |
| `JobHistories.CellsFromReports` | internal/stats/jobs.go:122-233 | after any run every retained cell is its column over the jobs whose reports were heard: each job once, with what all its reports since registration and before its checkpoint was dropped amount to |
| `JobHistories.LedgerFromReports` | internal/stats/jobs.go:122-143 | which reports are heard: none before the registration, and none after a retention pass that came when the job was settled and not reported for longer than details are kept |
| `JobHistories.CounterColumns` | internal/stats/jobs.go:95-98 | a row counts its jobs and adds up documents, copies and payload bytes over them |
| `JobHistories.OutcomeColumns` | internal/stats/jobs.go:37-48 | each job counts under the end its printer reported; otherwise, if it failed or was rejected here, under failed when it had been accepted and under rejected when not; otherwise it is unresolved |
| `JobHistories.MeasureColumns` | internal/stats/jobs.go:99-108 | each measurement is added up where it is known, and it is counted how often that is |
| `JobHistories.TimeColumns` | internal/stats/jobs.go:109-118 | times until processing and until the end: how often known and not before the submission, their sum and the largest |
| `JobHistories.SettingColumn` | internal/stats/jobs.go:256-261 | a cell of the settings table counts the jobs of the row with these settings |
| `JobSnapshots.NextKeepsRow` | internal/stats/jobs.go:50-66 | a merge never moves a job to another row and never lowers its largest times |
| `JobSnapshots.OneOutcome` | internal/stats/jobs.go:37-48 | every job counts under exactly one outcome |
| `JobSnapshots.TerminalOutcomeStays` | internal/stats/jobs.go:50-66 | merging any number of later snapshots keeps a terminal observation and its outcome |
| `JobSnapshots.ChasesStep` | internal/stats/jobs.go:50-93 | the merge is stable under equal timestamps and pinned observations: a replay that chases a first pass stays on its way |
| `SnapshotMerging.MergedCounters` | internal/stats/jobs.go:50-82 | after merging any run of snapshots every counter is the largest reported, every flag is set if any set it, and the update time is the newest |
| `SnapshotMerging.MergedMeasures` | internal/stats/jobs.go:20-28 | every measurement is the largest ever known and not negative |
| `SnapshotMerging.MergedPhases` | internal/stats/jobs.go:73-78 | phase times are the first known |
| `SnapshotMerging.MergedRoutes` | internal/stats/jobs.go:85-91 | formats and route are the first given, each from its own field |
| `SnapshotMerging.MergedRequests` | internal/stats/jobs.go:85-91 | requested colour, sides and media are the first given |
| `SnapshotMerging.MergedEffects` | internal/stats/jobs.go:85-91 | effective colour, sides and media are the first given |
| `SnapshotMerging.MergedStates` | internal/stats/jobs.go:55-69 | state and reasons are those of the latest snapshot that was the newest when it came and said anything |
| `SnapshotMerging.MergedObserved` | internal/stats/jobs.go:63-66 | the observed state is the first terminal one said by a snapshot that was the newest when it came; if there is none, that of the latest such snapshot that said anything |
| `SnapshotMerging.MergedIdentity` | internal/stats/jobs.go:50-54 | registry, job, queue, user and submission stay as first reported |
| `JobReplay.BatchReplays` | internal/stats/collector.go:392-443 | replaying a whole batch leaves checkpoints and details exactly as one application left them, and every rollup and settings cell whose day does not fall out of retention between the first and the last instant of the replay, if each registering snapshot precedes its other snapshots |
| `JobReplay.IntermediateStays` | internal/stats/collector.go:392-443 | why the window matters: when a day falls out of it between two snapshots of a replay, the row goes back to an intermediate outcome |
| `JobReplay.CheckpointsReplay` | internal/stats/jobs.go:50-93 | the checkpoints reached by a batch are a fixed point of the batch |
| `JobReplay.ReplayCatchesUp` | internal/stats/jobs.go:50-93 | however far the first pass has come, the replay of the rest ends where it ends |
| `JobReplay.AbsorbedStays` | internal/stats/collector.go:392-443 | a batch already written changes no cell of a day that stays inside or outside the window, however often and whenever it is written again |
| `JobReplay.BatchMirrors` | internal/stats/jobs.go:215-233 | after a batch the detail row of every stored job it mentions equals its checkpoint |
| `JobReplay.IgnoredFirstIsMergedLater` | internal/stats/jobs.go:131-143 | a snapshot that precedes its registration is ignored once and merged by the replay, so the order is needed |
| `CpuAccounting.CpuConserved` | internal/stats/collector.go:502-555 | for all interleavings of late, repeated and decreasing readings, all time added to days equals the growth of every run from its first to its current cursor; a retained day has a row exactly if something was added to it, and the row holds exactly that |
| `CpuAccounting.CursorsMonotone` | internal/stats/collector.go:502-555 | cursors never go back, in time or in either counter |
| `CpuAccounting.SampleAccounted` | internal/stats/collector.go:502-555 | one reading keeps that balance |
| `CpuAccounting.CpuFromReadings` | internal/stats/collector.go:502-555 | after any run the cursor of every run of the program is its newest reading that went forward in time and in both counters, every sample on record is the first of its instant, and every retained day holds the number and the sum of the steps forward taken on it |
| `StatsBatches.BatchSettles` | internal/stats/collector.go:445-555 | every action and reading of a written batch is settled |
| `StatsBatches.SettledBatchIsIgnored` | internal/stats/collector.go:445-555 | a settled batch changes neither action, buffer nor CPU tables |
| `StatsBatches.LaterAttempt` | internal/stats/collector.go:392-443 | a further attempt after one that took effect changes nothing, except for days that fall out of the window during it |
| `ActionRollups.RowsAreSums` | internal/stats/collector.go:472-500 | after any run of writes and retention passes every retained action row is, column by column, the sum or the maximum over the actions that entered it, and every retained buffer row the number and the maximum of the peaks; there is a row exactly if something entered it |
| `ActionRollups.CountedOnceExactly` | internal/stats/collector.go:455-474 | the rows count every action ever written exactly once if and only if none is written again after its detail was dropped |
| `ActionRollups.BatchEnters` | internal/stats/collector.go:408-443 | a batch enters exactly its actions, in order |
| `CollectorWriter.Collector.PersistJob` | internal/stats/jobs.go:122-233 | the job transaction equals its function on the tables; what they then hold is `JobHistories.CellsFromReports` |
| `CollectorWriter.Collector.PersistAction` | internal/stats/collector.go:445-500 | the action transaction equals its function, whatever order the components come in; what the rows then hold is `ActionRollups.RowsAreSums` |
| `CollectorWriter.Collector.PersistCpu` | internal/stats/collector.go:502-555 | the CPU transaction equals its function |
| `CollectorWriter.Collector.WriteBatch` | internal/stats/collector.go:408-443 | one transaction: every event applied at the time it is written, or nothing; a lost commit took effect |
| `CollectorWriter.Collector.WriteBatchWithRetry` | internal/stats/collector.go:392-406 | if the writer reports success, everything is as one application left it, however many attempts took effect, except for days that fell out of the window since; otherwise the tables are as before or as after one application in that sense; actions and readings enter the books once |
| `CollectorWriter.Collector.Cleanup` | internal/stats/maintenance.go:39-101 | the retention pass over all tables, and the agreement with the ledger and with everything ever written that survives it |
| `CollectorWriter.CheckpointRetention` | internal/stats/maintenance.go:56-68 | a checkpoint goes exactly if its job is settled and its last report is older than details are kept |
| `CollectorWriter.RowRetention` | internal/stats/maintenance.go:75-90 | job and setting rows go exactly when their whole day is out of the window, and setting rows also when their count is zero |
| `JobRegistry.RegistryPromises` | internal/store/store.go:667-1147 | over all runs of requests: a terminal row stays terminal since the same instant, terminal_at is set exactly on terminal rows, they wait for no reconciliation, a mapping is written once, and no two rows of a queue share an upstream id |
| `JobRegistry.RunSound` | internal/store/store.go:667-1147 | every run keeps the registry sound and every row on its way, and never reuses an id |
| `JobRegistry.ServeSound` | internal/store/store.go:667-1147 | every admissible request does |
| `JobRegistry.TestsOrdered` | internal/store/store.go:89-96 | the three spellings of the terminal test, in Go, in the SQL guards and in the retention query, imply one another in that order |
| `JobRegistry.GuardedRow` | internal/store/store.go:1036-1045 | on sound rows the SQL guard holds exactly when the Go test does |
| `JobRegistry.CleanupDeletes` | internal/store/store.go:1533-1552 | retention deletes exactly the rows that are spelled as the query lists them and ended before the cutoff, all of them terminal |
| `JobRegistry.OddSpellingIsNeverDeleted` | internal/store/store.go:1113-1130 | over any run, whatever its cleanups, a terminal row in a spelling that the retention query does not list stays, until a terminal request respells it |
| `JobRegistry.OddSpellingStays` | internal/store/store.go:1079-1147 | one request keeps such a row oddly spelled if and only if it is not a terminal request with a listed spelling |
| `JobRegistry.CapitalIsOdd` | internal/store/store.go:1113-1130 | a state update to "Completed" leaves such a row |
| `JobRegistry.ReserveKeepsTerminalTime` | internal/store/store.go:667-685 | Reserve does not clear the caller's terminal time: the row is sound if and only if that is empty |
| `JobRegistry.MappingIsWrittenOnce` | internal/store/store.go:895-958 | a mapping stays once written if and only if the new one has an upstream id, or none was stored |
| `JobRegistry.RefusedChangesNothing` | internal/store/store.go:895-1147 | a failed request changes nothing |
| `JobRegistry.PutSound` | internal/store/store.go:895-958 | the duplicate check is what keeps upstream ids of a queue apart |
| `RegistryHistories.RowsFromRequests` | internal/store/store.go:667-1185 | after any run of requests every row says, field by field, what its reservation and the requests accepted for it said: the last mapping, state, observation, error, route and format, sums over its documents, the first end, and between which instants a retry is due; the k-th reservation has the id k |
| `RegistryHistories.AnswersExactly` | internal/store/store.go:731-1185 | every request is refused for exactly one of three reasons, in this order, and answered otherwise: the row is missing, the job is over or waits for no retry, the mapping contradicts another |
| `RegistryHistories.MappingIsStored` | internal/store/store.go:940-957 | after an accepted mapping the row has the upstream id and URI, is mapped, without error and retry times, updated now, and otherwise unchanged |
| `RegistryHistories.MappingLasts` | internal/store/store.go:895-957 | it stays for as long as there is the row, whatever requests follow |
| `RegistryHistories.TerminalExactly` | internal/store/store.go:89-96 | a state is terminal exactly if it is one of seven names, in any case and surrounded by any white space |
| `Reconciliation.TurnComes` | internal/store/store.go:1380-1467 | with n rows ahead of a due uncertain row, at most k of them of queues whose printer may be silent, and k below the page size, it is returned in a round t with t * (limit - k) <= n, however many rows never match and whatever requests come in between that do not overtake it |
| `Reconciliation.TurnNeverComes` | internal/proxy/service.go:344-393 | as long as a full page of rows ahead of it belongs to queues that never answer, a row is never returned |
| `Reconciliation.TurnExactly` | internal/proxy/service.go:344-393 | when the same queues answer in every round, a due row has its turn if and only if fewer rows of the other queues are ahead of it than a page holds |
| `Reconciliation.PassMovesAhead` | internal/store/store.go:1380-1467 | a pass that does not return a due row returns a full page of rows ahead of it; those of queues that answer move behind it, which are all but the stuck ones |
| `Reconciliation.RequestKeepsTurn` | internal/store/store.go:895-1147 | a request on other rows leaves a waiting row alone, and adds nothing ahead of it if and only if it is not a state update to "uncertain" of a row in its queue that was not waiting and kept an older retry time |
| `Reconciliation.UncertainOvertakes` | internal/store/store.go:1113-1147 | a run in which that update puts a row ahead of one that has waited longer |
| `Reconciliation.FirstAreFirst` | internal/store/store.go:1391-1395 | a page lists due rows once each, and a missing due row comes after a full page |
| `Reconciliation.PageExactly` | internal/store/store.go:1380-1413 | a row is on the page exactly when it is uncertain, of the queue and not in backoff, and, under a limit, fewer due rows than that come sooner by retry time and id; the soonest is first |
| `Reconciliation.MarkedRows` | internal/store/store.go:1419-1467 | exactly the marked rows have changed, each by its own attempt, in whatever order they are marked |
| `Reconciliation.DelaysDouble` | internal/store/store.go:1469-1489 | the k-th consecutive delay of a row is min(2^(k-1) minutes, one hour), at whatever times the attempts come |
| `Reconciliation.BackoffBounds` | internal/store/store.go:1469-1489 | every delay is between a minute and an hour |
| `RegistryStore.Store.Reserve` | internal/store/store.go:667-685 | table and reply are those of the request's function; the lifecycle fields are cleared and the caller keeps its times |
| `RegistryStore.Store.MarkMapped` | internal/store/store.go:895-958 | the same; terminal rows, a contradicting mapping and an upstream id taken in the queue are refused, in this order; what is stored is `RegistryHistories.MappingIsStored` |
| `RegistryStore.Store.MarkUncertain` | internal/store/store.go:974-1014 | the same; both retry times become the given instant |
| `RegistryStore.Store.UpdateObserved` | internal/store/store.go:1020-1064 | the same; a terminal observation ends the row |
| `RegistryStore.Store.MarkTerminal` | internal/store/store.go:1079-1109 | the same; the first terminal time stays |
| `RegistryStore.Store.UpdateState` | internal/store/store.go:1113-1147 | the same, guarded against terminal rows |
| `RegistryStore.Store.UpdateDocument` | internal/store/store.go:1152-1185 | the same; sizes and known counts add up |
| `RegistryStore.Store.UpdateRoute` | internal/store/store.go:731-779 | the same, refused for terminal rows; a route that names the client's format overwrites the stored one |
| `RegistryStore.Store.ReconciliationCandidates` | internal/store/store.go:1380-1413 | the page is the first rows of the ordered due rows, as `Reconciliation.PageExactly` says |
| `RegistryStore.Store.MarkReconcileAttempt` | internal/store/store.go:1419-1467 | the same, only for uncertain rows without a terminal time, which get the next delay |
| `RegistryStore.Store.CleanupTerminalBefore` | internal/store/store.go:1533-1552 | the same; rows go by exact spelling and by terminal or update time |
| `RegistryStore.Store.ReconcileUnmatched` | internal/proxy/service.go:344-393 | a pass that finds no match: queue by queue, in any order, exactly the rows of the page whose printer answers are marked, each at its own instant |
| `TxtAdmission.FittedExactly` | internal/dnssd/records.go:207-241 | admission succeeds if and only if the entries keyed rp, txtvers and qtotal fit by themselves; it withdraws a profile exactly when that profile's essentials do not fit; the result is a sub-map within the limits that keeps the essentials, and gains no profile |
| `TxtAdmission.AdmissionExactly` | internal/dnssd/records.go:207-241 | in terms of the given entries alone: when admission fails, which profiles are left, that only given entries are published and that they fit, among them all that the profiles left need |
| `TxtAdmission.FitsBySum` | internal/dnssd/records.go:254-274 | data fits exactly when every key=value entry has at most 255 bytes and all of them, each with a length byte, at most 1300 |
| `TxtAdmission.FitProfileTxt` | internal/dnssd/records.go:207-241 | the loop ends with that result |
| `TxtAdmission.FittedKeeps` | internal/dnssd/records.go:207-241 | while the profiles stay, a key that they do not need is kept if and only if it fits behind what they need and every key before it in the key order |
| `TxtAdmission.AdmittedKeeps` | internal/dnssd/records.go:207-241 | the admitted data key by key, also after withdrawals: what the remaining profiles need, and of what the withdrawal left every key that fits behind it and the keys before |
| `TxtAdmission.FittedDropsFromEnd` | internal/dnssd/records.go:276-295 | no spare key is dropped while a later one in the key order stays |
| `TxtAdmission.WithdrawalLeavesNoSpareKey` | internal/dnssd/records.go:207-241 | a profile is withdrawn for size only after every spare key is gone |
| `TxtAdmission.SecondAdmissionKeepsMore` | internal/dnssd/records.go:207-241 | when AirPrint is withdrawn for size and the rest fits without urf, admitting again for the remaining profiles brings every spare key back |
| `TxtAdmission.StableExactly` | internal/dnssd/records.go:207-252 | admitting again for the profiles that were left changes nothing if and only if the same keys fit both times |
| `TxtAdmission.StableOtherwise` | internal/dnssd/records.go:207-252 | it changes nothing unless a profile was withdrawn for size, or AirPrint is asked for with urf but no pdl |
| `TxtAdmission.StableUrfAlone` | internal/dnssd/records.go:243-252 | with urf but no pdl it changes nothing if and only if neither urf nor, without it, any key behind it fits |
| `TxtAdmission.StableWithdrawn` | internal/dnssd/records.go:207-241 | after a withdrawal that leaves IPP Everywhere it changes nothing if and only if no spare key fits behind the remaining essentials and the keys before it |
| `TxtAdmission.SpareComesBack` | internal/dnssd/records.go:207-241 | after any withdrawal for size a spare key is gone, and comes back if and only if it fits |
| `TxtAdmission.UrfAloneIsDropped` | internal/dnssd/records.go:243-252 | data that fits, with urf but no pdl, is first published with urf and then without |
| `TxtAdmission.NoteComesBack` | internal/dnssd/records.go:207-241 | an overlong pdl costs IPP Everywhere and the note, which then comes back |
| `TxtAdmission.ProfilesForReady` | internal/dnssd/records.go:243-252 | a profile is tried only with its own keys present |
| `TxtAdmission.ValidateLimits` | internal/dnssd/records.go:254-274 | the entry loop accepts exactly the data that fits; the rp error is never reported |
| `TxtAdmission.RpComesFirst` | internal/dnssd/records.go:494-515 | rp is always the first entry and ends within the first 256 bytes |
| `TxtAdmission.TxtKeys` | internal/dnssd/records.go:494-515 | the entries come in key order |
| `TxtAdmission.OptionalKey` | internal/dnssd/records.go:276-295 | the last key in the order that the profiles do not need |
| `TxtAdmission.FewerFit` | internal/dnssd/records.go:254-274 | what fits still fits with fewer entries |
| `Publications.BuildRecords` | internal/dnssd/records.go:98-143 | the records of an input, or none, as `Publications.RecordsExactly` says |
| `Publications.RecordsExactly` | internal/dnssd/records.go:98-205 | an input is refused for the listed reasons only; without profiles also when its TXT data does not fit; otherwise it gets exactly one record for each service: _ipp and the legacy one, the subtypes of the profiles left or without profiles both, and _ipps only without profiles and when asked for; every record has the input's name and host and its port, the legacy one port 0; location and TXT data stand where they belong |
| `Publications.ValidPublishes` | internal/dnssd/records.go:122-143 | once the basic checks pass, size never prevents ordinary publication |
| `Publications.ProfilesOfRecords` | internal/dnssd/records.go:145-161 | the profiles are read back from the records |
| `Publications.RecordsWellFormed` | internal/dnssd/records.go:98-143 | each service appears once, under one name |
| `AvahiPublisher.Publisher.Update` | internal/dnssd/publisher_avahi.go:68-237 | when the status is Published the current publication is the one planned for this input, never empty, in the same group exactly if its structure allows that and otherwise under its first free name; the daemon holds exactly its services, with the TXT admitted for the input, and not the group it replaced; otherwise the publication is the old one, or there is none, exactly if an answer told that the group is gone; where the daemon still has a kept group it holds the old services, unless an update and a rollback both failed |
| `AvahiPublisher.FirstPublished` | internal/dnssd/publisher_avahi.go:68-100 | what an update publishes first: every listed service once, under the name that was found, on the input's host and port, and on the publisher's own host if the input names none |
| `AvahiPublisher.PlannedExactly` | internal/dnssd/publisher_avahi.go:134-152 | what is planned while a publication lives: the same for the place where it lives, with the TXT data and profiles of the second admission |
| `AvahiPublisher.ShownExactly` | internal/dnssd/publisher_avahi.go:211-237 | what is shown are the planned records under the name that was found |
| `AvahiPublisher.CandidateNames` | internal/dnssd/records.go:519-538 | the candidate names are the name itself and then the name with a decimal number in parentheses, from 2 on; all differ |
| `AvahiPublisher.Publisher.UpdateGroupTxt` | internal/dnssd/publisher_avahi.go:452-496 | on success every service has the new TXT and no doubt is left; with at most one failed call the group is kept and no doubt arises; a second one, in the rollback, frees the group, which is given up exactly if that succeeds and is in doubt otherwise |
| `AvahiPublisher.Publisher.Refresh` | internal/dnssd/publisher_avahi.go:170-209 | Published ends all doubt; after a failure the group is given up exactly if an answer told that it is gone, and is in doubt exactly if it is kept and was in doubt before or an update and its rollback both failed |
| `AvahiPublisher.PartialGroupCanStay` | internal/dnssd/publisher_avahi.go:477-490 | that case exists: answers of the daemon after which the group is kept though it holds neither the old nor the new services |
| `AvahiPublisher.Publisher.RollbackTxt` | internal/dnssd/publisher_avahi.go:507-520 | a completed rollback restores every service that was touched, also one whose failed call took effect; it stops at the first failed call |
| `AvahiPublisher.Publisher.Recover` | internal/dnssd/publisher_avahi.go:477-490 | after a failed rollback the group is freed; it is given up exactly if that succeeds, and in doubt exactly otherwise |
| `AvahiPublisher.Publisher.CheckState` | internal/dnssd/publisher_avahi.go:188-205 | the group is asked for, and freed if it is not established; it is given up exactly if an answer tells that it is gone, and kept only if it is established or freeing failed |
| `AvahiPublisher.Publisher.CreateNew` | internal/dnssd/publisher_avahi.go:211-237 | the name is the first candidate that does not collide: the log shows a collision for each one before it; the group holds exactly the renamed records |
| `AvahiPublisher.Publisher.Withdraw` | internal/dnssd/publisher_avahi.go:239-267 | withdrawn means the daemon does not have the group; otherwise the publication is kept, after a cancellation or a failed removal |
| `AvahiPublisher.Publisher.Close` | internal/dnssd/publisher_avahi.go:329-352 | closing fails exactly with the removal of the group; closed, the daemon does not have it, and closing may be repeated |
| `AvahiPublisher.SentAll` | internal/dnssd/publisher_avahi.go:452-496 | sending every TXT-carrying record of the same structure gives exactly the new services, whatever TXT was there |
| `AvahiPublisher.PreviousIsWanted` | internal/dnssd/publisher_avahi.go:507-520 | the previous record of a touched service is the one the current publication shows |
| `SpanResources.TotalsAndPeaks` | internal/stats/resources.go:345-464 | after any run of begin, acquire, resize and release below the 64-bit limit, every total of every span, also of those begun in the run, is the sum of the live leases at and below it, per component too, and every peak is the highest value the total had |
| `SpanResources.ProgramTotals` | internal/stats/resources.go:345-464 | the same for whole programs from the start: every peak is the highest value the total ever had, and all totals are zero when all leases are released |
| `SpanHistories.LeasesFromSteps` | internal/stats/resources.go:296-464 | the leases of a program are exactly those its steps took out: at the span and for the component given, live until released, with the capacity or the last size set, never below zero |
| `SpanHistories.ComponentsInUse` | internal/stats/resources.go:345-464 | in every state of a program no component is listed that holds nothing, and none is listed as used that never held anything |
| `SpanHistories.CoversExactly` | internal/stats/resources.go:345-374 | a lease counts at the spans on the way up from its own, parent by parent |
| `SpanResources.StepBalanced` | internal/stats/resources.go:345-464 | every step below the limit keeps the balance and the peaks |
| `SpanResources.BalancedBelowLimit` | internal/stats/resources.go:345-535 | after a step the totals are the sums of the live leases if and only if these sums fit into 64 bits |
| `SpanResources.BalancedRuns` | internal/stats/resources.go:345-535 | over a whole run the totals stay sums if and only if no sum ever passes the limit |
| `SpanResources.AllReleased` | internal/stats/resources.go:435-464 | when all leases are released, in any order, all totals of all spans are zero |
| `SpanResources.ReleasedOnce` | internal/stats/resources.go:435-464 | releasing again changes nothing |
| `SpanResources.SaturationForgets` | internal/stats/resources.go:521-535 | past the limit the totals are not sums any more: a live lease can be left that no total shows |
| `SpanResources.RaiseCell` | internal/stats/resources.go:345-374 | a lease raises exactly the totals it feeds, and their peaks |
| `SpanTracker.Tracker.Acquire` | internal/stats/resources.go:345-374 | the walk up the parent chain raises exactly the span and those above it, and links the leases |
| `SpanTracker.Tracker.AcquireBuffer` | internal/stats/resources.go:296-301 | a buffer lease as the step says; none for an empty buffer |
| `SpanTracker.Tracker.AcquireTemp` | internal/stats/resources.go:306-314 | a temporary file's lease as the step says |
| `SpanTracker.Tracker.SetSize` | internal/stats/resources.go:378-406 | a new size as the step says, only for live temporary files |
| `SpanTracker.Tracker.Release` | internal/stats/resources.go:435-464 | a release as the step says, once |
| `JobNormalizer.NormalizeJobAttrs` | internal/proxy/normalizer.go:195-247 | the job attributes hold exactly one colour mode, the policy's, and exactly one of media and media-col, from the policy's catalog: the client's medium if and only if the catalog can answer it, else that of the policy's default name or the first; type, source and scaling of the policy; nothing else of a dropped name; no override keeps a controlled name at any depth, and the overrides do exactly what they did besides; all other attributes pass in order |
| `JobNormalizer.PolicyIsEnforced` | internal/proxy/normalizer.go:195-247 | the same as a law over every client input and policy |
| `JobNormalizer.UndecidedPass` | internal/proxy/normalizer.go:195-247 | every attribute that the policy does not decide passes unchanged and in order |
| `JobNormalizer.MediaColReads` | internal/proxy/capabilities.go:1521-1545 | a reader of the policy's media-col finds the selected medium's dimensions and the policy's type and source |
| `JobNormalizer.OverridesSent` | internal/proxy/normalizer.go:249-293 | the overrides that reach the printer do what the client's did, without the controlled names |
| `JobNormalizer.SetInPlace` | internal/proxy/normalizer.go:239-241 | print-scaling takes the place of the first of its name, or the end |
| `JobNormalizer.SelectMedia` | internal/proxy/normalizer.go:341-366 | the medium falls back to the policy's default if and only if there is no resolvable media-col, and no listed media name without a media-col; otherwise it answers the request, and is the preferred instance of the name |
| `JobAttributes.KeptIsClean` | internal/proxy/normalizer.go:312-339 | after dropping, no controlled name is left at any depth |
| `JobAttributes.AllowedSurvive` | internal/proxy/normalizer.go:312-339 | every allowed member, value and collection with its tag survives at its place and in its order, and nothing else |
| `JobAttributes.CleanIsKept` | internal/proxy/normalizer.go:312-339 | a clean tree is left exactly as it is |
| `JobAttributes.SanitizedIsSafe` | internal/proxy/normalizer.go:255-293 | every overrides value forwarded is a clean collection that still changes the job |
| `JobAttributes.EffectiveOverridesStay` | internal/proxy/normalizer.go:270-293 | every override that still does something is forwarded |
| `JobAttributes.OverridesExactly` | internal/proxy/normalizer.go:255-293 | sanitising leaves of the overrides every collection that still does something without the controlled names, in order, with all its allowed members, and nothing else |
| `JobAttributes.OthersPass` | internal/proxy/normalizer.go:255-268 | other attributes pass unchanged and in order |
| `MediaSelection.AcceptedIsUsable` | internal/proxy/protocol.go:394-447 | a media-col that passes the recursive syntax check gives a selector that is not invalid, has both dimensions or neither, and asks for something |
| `MediaSelection.SyntaxExactly` | internal/proxy/protocol.go:394-508 | a media-col passes the check exactly if it is one collection whose members may stand where they stand, no name comes twice, not even inside media-size, and something identifies the medium |
| `MediaSelection.CollectExactly` | internal/proxy/normalizer.go:456-487 | what is collected from a tree of any depth: the texts of all names in order and the dimensions; it is invalid exactly if a name is blank, or a dimension is not one integer or comes twice |
| `MediaSelection.ValidMediaColSyntax` | internal/proxy/protocol.go:394-410 | the check with its shared seen-set equals its function |
| `MediaSelection.SyntaxState.ValidMembers` | internal/proxy/protocol.go:427-472 | the recursion over nested collections equals its function |
| `MediaSelection.MediaColSelector.CollectFrom` | internal/proxy/normalizer.go:456-487 | the selector filled in place equals its function |
| `MediaSelection.ResolveMediaCol` | internal/proxy/normalizer.go:396-454 | resolution succeeds exactly for resolvable selectors; the result is a catalog entry that every supplied name maps to and whose dimensions match up to orientation |
| `MediaSelection.ResolveDimensions` | internal/proxy/normalizer.go:421-437 | the only catalog size of the given dimensions, or none |
| `MediaSelection.BuildCatalog` | internal/proxy/capabilities.go:205-281 | the catalog has all instances in order, and under every policy name the preferred instance of the last name with its key |
| `MediaSelection.Preferred` | internal/proxy/capabilities.go:323-335 | the first instance of the highest preference |

## Left out

- HTTP handling, the upstream client, logging, the command line, configuration, diagnostics and report queries: plumbing over libraries.
- Decoding and encoding of IPP messages: attributes are trees with lower-cased names.
- SQL and schema migration: tables are maps and a transaction is one step.
- Wall-clock text: instants are integers. The store compares RFC 3339 texts whose order below one second is not time order; scheduler results are about instants.
- Real concurrency: every locked section is one step, and no other writer runs between the attempts of one batch.
- The "register" flag inside a stored snapshot, which nothing reads back, and the saturation of very long durations.
- Health counters of the collector other than its error count, and the end-of-run CPU record.
- NaN and infinite CPU counters, and rounding: CPU times are reals.
- Floating-point fields of the PWG page header: their bytes come with the page settings.
- Nil sources and destinations, the operation, page and offset texts of translation errors, and the translator's buffer leases.
- Destinations that report a false end position without failing.
- The three permissive fixture encoders of the fixture generator: fixed byte strings.
- ScheduleReconciliation, MarkReconciled, list queries and summaries of the registry: unguarded or read-only entry points that the request paths do not use.
- Alternate DNS-SD back ends, the polling loop that waits for a group, location parsing, and TXT keys with surrounding blanks or different capitals.
- Span identity fields, action outcomes and the written-bytes counter: they take no part in the totals.
- Disabled resource collection, which hands out no leases.
- The allowlist and fidelity modes around normalisation, and the substitution log.
- How catalog instances are matched with and merged from the printer's media collections: `MediaSelection.BuildCatalog` starts from the instances of each name.
- MediaSelection.BuildCatalog: does not model the matching of printer collections to policy names, the margins or the automatic source, because they do not decide which names the catalog holds.
- AvahiPublisher.Publisher.CreateNew: the removal of a group whose creation failed half-way is part of the daemon's answer.
- CollectorWriter.Collector.WriteBatchWithRetry: no retention pass comes between two attempts of one batch. It could drop a finished checkpoint whose registration is written again, which is the case of `JobRollups.RegistrationExactly`.
