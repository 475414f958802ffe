# Verified model of the console's observation core

The console polls external sources, derives events whose identities are built from content
and an epoch, appends them to a store that ignores an identity it already holds, and shows
projections in which the latest event wins. This Dafny project models that core and proves
that deduplication does not hide what happened, together with the diagnostics and gates that
judge it. `dafny verify dfyconfig.toml` checks everything.

- **The log and its identities** (`EventLog`, `Identities`, `Text`, `Encoding`, `Fnv`, `Bits`,
  `PinnedCause`, `WorkItems`). The store compares identity texts; what the texts and the hashes
  under them determine is proved from the bytes up.
- **One poll** (`Checkpoints`, `SourcePolling`, `Orchestrator`). The stores and the ledger are
  classes whose methods are proved against functions; probe outcomes, lost appends, failed
  loads and failed saves are parameters.
- **Whole runs** (`AvailabilityRuns`, `ItemRuns`, `WorkItemRuns`, `LaneBoard`, `Repolls`,
  `SourceHealth`). Two epoch protocols, one per source and one per work-item, keep the
  projections in step with the last poll in every run.
- **Where the laws stop** (`ExactConditions`, `ColdStarts`, `Limits`, `ItemLimits`). One poll
  from any log and any checkpoint leaves its projection right under an exact condition; the side
  conditions of a legal run make that condition hold for ever, a cold start has room for epochs
  of itself, and runs that break the conditions leave a wrong projection behind.
- **The needs-attention inbox** (`Attention`, `AttentionStream`, `AttentionIngest`,
  `AttentionInbox`, `AttentionLimits`, `AttentionHealth`, `AttentionRuns`). Diff and replay undo
  each other; into the deduplicating store they do so under an exact condition, which over whole
  runs is a condition on what was said of an item before.
- **Around it**: `WriterAudit` (several writers within an hour), `PacedPolling` (the poll loop),
  `JsoncComments` (the configuration reader's comment stripper), `DispatchJournal` (the backward
  journal scan), `SourceTallies`, `CoverageGate`, `ParityGate`, `MenuTree`, and `Ordering`
  for the order in which ordered maps and sets iterate.

A run is legal under side conditions stated step by step in `AvailabilityRuns.Legal` and
`LaneBoard.Legal`: a save may fail only when the checkpoint has nothing new to remember, epochs
have room, other writers use other source names, and each work-item id has one raw spelling.

## Where the code departs from its documentation

- `awaits_scope_override` is part of the work-item record but not of its digest, although the
  digest is documented to make every real edit visible: a change of that flag alone is swallowed
  (`ItemLimits.FlagChangeIsSwallowed`, exact condition `Repolls.BoardShowsTheFlagIff`).
- The observation ledger is keyed by the raw id, the snapshot and the board by the trimmed one;
  two spellings of one id defeat the epochs (`ItemLimits.TwoSpellingsMislead`).
- A swallowed appearance or change is documented as a genuine no-op because its content is on
  record. It is one only if that content is what the inbox shows: an item that reappears with
  its old content, or returns to it, is lost (runs `AttentionLimits.ReappearanceIsLost` and
  `AttentionLimits.ReturnIsLost`, exact condition `AttentionInbox.InboxIsTheSnapshotIff`).
- An attention version is documented to change with the content. An absent and an empty optional
  text differ in the item and not in its version (`Attention.AbsentAndEmptyShareAVersion`, exact
  condition `Attention.VersionIdentifiesContent`).
- The discriminator of an outage's cause is documented as FNV-1a. Its multiplier is one digit
  wider than the prime of that algorithm, which the versions do use (`Fnv.KnownDigests`,
  `PinnedCause.CauseIsPinned`); nothing proved of it needs the prime.
- The wait before a poll is documented to be zero also for a reading before the last finish. It
  is then a whole cadence (`PacedPolling.SteppedBackClockWaits`, exact condition
  `PacedPolling.WaitEndsTheWindow`).
- A record is re-stamped with its instance's name on the ground that its id is unique across
  instances. Where it is not, the second instance's append fails on every poll and is named as
  skipped (`Limits.RestampedRecordIsRefused`).
- Causes A, B, A within one outage leave B as the newest stored reason
  (`Limits.RecurringCauseIsSwallowed`, exact condition `Limits.NewestCauseIff`).
- A line comment's newline is kept so that line numbers of a parse error still match the file;
  a block comment over several lines breaks that (`JsoncComments.BlockCommentMovesLines`, exact
  condition `JsoncComments.LinesSurviveIff`).

## Model

| member | source | states |
|---|---|---|
| `AvailabilityRuns.ProjectionAgreesWithTheLastPoll` | crates/console-application/src/source_adapters.rs:304-335 | The main availability law. In every run of polls, with arbitrary probe outcomes, arbitrary lost appends and other writers in between, after any poll whose marker was accepted (inserted or duplicate) the newest health-bearing event of the source says observed exactly when that poll observed it |
| `AvailabilityRuns.MarkersStayInOrder` | crates/console-application/src/source_adapters.rs:2106-2129 | Over every such run: marker epochs in the log never decrease, each epoch has one state, and none is above the checkpoint's |
| `AvailabilityRuns.RunKeepsInv` | crates/console-application/src/source_adapters.rs:304-335 | The invariant behind both laws is kept by every legal run |
| `AvailabilityRuns.ColdStart` | crates/console-application/src/source_adapters.rs:2060-2063 | A log without events of the source and no checkpoint is a legal start |
| `AvailabilityRuns.FailedSaveIsSafeIff` | crates/console-application/src/source_adapters.rs:327 | Which failed checkpoint saves matter: after an accepted marker an unsaved checkpoint keeps the invariant if and only if the checkpoint, which a first poll does not have, already said what the poll reported |
| `AvailabilityRuns.EpochsGrowSlowly` | crates/console-application/src/source_adapters.rs:2113-2117 | From a cold start an epoch is at most the number of steps |
| `AvailabilityRuns.PollEndsInItsMarker` | crates/console-application/src/source_adapters.rs:2509-2622 | Whatever a normalizer returns, a poll ends in the marker of the state it reports, at the epoch its checkpoint stores, and a poll that did not observe offers nothing else |
| `AvailabilityRuns.PollShape` | crates/console-application/src/source_adapters.rs:2541-2593 | What a poll offers before its marker says nothing against the source and cannot be taken for a marker |
| `AvailabilityRuns.PollOffersEveryRecord` | crates/console-application/src/source_adapters.rs:2509-2622 | For every adapter, previous checkpoint, probe and normalizer: a poll that brings records offers each of them in order, under the name of the instance it was seen at, then its marker, and leaves the position the normalizer reached; any other poll offers its marker alone and carries whatever position the source had, or its cold-start word where there was none |
| `AvailabilityRuns.AcceptedRecordsAreStored` | crates/console-application/src/source_adapters.rs:2586-2592 | Whatever the log and the checkpoint held, every record a turn's normalizer returned has its row afterwards, under the name of its instance, unless the store refused just that record |
| `SourcePolling.InstancesAreTold` | crates/console-application/src/source_adapters.rs:125-155 | Instances of a kind have equal names exactly when they trim alike, a blank one counting as the sole instance |
| `Limits.RestampedRecordIsRefused` | crates/console-application/src/source_adapters.rs:1759-1770 | Re-stamping moves an event's source and not its ids: a record stored under one instance's name is accepted under another's only if it is there already, and otherwise its append fails |
| `AvailabilityRuns.PollLeavesItsReport` | crates/console-application/src/source_adapters.rs:2466-2507 | Whatever a normalizer returns, the envelope a poll leaves behind decodes to what the poll reported |
| `AvailabilityRuns.TakeTurn` | crates/console-application/src/source_adapters.rs:304-335 | One turn of the run relation is one call of the imperative driver on the two stores, and it leaves other adapters' checkpoints alone |
| `SourcePolling.RunAdapterPoll` | crates/console-application/src/source_adapters.rs:304-335 | The driver fails exactly when an argument or the stored checkpoint is blank or a checkpoint port fails, the first of these deciding the error; lost appends fail nothing, and a call that never polls changes nothing. An error-free summary has the trimmed id, what was loaded, what is now stored, the number of offered events the store accepted, and the ids of the refused ones in their order |
| `SourcePolling.OfferEvents` | crates/console-application/src/source_adapters.rs:319-326 | The append loop: the count is of the accepted events, the refused ones are named at strictly increasing positions and no others are, and every event is offered to the log the earlier ones left |
| `SourcePolling.OfferedInTurn` | crates/console-application/src/source_adapters.rs:319-326 | Each event meets the log the earlier ones left, and leaves it with one append |
| `SourcePolling.CheckpointStore.Save` | crates/console-eventstore/src/lib.rs:1097-1114 | A save replaces one adapter's checkpoint or, on failure, nothing |
| `SourceHealth.OrchestratorEmitsData` | crates/console-application/src/source_adapters.rs:3061-3188 | Whatever its repository and ids contain, nothing the orchestrator normalizer emits can be taken for a marker, so the availability law applies to it |
| `SourceHealth.SameRun` | crates/console-application/src/source_adapters.rs:3061-3188 | A run of the orchestrator adapter is a run of the generic adapter, so both laws hold on one run |
| `SourceHealth.RecordIsDataIff` | crates/console-application/src/source_adapters.rs:1901-2020 | A record of another source is data exactly when its identity tail is no marker's |
| `SourceHealth.SpecRecordIsData` | crates/console-application/src/source_adapters.rs:1921-1926 | Spec records never collide with a marker identity |
| `SourceHealth.PullRequestRecordIsData` | crates/console-application/src/source_adapters.rs:2012-2017 | Pull-request records never collide with a marker identity |
| `SourceHealth.ReconcilerRecordIsData` | crates/console-application/src/source_adapters.rs:3755-3777 | Reconciler records never collide with a marker identity |
| `SourceHealth.DispatchRecordIsDataIff` | crates/console-application/src/source_adapters.rs:1955-1991 | Dispatch and run records collide with a marker in exactly one shape: work-item `not_observed`, a decimal dispatch or run id, and a version of sixteen digits |
| `LaneBoard.BoardShowsTheLastRecord` | crates/console-application/src/source_adapters.rs:847-876 | The main lane-board law. In every run, through A-B-A re-entry, items that leave and return, repeated ids in one array, outages, idle polls and lost appends, after any poll whose snapshot of an item's last record was accepted the board holds that record: always at its version, and equal on every hashed field unless the two records collide under the hash |
| `LaneBoard.BoardShowsTheRawRecord` | crates/console-application/src/source_adapters.rs:3075-3181 | The lane-board law on what the source sent: after any turn of any run, the board's row for the last accepted record of an id has its given fields verbatim, a missing rank as `~`, a missing status as empty, a null admission as manual and a null acceptance as ai-then-human, but for the scope-override flag and a collision of the two records |
| `LaneBoard.RunKeepsInv` | crates/console-application/src/source_adapters.rs:3092-3187 | The item invariant is kept by every legal run, and checkpoints stay readable |
| `LaneBoard.ColdStart` | crates/console-application/src/source_adapters.rs:1009-1017 | A log without snapshots and no checkpoint is a legal start |
| `Repolls.RepollingChangesNothing` | crates/console-application/src/source_adapters.rs:1019-1033 | After a saved poll without repeated ids that lost nothing, polling the unchanged payload again leaves log and checkpoint exactly as they are, whatever the second poll loses |
| `Repolls.BoardShowsTheFlagIff` | crates/console-application/src/source_adapters.rs:707-741 | `awaits_scope_override` is not hashed: the board shows the whole last record, flag included, if and only if the offered identity was new to the log or is stored with the same flag |
| `WorkItemRuns.LedgerIsTheFold` | crates/console-application/src/source_adapters.rs:2131-2135 | In every run the ledger recovered from the checkpoint is the fold of exactly the data-bearing saved polls; outages, idle polls, lost appends and failed saves carry it through unchanged |
| `WorkItemRuns.EpochIsOnePlusChanges` | crates/console-application/src/source_adapters.rs:1022-1033 | From a cold start each item's epoch is one plus the number of times its content version was seen to change, capped at the largest 64-bit value |
| `WorkItemRuns.TurnShape` | crates/console-application/src/source_adapters.rs:2524-2598 | A poll offers its items' events followed by one marker, and its checkpoint nests the ledger those items were recorded in |
| `ItemRuns.ArrayKeepsStep` | crates/console-application/src/source_adapters.rs:3103-3183 | One array, repeated ids and lost appends included, keeps log and ledger in step |
| `ItemRuns.AcceptedLastRecordIsCurrent` | crates/console-application/src/source_adapters.rs:847-871 | Within one array, the accepted snapshot of an id's last record is a row at the ledger's final epoch and version |
| `ItemRuns.CurrentRowIsLatest` | crates/console-application/src/lib.rs:5062-5075 | A row at the ledger's epoch is what the last-observation-wins board shows |
| `Orchestrator.EveryRecordIsObserved` | crates/console-application/src/source_adapters.rs:3103-3183 | For every array the normalizer reads: two events per interpretable record and no others, in order; the record's snapshot with given fields verbatim and missing or null ones as their defaults, under the identity of its trimmed id, its version and its epoch, and a completeness finding of the same version |
| `Orchestrator.ReadsIff` | crates/console-application/src/source_adapters.rs:3092-3180 | The normalizer reads a listing exactly when it is a non-empty array whose interpretable records all have an id that is not blank |
| `Orchestrator.ParseOrchestratorObservation` | crates/console-application/src/source_adapters.rs:3061-3188 | The imperative normalizer, whose own loop and ledger object give the result these two laws are about |
| `Orchestrator.ObserveRecords` | crates/console-application/src/source_adapters.rs:3103-3183 | The loop over the array: the ledger object ends as the fold of the interpretable records, each item emits its snapshot at the epoch the ledger then assigns plus a completeness finding, and a blank id sinks the whole observation |
| `Checkpoints.DecodeUndoesEncode` | crates/console-application/src/source_adapters.rs:2059-2077 | Decoding undoes encoding at both nesting levels: state and epoch of the envelope, the nested position, and a ledger inside it |
| `Checkpoints.ForeignTextIsThePosition` | crates/console-application/src/source_adapters.rs:2059-2077 | Text that is no envelope of the known schema is the source position itself and vouches for no epoch, and a ledger stored without an envelope is still read |
| `Checkpoints.CarryingKeepsTheLedger` | crates/console-application/src/source_adapters.rs:2466-2507 | A poll without data keeps the ledger, from a cold start, a legacy checkpoint and another envelope alike |
| `Checkpoints.WorkItemObservationLedger.FromPrevious` | crates/console-application/src/source_adapters.rs:1009-1017 | A ledger text of the known schema is taken over whole, and entries come from nothing else |
| `Checkpoints.WorkItemObservationLedger.Record` | crates/console-application/src/source_adapters.rs:1035-1040 | Recording replaces one entry and carries every other forward |
| `Checkpoints.WorkItemObservationLedger.ToCheckpoint` | crates/console-application/src/source_adapters.rs:1048-1068 | What the next poll reads back from the text, alone and inside any envelope, is exactly this ledger |
| `ExactConditions.ProjectionAgreesIff` | crates/console-application/src/source_adapters.rs:319-327 | No side condition at all: from any log and any checkpoint, after an accepted marker the projection agrees with the poll if and only if the marker was new to the log or the log agreed already before it |
| `ExactConditions.BoardShowsTheRecordIff` | crates/console-application/src/source_adapters.rs:847-876 | No side condition at all: from any log and any checkpoint, after an accepted snapshot of an id's last record the board shows that record whole if and only if the snapshot was new to the log or the board showed it already |
| `ExactConditions.NoUnsavedChangeIsHarmless` | crates/console-application/src/source_adapters.rs:327 | After any accepted marker whose state the checkpoint does not have and whose save fails, from any log: once a poll of the opposite state is accepted (and, where there was no checkpoint, not saved either), either that poll is contradicted at once, or the next poll of the first state is taken for a duplicate and contradicted |
| `ColdStarts.ProjectionAgreesFromAColdStart` | crates/console-application/src/source_adapters.rs:304-335 | The availability law from a cold start for every saved run of fewer than 2^64 steps, with nothing asked of epochs |
| `ColdStarts.BoardShowsTheLastRecordFromAColdStart` | crates/console-application/src/source_adapters.rs:847-876 | The lane-board law from a cold start for every saved run of fewer than 2^64 records, with nothing asked of epochs |
| `ColdStarts.ReentryIsShown` | crates/console-application/src/source_adapters.rs:851-871 | The law at work: for every item and every other content of it, reading A, B, A from a cold start is a legal run, and the board ends with A |
| `ColdStarts.SameOutageIsShown` | crates/console-application/src/source_adapters.rs:2756-2778 | The law at work: an outage, a recovery and the same outage again is a legal run, and it ends with the source not observed |
| `Limits.FailedSaveMisleads` | crates/console-application/src/source_adapters.rs:327 | Side condition of the availability law: an unsaved recovery lets the next outage reuse its old epoch; its marker counts as accepted and the projection still says observed |
| `Limits.SaturatedEpochMisleads` | crates/console-application/src/source_adapters.rs:2115 | Side condition: at the largest epoch `saturating_add` stands still, and an outage is swallowed |
| `Limits.LostEpochMisleads` | crates/console-application/src/source_adapters.rs:2070-2076 | Side condition: a legacy or foreign checkpoint over a log that has markers restarts at epoch one, and the recovery is swallowed |
| `Limits.RecurringCauseIsNotNewest` | crates/console-application/src/source_adapters.rs:2756-2778 | Such a run from an empty log: causes A, B, A inside one outage leave the availability right and the newest stored reason B |
| `Limits.NewestCauseIff` | crates/console-application/src/source_adapters.rs:2466-2482 | From any log and any checkpoint, for every way a poll can fail: the reason shown after an accepted outage marker is that outage's if and only if the marker was new to the log or the reason shown before was the same |
| `Limits.RecurringCauseIsSwallowed` | crates/console-application/src/source_adapters.rs:2756-2778 | From any log and any checkpoint: an outage, another reason new to the log, and the first reason again. The third marker is a duplicate and the second reason stays |
| `ItemLimits.TwoSpellingsMislead` | crates/console-application/src/source_adapters.rs:3155-3183 | The ledger is keyed by the raw id and the snapshot by the trimmed one: with two spellings of one id, an accepted snapshot can leave the board on the other content |
| `ItemLimits.UnsavedChangeMisleads` | crates/console-application/src/source_adapters.rs:1022-1040 | Side condition of the lane-board law: after an unsaved change, the return to the old record is swallowed |
| `ItemLimits.FlagChangeIsSwallowed` | crates/console-application/src/source_adapters.rs:707-741 | A change of `awaits_scope_override` alone never lands, though the snapshot counts as accepted |
| `EventLog.EventStore.AppendEvent` | crates/console-eventstore/src/lib.rs:725-779 | Insert or ignore under both unique keys, then the look-up of the row that stands in for an ignored append, which fails when only the event id collided |
| `EventLog.Payload.SpeaksIff` | crates/console-application/src/lib.rs:5729-5743 | Which events speak for their source: snapshots, completeness findings, idle markers and the records of every other source but the orphaned-runs listing; only a not-observed finding speaks against one |
| `EventLog.SourceObservationTally` | crates/console-application/src/lib.rs:5755-5778 | The tally has exactly the sources that ever reported, degraded exactly when their newest health-bearing event is a not-observed finding |
| `EventLog.LatestSnapshots` | crates/console-application/src/lib.rs:5061-5075 | The board's reduction is, for every id, the newest snapshot in the log |
| `Identities.MarkersAreDistinct` | crates/console-application/src/source_adapters.rs:2767-2834 | Two markers of one source share an identity text only when they agree on state, epoch and cause hash, whatever colons the repository contains |
| `Identities.IdentityTexts` | crates/console-application/src/source_adapters.rs:1844-1899 | The identity texts in full, part by part, and the event id in front of each |
| `Identities.OrchestratorsAreDistinct` | crates/console-application/src/source_adapters.rs:1844-1899 | The orchestrator's snapshots, completeness findings and markers never share an identity text, whatever colons repository and id contain |
| `WorkItems.DetailIsUniquelyEncoded` | crates/console-application/src/source_adapters.rs:689-742 | The pre-hash encoding is uniquely decodable: two records encode alike if and only if they agree on every hashed field, absent apart from empty, dependency, label and comment lists whole, whatever the texts contain |
| `WorkItems.CommentsAreUniquelyEncoded` | crates/console-application/src/source_adapters.rs:760-771 | Comment lists are determined by their concatenated encodings |
| `WorkItems.VersionIdentifiesContent` | crates/console-application/src/source_adapters.rs:3154-3165 | Barring a hash collision, two records share a version if and only if they agree on everything but the scope-override flag |
| `Encoding.PresenceTaggedIsSelfDelimiting` | crates/console-application/src/source_adapters.rs:783-788 | A presence-tagged field ends at one place only, so what follows it can be anything |
| `Encoding.LengthPrefixedIsSelfDelimiting` | crates/console-application/src/source_adapters.rs:792-794 | A byte-length-prefixed text ends at one place only, multi-byte characters included |
| `Encoding.PresenceTaggedAllIsInjective` | crates/console-application/src/source_adapters.rs:736-741 | Equal concatenations of as many fields come from equal fields |
| `Encoding.LengthPrefixedAllIsInjective` | crates/console-application/src/source_adapters.rs:2904-2918 | Equal concatenations come from equal lists of parts |
| `Fnv.CauseShowsOneByte` | crates/console-application/src/source_adapters.rs:2790-2799 | Two reasons of equal byte length that differ in exactly one byte always get different discriminators |
| `Fnv.OneByteAlwaysShows` | crates/console-application/src/source_adapters.rs:2794-2797 | The same for the hash of any two byte strings that differ in one byte, with either multiplier |
| `Fnv.StepIsABijection` | crates/console-application/src/source_adapters.rs:2795-2796 | For every byte and both multipliers, one hash step is a bijection on 64-bit states, with the inverse of the multiplier undoing it |
| `Fnv.StepSeparatesBytes` | crates/console-application/src/source_adapters.rs:2795-2796 | From one state, different bytes lead to different states |
| `Fnv.CauseIsTheHash` | crates/console-application/src/source_adapters.rs:2798 | The sixteen hexadecimal digits lose nothing of the hash |
| `Fnv.KnownDigests` | crates/console-application/src/source_adapters.rs:2909-2918 | Known digests: of no bytes, and of the byte of `a` with the prime of the versions, where it is the one published for FNV-1a, and with the wider multiplier of the causes, where it is another |
| `PinnedCause.CauseIsPinned` | crates/console-application/tests/cause_discriminator_is_a_pinned_hash.rs:76 | The discriminator of `no work-item in journal entry` is, digit by digit, the one the stored markers carry |
| `Fnv.StreamSeqKeepsTheHash` | crates/console-application/src/source_adapters.rs:2909-2918 | A version keeps every bit of the hash but the lowest, a stream sequence every one but the lowest and the highest |
| `Fnv.CauseDiscriminator` | crates/console-application/src/source_adapters.rs:2790-2799 | The hash loop computes the discriminator of the reason's bytes |
| `Fnv.StableVersion` | crates/console-application/src/source_adapters.rs:2909-2918 | Hashing part by part is one pass over the concatenated length-prefixed encoding, with the low bit set |
| `Fnv.VersionPreimageIsInjective` | crates/console-application/src/source_adapters.rs:2904-2918 | The hashed bytes determine the list of parts |
| `Fnv.StreamSeqIsOddAndSigned` | crates/console-application/src/source_adapters.rs:4317-4321 | A stream sequence is always odd and within 1..2^63-1, so never the zero a snapshot refuses |
| `Text.TrimIsIdempotent` | crates/console-application/src/source_adapters.rs:2026-2032 | Trimming twice is trimming once, so an id trimmed by its constructor is stored as it is shown |
| `Text.TrimStrips` | crates/console-application/src/source_adapters.rs:2026-2032 | Trimming takes white space off both ends and all of it, and nothing else |
| `Text.EncodingIsUtf8` | crates/console-application/src/source_adapters.rs:2792-2794 | Texts are hashed through their UTF-8 bytes: shortest form, lead byte and continuation bytes of every range of scalar values (RFC 3629, section 3) |
| `Ordering.BeforeIsTheByteOrder` | crates/console-application/src/source_adapters.rs:4150-4153 | The order of code points used for ordered maps is the order of the UTF-8 bytes, in which the program compares text |
| `AttentionStream.DiffLeadsToTheSnapshot` | crates/console-application/src/source_adapters.rs:4118-4172 | For every log and every snapshot, replaying the log followed by the diff against its own materialization gives the last-wins map of the snapshot |
| `AttentionStream.SecondDiffIsEmpty` | crates/console-application/src/source_adapters.rs:4147-4172 | A second diff against the same snapshot is empty |
| `AttentionStream.OneEventPerDifference` | crates/console-application/src/source_adapters.rs:4157-4170 | The diff has one event for each id on which the two snapshots differ |
| `AttentionStream.DiffIsOrdered` | crates/console-application/src/source_adapters.rs:4155-4170 | No appearance or change follows a resolution, and each of the two stretches is in the order of the ids |
| `Attention.VersionIdentifiesContent` | crates/console-application/src/source_adapters.rs:4297-4315 | Barring a hash collision, two items share a version if and only if they agree on every field, an absent optional text counting as an empty one |
| `Attention.AbsentAndEmptyShareAVersion` | crates/console-application/src/source_adapters.rs:4297-4315 | Not every change makes a new version: for every item, an absent and an empty path differ in the item and not in the version |
| `AttentionStream.ResolutionNamesTheOccurrence` | crates/console-application/src/source_adapters.rs:4218-4241 | Barring a hash collision, two resolutions share a version if and only if they retire the same content |
| `AttentionStream.LogStandsForTheLastSnapshot` | crates/console-application/src/source_adapters.rs:4118-4172 | After any sequence of snapshots, every diff appended whole, the log stands for the last one |
| `AttentionStream.ListedIsFaithful` | crates/console-application/src/source_adapters.rs:4136 | Listing a materialized inbox and indexing the list again gives the inbox back |
| `AttentionStream.ListedInOrder` | crates/console-application/src/source_adapters.rs:4136 | The listing has each item once, in the order of the ids |
| `AttentionStream.MaterializeAttentionItems` | crates/console-application/src/source_adapters.rs:4118-4137 | The fold lists, in order of id, the inbox the log stands for |
| `AttentionStream.DiffNeedsAttention` | crates/console-application/src/source_adapters.rs:4147-4172 | Appeared and changed in order of id over the new snapshot, then resolved in order over the prior one, duplicates in either list last-wins |
| `AttentionInbox.IngestEndsFineIff` | crates/console-cli/src/lib.rs:2308-2363 | An ingest runs to its end if and only if the log before it lets every change through: each altered item's event is new or stored as its own row, and each dropped item's resolution is new, or stored with its retry still new. What the ingest appends on the way is in the way of nothing later |
| `AttentionInbox.InboxIsTheSnapshotIff` | crates/console-cli/src/lib.rs:2267-2363 | Into the deduplicating store: where the log lets every change through, the inbox is the snapshot afterwards if and only if no event of an item the inbox lacks or shows differently is swallowed and every dropped item named this repository |
| `AttentionInbox.IngestEffect` | crates/console-cli/src/lib.rs:2267-2363 | Where the log lets every change through: new events land, swallowed ones leave their item as it was, and every dropped item of this repository is gone |
| `AttentionRuns.InboxFollowsTheSnapshot` | crates/console-cli/src/lib.rs:2267-2363 | The main inbox law. In every run of reads and of other writers, from a log without rows of the stream, an ingest at a time none before it used runs to its end; it shows an item as it read it if and only if the inbox showed it so already or no earlier event of the kind it calls for has that id and that content; and of the items it did not read exactly those of its own repository go. Hash collisions aside |
| `AttentionRuns.ItemIsShownIff` | crates/console-cli/src/lib.rs:2308-2321 | The same for one item and one ingest that ran to its end, from any log whose rows of the stream are what ingests write |
| `AttentionRuns.IngestEndsFine` | crates/console-cli/src/lib.rs:2322-2361 | From such a log an ingest at a new time always runs to its end: the store refuses none of its events, and no retry is a duplicate unless two retries of one identity collide under the hash |
| `AttentionRuns.RunStaysOwn` | crates/console-cli/src/lib.rs:2267-2363 | In every run the rows of the stream are exactly of the kinds its ingests write, retries at the times of those ingests included |
| `AttentionRuns.FailedReadLeavesTheInbox` | crates/console-cli/src/lib.rs:2293-2305 | In every run a read that failed takes nothing off the inbox and puts nothing on it |
| `AttentionRuns.MarkersAlternate` | crates/console-cli/src/lib.rs:2278-2305 | In every run the markers of the source alternate, beginning with an outage, so a lasting outage is reported once |
| `AttentionHealth.MarkerIff` | crates/console-cli/src/lib.rs:2278-2305 | A read writes a marker if and only if it contradicts what the tally says of the source, and a failed read's marker gives its reason |
| `AttentionIngest.InsertedIsAdded` | crates/console-cli/src/lib.rs:2308-2363 | What an ingest reports as inserted is what it added to the log, wherever it stopped |
| `AttentionIngest.IngestSnapshot` | crates/console-cli/src/lib.rs:2308-2363 | The imperative ingest, with its single retry of a swallowed resolution and its stop at the first failure |
| `AttentionInbox.ReappearanceIsSwallowed` | crates/console-cli/src/lib.rs:2313-2321 | An item that comes back with content it already appeared with is not shown, wherever the ingest ends |
| `AttentionInbox.ReturnIsSwallowed` | crates/console-cli/src/lib.rs:2313-2321 | An item that changes back to content it already changed to keeps the content between, wherever the ingest ends |
| `AttentionInbox.ForeignItemStays` | crates/console-cli/src/lib.rs:2273-2277 | An item that names another repository, a malformed item's placeholder for instance, is never resolved, wherever the ingest ends |
| `AttentionInbox.UnresolvedItemStays` | crates/console-cli/src/lib.rs:2342-2361 | A dropped item whose resolution and retry are both refused stays in the inbox, and the ingest ends in an error |
| `AttentionLimits.ReappearanceIsLost` | crates/console-cli/src/lib.rs:2313-2321 | For every item, from an empty log: it appears, is resolved, and appears again. All three ingests run to their end, and the inbox is empty |
| `AttentionLimits.ReturnIsLost` | crates/console-cli/src/lib.rs:2313-2321 | For every item and every other version of it, from an empty log: it appears, changes, changes back and changes again. All four ingests run to their end, and the inbox keeps the first content |
| `AttentionLimits.CollisionStopsTheIngest` | crates/console-cli/src/lib.rs:2342-2361 | For every item a log from which dropping it ends in the collision error, with nothing appended |
| `AttentionIngest.TextsAreDistinct` | crates/console-application/src/source_adapters.rs:4198 | An attention identity text determines id, change and version, whatever colons the id contains |
| `AttentionHealth.AvailabilityFollowsTheLastRead` | crates/console-cli/src/lib.rs:2208-2306 | In every run, after any ingest whose marker the store did not fail, the tally calls needs-attention unavailable exactly when that read failed, even when the changes after the marker stop half way |
| `AttentionHealth.OneReadIsReported` | crates/console-cli/src/lib.rs:2278-2307 | The same for one ingest from any log whose markers are counted, and the log stays so |
| `AttentionHealth.IngestNeedsAttention` | crates/console-cli/src/lib.rs:2267-2363 | The whole ingest: marker on a change of availability only, nothing resolved by a failed read |
| `WriterAudit.MultiWriterFindings` | crates/console-application/src/doctor.rs:293-359 | The sliding window finds exactly the writers some marker of which lies within an hour, both ends included, of a marker of another writer; each with its total over all markers, in key order |
| `WriterAudit.FlaggedKeys` | crates/console-application/src/doctor.rs:321-333 | The union of the windows that hold several writers is the all-pairs definition |
| `WriterAudit.WindowStart` | crates/console-application/src/doctor.rs:324-325 | The binary search finds the first marker within the window |
| `WriterAudit.FindingIgnoresOrder` | crates/console-application/src/doctor.rs:310 | The finding depends on which markers there are, not on their order |
| `WriterAudit.NeverExactlyOneWriter` | crates/console-application/src/doctor.rs:331-333 | A finding never names exactly one writer |
| `WriterAudit.NoFindingIff` | crates/console-application/src/doctor.rs:334-336 | There is no finding exactly when markers at most 3600 seconds apart always have the same build and executable |
| `WriterAudit.SameWriterIff` | crates/console-application/src/writer_identity.rs:121-129 | Two identities are one writer exactly when build and executable path agree, whatever their process and working directory |
| `WriterAudit.CountByWriterKey` | crates/console-application/src/writer_identity.rs:143-160 | First-seen order, each key once, with its number of markers |
| `WriterAudit.CountIgnoresOrder` | crates/console-application/src/writer_identity.rs:143-160 | A writer's count is the same for every order of the markers |
| `PacedPolling.RunPacedSourcePollLoop` | crates/console-cli/src/source_poller.rs:83-98 | The loop's calls on an arbitrary host are those of the turns relation: one reading before each wait, a poll exactly after a zero wait that was not stopped, one reading after each poll |
| `PacedPolling.PollsCostTheirCadence` | crates/console-cli/src/source_poller.rs:83-98 | The rate bound, on every monotone clock and wake script: time inside polls plus one cadence per poll is at most the elapsed time |
| `PacedPolling.PollsAreACadenceApart` | crates/console-cli/src/source_poller.rs:88-97 | Every poll begins at least one cadence after every earlier one finished, so any number of requests in one window cost at most one poll |
| `PacedPolling.PollsWhenDue` | crates/console-cli/src/source_poller.rs:83-107 | On any clock, a turn polls if and only if its reading is a cadence or more past the last finish and it is not stopped; until then its wait is the rest of that window, and a whole cadence for a reading before the last finish |
| `PacedPolling.PollsAgainIff` | crates/console-cli/src/source_poller.rs:83-98 | On any clock and any script, from the start and after every poll, the loop polls again if and only if some later reading that no stop answered is a cadence past the last finish |
| `PacedPolling.WaitEndsTheWindow` | crates/console-cli/src/source_poller.rs:105-107 | The wait is zero if and only if the cadence is zero or the window has closed, and otherwise ends with the window |
| `PacedPolling.SteppedBackClockWaits` | crates/console-cli/src/source_poller.rs:101-107 | A reading before the last finish is no closed window: it waits, although its documentation says it does not |
| `PacedPolling.RunIsPaced` | crates/console-cli/src/source_poller.rs:83-98 | Every run on a monotone clock is paced, from the first poll on |
| `PacedPolling.RequestsChangeNoPoll` | crates/console-cli/src/source_poller.rs:88-95 | Taking every request out of a script changes no reading, wait or poll |
| `PacedPolling.NoPollFollowsAStop` | crates/console-cli/src/source_poller.rs:87-90 | A stop ends the run before any poll that was due, and a turn polls exactly when its window had closed and it was not stopped |
| `PacedPolling.WaitsAreBounded` | crates/console-cli/src/source_poller.rs:101-107 | No wait exceeds one cadence, on any clock, monotone or not |
| `JsoncComments.StripJsoncComments` | crates/console-cli/src/factory_servers.rs:208-258 | The character scan returns the code and string segments, in order, of whatever segmentation the text has |
| `JsoncComments.SegmentsSegment` | crates/console-cli/src/factory_servers.rs:208-258 | Every text falls into code, strings, line comments and block comments |
| `JsoncComments.SegmentationIsUnique` | crates/console-cli/src/factory_servers.rs:208-258 | In one way only |
| `JsoncComments.StrippedSegments` | crates/console-cli/src/factory_servers.rs:208-258 | The stripped text has the code and strings of the original, verbatim and in order, and no comment remains or comes about in it |
| `JsoncComments.StrippingIsIdempotent` | crates/console-cli/src/factory_servers.rs:208-258 | Stripping twice is stripping once |
| `JsoncComments.UntouchedIffCommentFree` | crates/console-cli/src/factory_servers.rs:208-258 | A text is unchanged if and only if it has no comment |
| `JsoncComments.LineNumbersShift` | crates/console-cli/src/factory_servers.rs:205-250 | The text after any number of segments moves up by exactly the newlines of the block comments among them |
| `JsoncComments.LinesSurviveIff` | crates/console-cli/src/factory_servers.rs:205-250 | The line count survives if and only if no block comment spans lines |
| `JsoncComments.BlockCommentMovesLines` | crates/console-cli/src/factory_servers.rs:205-250 | Any block comment over several lines in front of any text makes the count smaller |
| `JsoncComments.TwoLineComment` | crates/console-cli/src/factory_servers.rs:205-250 | A two-line comment of five characters does so in front of every text |
| `JsoncComments.InsertedCommentsAreStripped` | crates/console-cli/src/factory_servers.rs:208-258 | Block comments anywhere outside strings but directly after a slash, and line comments before newlines under the same condition, are stripped back to the original; only so placed do they read as comments |
| `JsoncComments.SkipLine` | crates/console-cli/src/factory_servers.rs:232-240 | A line comment ends before its newline, which is kept, or at the end of the text |
| `JsoncComments.SkipBlock` | crates/console-cli/src/factory_servers.rs:241-251 | A block comment ends with the first closer that does not share a character with its opener, or at the end of the text |
| `CoverageGate.MergedLineUncovered` | dev-tooling/coverage-gate.py:94-112 | A line is counted when some attributed, non-skipped region spans it, and reported when every such region has count zero |
| `CoverageGate.MergedRegionUncovered` | dev-tooling/coverage-gate.py:115-138 | The same for regions by their four coordinates |
| `CoverageGate.AttributedRegions` | dev-tooling/coverage-gate.py:74-91 | Exactly the non-skipped regions whose file, looked up by file id, the same export group attributes |
| `CoverageGate.CountedIff` | dev-tooling/coverage-gate.py:74-138 | A line counts when an attributed region begins at it or before and ends at it or after, a span when one has its four coordinates; skipped regions, kind 2, attribute nothing |
| `CoverageGate.Gate` | dev-tooling/coverage-gate.py:164-238 | The gate passes if and only if it has its two arguments, both inputs are readable, the listing names no line, some line is counted and no place is uncovered; each failure has its own verdict, the first check to fail deciding |
| `CoverageGate.CoveredIffSomethingRan` | dev-tooling/coverage-gate.py:94-112 | A counted place is covered exactly when some single instantiation ran something there |
| `CoverageGate.MoreInstantiationsNeverUncover` | dev-tooling/coverage-gate.py:94-138 | A larger export never uncovers a place nor drops one from the count |
| `CoverageGate.OrderIsIrrelevant` | dev-tooling/coverage-gate.py:94-138 | Order and repetition of groups and instantiations do not matter |
| `CoverageGate.RegionsCoverLines` | dev-tooling/coverage-gate.py:94-138 | An uncovered line implies an uncovered region, so no region gap means no line gap |
| `CoverageGate.LinesDoNotCoverRegions` | dev-tooling/coverage-gate.py:94-138 | Not conversely: a covered line can hold an uncovered region |
| `ParityGate.CheckParity` | crates/console-ci-parity-check/src/lib.rs:271-338 | The report has exactly the declared findings: each missing reason, non-divergence, duplicate, missing recipe, untruth against the sets, and unaccounted job or target; entries first in their order, then pass by pass in order of name, a finding of several entries once for each |
| `ParityGate.SilentIffParity` | crates/console-ci-parity-check/src/lib.rs:271-338 | No finding if and only if names are unique, every entry has a reason and flags that are true and not both set, every target has a recipe, and every name in exactly one of the two sets has an entry |
| `ParityGate.ParityExcuses` | crates/console-ci-parity-check/src/lib.rs:311-335 | Under parity, whatever is in one set only is excused from the other by its entry |
| `MenuTree.MenuTree` | crates/console-application/src/action_registry.rs:731-786 | For every registry: bar nodes and groups by first appearance, each group its actions in registry order, and all actions over the bar are a permutation of the registry |
| `MenuTree.TreeIsUnique` | crates/console-application/src/action_registry.rs:712-730 | A registry has one such tree; bar labels, and group labels under each node, do not repeat |
| `MenuTree.ActionIsFoundByItsPath` | crates/console-application/src/action_registry.rs:735-767 | Every action stands under the first label of its path and in the group of the second; a path of one label gives both, and an action without a path stands under its own name |
| `MenuTree.AppearancesKeepTheOrder` | crates/console-application/src/action_registry.rs:727-729 | Labels come in the order of their first index in the registry |
| `MenuTree.OneActionIsAdded` | crates/console-application/src/action_registry.rs:754-767 | Each turn shows exactly one action more |
| `DispatchJournal.MostRecentDispatchJournalEntry` | crates/console-application/src/source_adapters.rs:3301-3322 | The backward scan answers with the newest dispatch; without one with the newest fault; idle exactly when there are records and all are well formed; an empty journal is an error |
| `DispatchJournal.AnswerIsUnique` | crates/console-application/src/source_adapters.rs:3301-3322 | Every journal calls for exactly one answer |
| `DispatchJournal.NoiseHidesNothing` | crates/console-application/src/source_adapters.rs:3301-3322 | Any mix of background, malformed and blank lines appended to a journal with a dispatch leaves the answer |
| `DispatchJournal.NewestDispatchWins` | crates/console-application/src/source_adapters.rs:3301-3322 | A newer dispatch supersedes whatever the journal held |
| `DispatchJournal.FaultsShowWithoutADispatch` | crates/console-application/src/source_adapters.rs:3311-3321 | In a journal without a dispatch the newest fault is reported, and background records after it do not clear it |
| `DispatchJournal.LineIs` | crates/console-application/src/source_adapters.rs:3331-3344 | A line is a dispatch exactly when it is a record that names a dispatch and a work-item, a fault exactly when it is no record or names a dispatch only |
| `DispatchJournal.BounceIff` | crates/console-application/src/source_adapters.rs:3345-3384 | A dispatch is a bounce exactly when its record is a non-convergence bounce or an outcome that stalled or failed without converging; only a bounce has a terminal status |
| `DispatchJournal.BounceStatus` | crates/console-application/src/source_adapters.rs:3345-3384 | A bounce ends in the status its record gives, `bounced` if it gives none, or in the status of the outcome that did not converge |
| `DispatchJournal.RefusalIff` | crates/console-application/src/source_adapters.rs:3392-3406 | A failed outcome is a refusal exactly for the four refusing stages, each of its own kind, and carries its detail trimmed unless that is blank |
| `SourceTallies.TallySourceEvents` | crates/console-application/src/source_event_counts.rs:89-106 | The map has exactly the sources with a health-bearing event, each with its two counts |
| `SourceTallies.CountedIffOnTheRoster` | crates/console-application/src/source_event_counts.rs:15-20 | A source is counted exactly when the availability tally lists it |
| `SourceTallies.TalliesAdd` | crates/console-application/src/source_event_counts.rs:89-106 | Tallies add over concatenated logs |
| `SourceTallies.TallySumsToTheLog` | crates/console-application/src/source_event_counts.rs:89-106 | Totals over the counted sources sum to the health-bearing events of the log |
| `SourceTallies.PercentIsNearest` | crates/console-application/src/source_event_counts.rs:72-78 | Of n not-observed out of t the percent is 0 when t is 0, and otherwise at most 100 and within half a point of the exact share, a tie going up |
| `SourceTallies.LastSuccessfulObservedAt` | crates/console-application/src/doctor.rs:240-261 | For every source, the newest positive event's time raised by every later checkpoint of the source, absent when there is neither |
| `SourceTallies.LastSuccessIsTheLatest` | crates/console-application/src/doctor.rs:250-259 | The result is one of the successes on record, and none of them is later |
| `SourceTallies.FailuresMoveNothing` | crates/console-application/src/doctor.rs:245-249 | A failing source keeps the event-borne success it had |
| `SourceTallies.NewestSuccessWins` | crates/console-application/src/doctor.rs:245-249 | The newest positive event of a source dates its success, whatever came before it |

## Left out

- NoCollision: hashes are not assumed injective; the laws that need equal versions to mean equal content carry this condition on the two records compared.
- AvailabilityRuns.ProjectionAgreesWithTheLastPoll: the start must satisfy the invariant, which a cold start does; a store that was damaged before is not repaired by the model.
- LaneBoard.BoardShowsTheLastRecord: says nothing of `awaits_scope_override`, which the version does not cover; `Repolls.BoardShowsTheFlagIff` says exactly when it is right too.
- LaneBoard.BoardShowsTheRawRecord: says nothing of that flag either, for the same reason.
- AttentionRuns.InboxFollowsTheSnapshot: asks of other writers that they use neither this stream's source name nor its event ids, and of the hash that it does not collide on the items compared or on two retries of one identity.
- WriterAudit.SortByTime: stands in for the library's stable sort, and its result is used only through order and contents.
- SourceTallies.PercentIsNearest: does not model overflow of `not_observed * 100`, since a log of that length does not fit in memory.
- AttentionIngest.IngestSnapshot: does not model a store failing for a reason of its own, only refused and ignored appends; such a failure ends the ingest like the refusals do.
- Checkpoints.DecodeUndoesEncode: states the round trip on the shapes a checkpoint text can have, not on the JSON text itself, whose reader and writer are a library's.
- JSON text and its reader: payloads, checkpoints and journal records are datatypes of the shapes the code tells apart; text of no such shape is a value of its own, and a malformed persisted payload is not modelled.
- Timestamps are integers in nanoseconds for the writer window and plain text, compared as the code compares them, for the last success.
- Fabro and pull-request list parsing, and the identities of instanced Fabro runs, whose texts keep the bare kind name while their source name carries the endpoint.
- Stream sequences, metadata, correlation ids and transactions of the SQLite store; its errors are a parameter of each append, load and save.
- Rendering: finding texts, listing rows in sorted order, the seven lanes and their ranks, menus as widgets, hints and help.
- Parsing of the justfile, the workflow, the parity fixture and the missing-lines listing; the gates start from their parsed form.
- Negative file ids in a coverage export, which the coverage tool does not write.
- Shared cells, writer leases, process spawning, threads and wake channels; the poll loop runs against an arbitrary host, and its wake script ends in a stop.
- The other diagnostics of the doctor report, factory lookup and plugin discovery, which would only add easy members.
