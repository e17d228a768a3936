# Verified model of oh-my-safety's stateful core

This project models, in Dafny 4.11, the stateful code of oh-my-safety and proves what it keeps over whole runs.
`dafny verify dfyconfig.toml` checks it.

The story runs from a scan to the fleet view, with the offline-intelligence store and the planner beside it:

- **Scan text and snapshots** (`ScanText`, `ScanShape`, `ScanRoundTrip`, `Scan`): the row parser, the texts it accepts,
  rendering and parsing back, the canonical row order and the digest.
- **Journal** (`Model`, `Journal`, `JournalRuns`, `JournalStates`, `JournalListing`): an append-only log with idempotent
  appends, the materialized findings, replay, and a closed form of each finding and its state in terms of its own
  events.
- **Ingestion** (`Ingest`, `IngestLoop`, `IngestRuns`, `IngestEffect`, `IngestReports`): a non-atomic series of appends that converges
  under any number of crashes at any points, and what it does to the findings.
- **Redaction and fleet view** (`Redact`, `Fleet`, `FleetRuns`): the aggregation an agent reports, and its agreement
  with the controller's table while scans, administration and crashes fall between the four requests of a sync.
- **Controller** (`Contracts`, `ContractRanges`, `Controller`, `ControllerStore`, `ControllerRuns`, `ControllerHistory`):
  twelve transactions over six tables, exactly which of them commit, their safety over whole runs, and each row in
  terms of the transactions that led to it.
- **Signed policies** (`PolicyLedger`, `PolicyCache`, `PolicyCacheRuns`, `PolicyProtocol`): the agent's revision ledger
  and policy file, written in two steps and read without the lock, and both sides as one protocol.
- **Offline intelligence** (`IntelCanonical`, `IntelRecords`, `IntelSign`, `IntelInstall`, `IntelRuns`): canonical form, signing and
  verification, and installation with crashes and lock-free readers.
- **Planner and scan budgets** (`Planner`, `Coverage`, `FileRead`, `Triage`, `SecretText`, `SecretScan`): claims with
  jitter, and resource accounting that holds whatever the files do while they are read.
- **Shared** (`Ordering`, `Instants`): Go's string order and sorting, and the two RFC 3339 text forms of times.

Tables are maps and sequences; a SQL transaction, a rename and a link are one step each. Objects whose methods update
fields are classes, and each of their methods is proved against a function on values about which the lemmas speak.
SHA-256, JSON and Ed25519 are function values; their laws are preconditions (a decoder inverts its encoder, a signature
verifies under its key, hashes do not collide). Where the code also checks the fixed length of a digest, the theorems
name the collision instead of assuming it away, or leave the format open, because no hash of fixed length is injective.

## Findings about the code

- `Append` accepts event types that match `finding.%` without being lifecycle types, and SQLite's `LIKE` ignores ASCII
  case; after one such event `RebuildFindings` always fails (`RebuildExact`, `RebuildCanFail`).
- `ListFindings` orders by RFC 3339 text without trailing zeros. Two updates within one second are listed in the wrong
  order exactly when the earlier fraction is a prefix of the later one (`NanoTextOrder`, `ListedNewestFirst`). The
  controller's fixed-width `timeText` is a true order embedding (`TimeTextOrder`).
- A policy id that is deleted and created again is refused by agents that cached a higher revision
  (`RecreationIsRejected`; `RecreationHappens` is such a run from empty stores); without that, the protocol never
  refuses a served policy for its revision.
- docs/offline-intelligence.md:155-157 says that different content at an accepted sequence fails. The code compares
  bundle id and payload digest only (internal/intel/sign.go:156-168): a bundle that differs in other header fields is
  a replay and replaces the current one (`ReplayReplacesCurrent`). The theorems follow the code.
- Two different vulnerable packages can share a duplicate key, because ecosystems and package names may hold the colon
  that separates them in the key; the second is then refused as a duplicate. `KeysIdentify` says exactly when keys
  agree, `ColonFreeEcosystems` when that means the same package, and `ColonsCollide` shows two that collide.
- A summary may be as long as the parser's line buffer, so a valid snapshot can render to a row that does not parse
  (`LongSummaryDoesNotParse`); `RenderThenParse` gives the exact condition.
- `Due` does not validate its specs. A call reaches a listed spec when its id is due and every spec of this id listed
  in front of it is still due after its own claim. It panics exactly when it reaches a spec with jitter -1, and
  otherwise claims exactly the specs it reaches (`DueExactly`). It returns each id at most once exactly when, of each
  due id listed more than once, the first spec is no longer due after its claim (`DueOnceExactly`).
  `ZeroIntervalIsRepeated` and `ListingOrderDecides` are runs that get to both exceptions.
- Redaction depends on the order of the findings exactly when it succeeds and two findings share a key without sharing
  detector and category, which takes a NUL byte in a detector id (`OrderForgottenExactly`, `NulFreeKeysNameGroups`,
  `NulMakesOrderMatter`).
- A file whose size differs from the bytes hashed counts as exceeding a limit even when it shrank
  (`Triage.HashBounded` states the exact condition, `ShrunkFileExceeds` is such a file).

## Model

| member | source | states |
|---|---|---|
| Ordering.SortedPermutationIsUnique | internal/bridge/scan.go:467-484 | sorting with distinct keys has one outcome, whatever the algorithm |
| Ordering.StrLessMeans | internal/bridge/scan.go:479-484 | the order of texts used throughout is the lexicographic one |
| Instants.TimeTextOrder | internal/controller/store.go:1138-1140 | the fixed-width time text is an order embedding for the years 0000 to 9999, so comparing expiries as text is comparing times (RFC 3339, section 5.1) |
| Instants.TimeTextReads | internal/controller/store.go:1138-1140 | the fixed-width text is punctuated as RFC 3339, section 5.6, asks, and reads back to the time |
| Instants.NanoTextOrder | internal/journal/sqlite.go:384-396 | exactly when the order of RFC 3339 texts without trailing zeros is the order of the times, and when it is reversed |
| Instants.WholeSecondSortsLast | internal/journal/sqlite.go:564 | a time on the full second sorts after every later time of that second |
| Journal.Store.Append | internal/journal/sqlite.go:167-245 | the append transaction on both tables: rejected, repeated, or stored with the next row id and projected |
| Journal.Store.Read | internal/journal/sqlite.go:247-285 | a page of the log after a row id, with the default and the maximal page size |
| Journal.Store.RebuildFindings | internal/journal/sqlite.go:594-641 | the table is replaced by the replay of the selected events, or left alone at the first error |
| Journal.ReplayStopsAtError | internal/journal/sqlite.go:632-636 | replay fails as its shortest failing prefix does |
| JournalRuns.AppendKeepsConsistent | internal/journal/sqlite.go:196-245 | an append keeps row ids consecutive, event ids unique, stored events valid and the table equal to the replay |
| JournalRuns.AppendIsIdempotent | internal/journal/sqlite.go:196-245 | a rejected append changes nothing; an accepted one only extends the log, and repeating it returns the same record and changes nothing |
| JournalRuns.RebuildExact | internal/journal/sqlite.go:594-641 | a rebuild succeeds exactly when every logged type its pattern selects is a lifecycle type, and never changes a consistent table |
| JournalRuns.RebuildCanFail | internal/journal/sqlite.go:606-612 | a stored type that the pattern selects without being a lifecycle type makes every later rebuild fail, whatever happens in between |
| JournalRuns.CapitalIsNoLifecycle | internal/journal/sqlite.go:606-612 | `Finding.Observed`, a lifecycle type but for one letter's case, is such a type |
| JournalRuns.ViewEqualsReplay | internal/journal/sqlite.go:167-194 | after any mix of accepted and rejected appends and rebuilds the table is the fold of the projection over the lifecycle events |
| JournalRuns.NextFindingMoves | internal/journal/sqlite.go:405-470 | how one event moves counts, first and last sighting, update time and the lifecycle fields |
| JournalRuns.ProjectionClosedForm | internal/journal/sqlite.go:287-403 | in every reachable state a finding's occurrences, first and last sighting, update time, latest event and report are those of its own events, and its state fields fit together |
| JournalStates.LifecycleClosedForm | internal/journal/sqlite.go:405-552 | in every reachable state a finding's state, end of suppression, resolution and acknowledgement are those its own events call for: open without an action; otherwise as its latest action and the sightings after it make it |
| JournalStates.AppendAcceptsExactly | internal/journal/sqlite.go:287-403 | a new lifecycle event is stored exactly when its payload is acceptable and the finding's present state allows it; validation of the result never fails |
| JournalStates.AppendAnswers | internal/journal/sqlite.go:167-245 | what an append answers before the finding is looked at: each error in its case, and the stored record for a known event |
| JournalRuns.ViewHasClosedForm | internal/journal/sqlite.go:287-470 | the same for any log whose replay succeeds |
| JournalRuns.StoredFindingsAreValid | internal/journal/sqlite.go:374-376 | every stored finding passes validation and sits under its own id |
| JournalRuns.OwnEventsSuffice | internal/journal/sqlite.go:287-403 | replaying a finding's own events alone gives the same finding: events of one finding never affect another |
| JournalListing.ListFindings | internal/journal/sqlite.go:553-592 | lists each current finding in the wanted states once, in strict listing order |
| JournalListing.ListedNewestFirst | internal/journal/sqlite.go:564 | two findings are listed newest first exactly when their time texts do not invert |
| JournalListing.ListingMeans | internal/journal/sqlite.go:564 | in a listing the earlier finding was updated later, unless the texts invert, and equal times go by id |
| JournalListing.SortedFindingsForgetOrder | internal/journal/sqlite.go:643-664 | the order by urgency is strict on stored findings and independent of the input order |
| JournalListing.SortedMostUrgentFirst | internal/journal/sqlite.go:643-664 | critical before warn before info, then the latest update, then by id; nothing is lost |
| ScanText.ParseScan | internal/bridge/scan.go:156-256 | the line loop with its flags, metadata map and result keys computes the row-by-row parser, error positions included |
| ScanText.ParseRow | internal/bridge/scan.go:184-237 | one row: schema, metadata, result, detail or an error |
| ScanShape.RowsExactly | internal/bridge/scan.go:173-236 | the row parser goes through exactly the lines that fit below the lines above them, and its state is what these rows say |
| ScanShape.ParsesExactly | internal/bridge/scan.go:156-256 | a text parses to a snapshot exactly when it and its lines are not too large, each row fits, the rows say the metadata and are the results in order, and the snapshot is valid |
| ScanRoundTrip.RenderThenParse | internal/bridge/scan.go:156-336 | a valid snapshot rendered as rows parses back to itself exactly when text and rows fit the size limits |
| ScanRoundTrip.LongSummaryDoesNotFit | internal/bridge/scan.go:24-26 | a row with a summary of the greatest allowed length is too long for the parser |
| ScanRoundTrip.LongSummaryDoesNotParse | internal/bridge/scan.go:156-178 | a valid snapshot with such a summary, whose rendering is refused |
| ScanRoundTrip.IdleRowChangesNothing | internal/bridge/scan.go:178-230 | a blank or well-formed detail row after the metadata changes neither success nor the snapshot |
| ScanRoundTrip.CarriedMetadataParses | internal/bridge/scan.go:258-336 | the metadata rows of a snapshot parse back to its metadata |
| Scan.ValidateExit | internal/bridge/scan.go:357-381 | the loop accepts exactly the exit codes that are the expected exit of the rows |
| Scan.ExpectedExitIsMaximum | internal/bridge/scan.go:357-373 | the expected exit is the highest status rank of any row |
| Scan.ExpectedExitMeans | internal/bridge/scan.go:357-373 | 3 with an error, else 2 with a critical row, else 1 with a warning, else 0 |
| Scan.ExpectedExitForgetsOrder | internal/bridge/scan.go:357-373 | the expected exit does not depend on the row order |
| Scan.InsertRow | internal/bridge/scan.go:468-476 | the inner loop moves one row left past every greater one |
| Scan.SortResultsInPlace | internal/bridge/scan.go:467-477 | the in-place insertion sort computes the sorted rows |
| Scan.SortResultsSorts | internal/bridge/scan.go:467-484 | the sorted rows are the strictly sorted permutation of the rows, with unique keys |
| Scan.RowsByCategoryAndName | internal/bridge/scan.go:479-484 | rows are sorted by category, and within a category by name |
| Scan.CanonicalIdentity | internal/bridge/scan.go:450-465 | sorting identifies exactly the valid snapshots that differ only in row order |
| Scan.DigestIdentity | internal/bridge/scan.go:450-465 | valid snapshots share a digest exactly when they differ only in row order |
| Scan.ValidityForgetsOrder | internal/bridge/scan.go:75-118 | row order is no part of validity |
| Ingest.CountResults | internal/bridge/ingest.go:404-421 | the counting loop counts each status |
| IngestReports.CountsAreExact | internal/bridge/ingest.go:404-421 | each count is the number of rows of its status, and those of a valid snapshot add up to all rows |
| IngestLoop.EventByID | internal/bridge/ingest.go:365-386 | the paging loop terminates and finds the event exactly when it is logged |
| IngestLoop.PageExactly | internal/journal/sqlite.go:247-285 | which records a page holds, for every row id and limit |
| IngestLoop.IngestRow | internal/bridge/ingest.go:117-169 | one row: the check event, then the observation or the resolution its status asks for |
| IngestLoop.IngestInto | internal/bridge/ingest.go:66-175 | the loop over sorted rows with the marker before and after computes the specified run, error or not |
| IngestRuns.EventIDInjective | internal/bridge/ingest.go:388-398 | NUL-separated event ids of one snapshot are equal only for equal parts |
| IngestRuns.FindingIDInjective | internal/bridge/ingest.go:400-402 | finding ids of valid identifiers name the category and the check |
| IngestRuns.RerunConverges | internal/bridge/ingest.go:115-174 | running all tasks after any prefix of them ends like the uninterrupted run |
| IngestRuns.FinishedRunIsDone | internal/bridge/ingest.go:90-113 | a finished run stored the marker; the next one stops there and reports so |
| IngestRuns.CrashRetryConverges | internal/bridge/ingest.go:66-175 | stopping after any number of appends and running again gives the log, the findings and the outcome of one run; a further run changes nothing |
| IngestRuns.CrashesConverge | internal/bridge/ingest.go:66-175 | the same for any list of crashes, one after the other |
| IngestEffect.FreshTask | internal/bridge/ingest.go:117-174 | a task whose event is new fails only on a full log |
| IngestEffect.IngestionEffect | internal/bridge/ingest.go:66-175 | ingesting new events never meets a lifecycle error; an alarming row leaves its finding with the row's report, counted and seen then, and open if it was absent or resolved; an ok row resolves an unresolved finding; all others are unchanged |
| IngestEffect.EffectMeans | internal/bridge/ingest.go:66-175 | an alarming row leaves its finding unresolved, and open when it was absent or resolved; an ok row leaves none, or a resolved one |
| IngestReports.IngestionIsLogged | internal/bridge/ingest.go:176-363 | afterwards each row's check event is logged, each alarming row's observation, and the marker with the exact counts |
| IngestReports.AnswerMeans | internal/bridge/ingest.go:72-114 | the answer names the snapshot by its digest, counts its rows, and says whether the marker was there |
| IngestEffect.IngestForgetsRowOrder | internal/bridge/ingest.go:72-118 | a retry that lists the rows in another order is the same run |
| Redact.RedactFindings | internal/managed/sync.go:81-132 | the loop over findings, map and sort fail on overflow or list every group once in strict key order |
| Redact.AggregateSummarizes | internal/managed/sync.go:81-119 | each group adds up its occurrences, spans its sightings and takes its highest severity and state; there are no other groups |
| Redact.SummaryIsWorst | internal/managed/sync.go:81-160 | a row is critical if any finding of its group is, else a warning if any is; open if any is, else acknowledged, else suppressed; it is named like one of them |
| Redact.OverflowExact | internal/managed/sync.go:103-105 | redaction fails exactly when the true total of some group exceeds 2^64-1 |
| Redact.SummaryIsUnique | internal/managed/sync.go:81-119 | where findings that share a key share their names, a group has one summary, whatever the order of the findings |
| Redact.RedactionForgetsOrder | internal/managed/sync.go:81-132 | every order of such findings gives the same groups or the same failure |
| Redact.NulFreeKeysNameGroups | internal/managed/sync.go:97 | detector ids without a NUL byte make keys name detector and category |
| Redact.OrderForgottenExactly | internal/managed/sync.go:81-132 | the order of the findings does not matter exactly when redaction fails, or when findings that share a key share detector and category |
| Redact.ListingIsUnique | internal/managed/sync.go:121-131 | the rows are determined by the groups, however the map is walked |
| Redact.RowsByDetectorAndCategory | internal/managed/sync.go:125-130 | rows are sorted by detector, and within a detector by category |
| Redact.NulMakesOrderMatter | internal/managed/sync.go:97 | two valid findings of different ids whose order decides a row's names |
| Redact.ReportValidity | internal/controller/types.go:223-278 | a redacted report is valid exactly when names, sizes and clock allow it; the checks for duplicates, time order, severities and empty counts cannot fail |
| ContractRanges.PolicyRanges | internal/controller/types.go:160-221 | how far each field of a valid policy may move |
| ContractRanges.PolicyChecks | internal/controller/types.go:160-221 | which lists of checks a valid policy may hold |
| ContractRanges.ReportRanges | internal/controller/types.go:223-278 | how far each field of a valid report and of its findings may move |
| ContractRanges.MetadataRanges | internal/bridge/scan.go:75-105 | how far each field of valid scan metadata may move |
| ContractRanges.ResultRanges | internal/bridge/scan.go:119-153 | how far the texts of a valid row may move |
| ContractRanges.TokenBytes | internal/bridge/scan.go:423-435 | a token's limit counts UTF-8 bytes |
| ContractRanges.TokenCharacters | internal/bridge/scan.go:423-435 | a token has no space at its ends and no control character |
| ContractRanges.GuidesStayInside | internal/bridge/scan.go:437-448 | a guide is relative and does not climb out of its directory |
| ContractRanges.DeviceLengths | internal/controller/types.go:79-98 | how long names, platforms and versions of a device may be |
| ContractRanges.NameLengths | internal/controller/types.go:295-310 | names and identifiers have 1 to 128 characters |
| ContractRanges.AcceptedSeverities | internal/bridge/scan.go:137-152 | which severities each status allows |
| ContractRanges.EventsValidExactly | internal/model/contracts.go:115-136 | exactly which events are well formed |
| ControllerStore.Store.constructor | internal/controller/store.go:27-73 | a new store is empty |
| ControllerStore.Store.AppendAudit | internal/controller/store.go:1066-1089 | adds one entry with the next sequence number |
| ControllerStore.Store.CreateEnrollmentToken | internal/controller/store.go:221-265 | the whole new state of the transaction, or an error and the old state |
| ControllerStore.Store.Enroll | internal/controller/store.go:267-348 | the same: token checks, consumption, device row |
| ControllerStore.Store.Heartbeat | internal/controller/store.go:415-440 | the same |
| ControllerStore.Store.RotateDeviceCredential | internal/controller/store.go:442-467 | the same |
| ControllerStore.Store.RevokeDevice | internal/controller/store.go:469-502 | the same |
| ControllerStore.Store.AssignDeviceGroup | internal/controller/store.go:504-538 | the same |
| ControllerStore.Store.CreatePolicy | internal/controller/store.go:602-652 | the same |
| ControllerStore.Store.UpdatePolicy | internal/controller/store.go:654-700 | the same, with the compare-and-swap on the revision |
| ControllerStore.Store.DeletePolicy | internal/controller/store.go:702-733 | the same, refused while a group uses the policy |
| ControllerStore.Store.AssignGroupPolicy | internal/controller/store.go:783-825 | the same |
| ControllerStore.Store.UnassignGroupPolicy | internal/controller/store.go:827-859 | the same |
| ControllerStore.Store.SyncReport | internal/controller/store.go:910-968 | the same; the upserts are rolled back when the device is not active |
| ControllerRuns.FailureChangesNothing | internal/controller/store.go:221-968 | a failed transaction leaves the database as it was |
| ControllerHistory.CommitsExactly | internal/controller/store.go:221-968 | a transaction commits exactly when it is well formed and the database admits it, and otherwise names the reason |
| ControllerRuns.AuditGrowsByOne | internal/controller/store.go:1066-1089 | a committed admin mutation adds exactly one entry about itself, nothing else adds any |
| ControllerRuns.AuditCountsCommits | internal/controller/store.go:1066-1089 | over a run the audit log only grows, counts the committed admin mutations and numbers them from 1 |
| ControllerHistory.AuditedForEver | internal/controller/store.go:1066-1089 | every committed administrative transaction has its entry, with actor, action, target and time, at its place from then on |
| ControllerRuns.AssignmentsAreSound | internal/controller/store.go:702-859 | in every reachable database each assignment names an existing policy and each policy row holds a valid document of its id and revision |
| ControllerRuns.RevocationIsPermanent | internal/controller/store.go:469-502 | a revoked device stays revoked, never authenticates and gets no heartbeat, rotation or report through |
| ControllerHistory.DeviceHistory | internal/controller/store.go:267-502 | in every reachable database a device's row comes, field by field, from its enrollment and its last heartbeat, rotation, contact and revocation |
| ControllerHistory.GroupHistory | internal/controller/store.go:504-538 | a device's group is the one assigned last, or that of its enrollment token |
| ControllerHistory.RevocationTakesEffect | internal/controller/store.go:469-502 | from a committed revocation on, the device is not active, nothing authenticates it, it is served no policy, and nothing gets through on its behalf |
| ControllerHistory.RevokedByTransaction | internal/controller/store.go:469-502 | a device is active exactly when an enrollment of it committed and no revocation |
| ControllerRuns.OnlyLatestCredentialAuthenticates | internal/controller/store.go:350-467 | after any run, of all texts exactly the credential handed out last to an unrevoked device authenticates; empty and over-long texts never do |
| ControllerRuns.EnrollmentAtMostOnce | internal/controller/store.go:267-348 | over every run a token yields at most one device and names it ever after |
| ControllerRuns.EnrollmentBeforeExpiry | internal/controller/store.go:221-348 | a device is enrolled only with a token created earlier, strictly before it expires, and starts in the token's group |
| ControllerHistory.TokenHistory | internal/controller/store.go:221-348 | a token's row is as issued, and marked by the enrollment that used it |
| ControllerHistory.PolicyHistory | internal/controller/store.go:602-733 | a policy is there when it was written last and not deleted, with the document and the author written last |
| ControllerHistory.AssignmentHistory | internal/controller/store.go:783-859 | a group has the policy assigned last, unless it was removed since |
| ControllerHistory.ServedPolicy | internal/controller/store.go:861-883 | an active device is served the document written last to the policy assigned last to its group |
| ControllerHistory.FindingHistory | internal/controller/store.go:910-968 | a finding's row is that of the last committed report of its device that has it |
| Fleet.IngestKeepsNames | internal/bridge/ingest.go:215-268 | ingestion keeps every finding, and its detector and category |
| FleetRuns.FleetViewAgrees | internal/managed/sync.go:26-76 | over every run in which scans, lifecycle events, controller transactions, crashes and lost answers fall between the requests of a sync: an accepted report leaves as the device's rows exactly the redaction of the findings at its listing, none missing, none stale; a refused one changes no row |
| FleetRuns.RowsAreNeverStale | internal/controller/store.go:929-947 | in no state of any such run does the controller hold a row for which the agent has no finding |
| FleetRuns.ReportsNeedConsent | internal/managed/sync.go:41-73 | over every such run, a report is accepted only while the policy in the agent's cache asks for reports; a sync that died while caching sends none |
| FleetRuns.SyncReportsExactly | internal/managed/sync.go:26-76 | exactly when an uninterrupted sync reports, from heartbeat and policy cache to the size and clock limits; the redacted rows themselves are never refused and no count overflows |
| FleetRuns.ReachedApproval | internal/managed/client.go:204-232 | in every reachable state a policy that asks for reports is cached, unless its id was recreated or the ledger is full |
| FleetRuns.RevokedSyncChangesNothing | internal/controller/store.go:948-960 | a revoked device's sync changes nothing at the controller |
| FleetRuns.RevokedReportIsRefused | internal/controller/store.go:948-960 | the report of a device revoked after its findings were listed is refused and changes no row |
| Fleet.ListingOrderIsForgotten | internal/managed/sync.go:57-63 | the reported rows do not depend on the order in which the journal lists its findings |
| Fleet.NothingOverflows | internal/managed/sync.go:103-105 | the redaction of findings that scans feed never fails |
| PolicyLedger.PolicyRevisionLedger.Observe | internal/managed/policy.go:315-353 | the loop over entries with its in-place update, or the append and sort |
| PolicyLedger.PolicyRevisionLedger.VerifyCurrent | internal/managed/policy.go:355-373 | accepts exactly the entry recalled for the document's id |
| PolicyLedger.PolicyRevisionLedger.Validate | internal/managed/policy.go:292-313 | accepts exactly the valid ledgers |
| PolicyLedger.ObserveMeaning | internal/managed/policy.go:315-353 | exactly when an observation is a rollback, an equivocation or out of room; otherwise the ledger recalls this entry, every other id as before, and stays valid |
| PolicyLedger.LedgerStaysSorted | internal/managed/policy.go:338-352 | a ledger in id order stays in id order, and a new id is added to the entries there were |
| PolicyCache.StateDirectory.PersistVerifiedPolicy | internal/managed/policy.go:115-213 | the two writes, their order and the errors before them |
| PolicyCache.StateDirectory.LoadPolicy | internal/managed/policy.go:53-73 | the checks on policy file and ledger file |
| PolicyCache.PersistTouchesOnlyChanges | internal/managed/policy.go:115-213 | an accepted persist leaves the document and its entry on disk, and rewrites neither file without need |
| PolicyCacheRuns.HighestNeverFalls | internal/managed/policy.go:115-213 | over every interleaving of writers, crashes and readers no entry disappears and no highest revision falls; while it stays, so does its digest |
| PolicyCacheRuns.LoadedIsCurrent | internal/managed/policy.go:53-73 | a returned document is genuine and the ledger's current entry at the moment the ledger is read |
| PolicyCacheRuns.NeitherRollbackNorEquivocation | internal/managed/policy.go:53-213 | of two documents of one id installed or returned, the later has a higher revision or is the same, unless they collide |
| PolicyCacheRuns.RetryServesInterrupted | internal/managed/policy.go:115-213 | persisting again after a crash between the writes ends like one uninterrupted persist, and the load then returns the document |
| PolicyCacheRuns.PersistFailsExactly | internal/managed/policy.go:115-213 | exactly when persisting fails, and that it then changes nothing |
| PolicyProtocol.NoFalseRejection | internal/managed/policy.go:315-353 | over every interleaving of controller transactions with fetches, losses and crashes, a served policy is never taken for a rollback or an equivocation unless its id was deleted and created again |
| PolicyProtocol.DeliveredPolicyIsServed | internal/controller/store.go:861-883 | a delivered policy is what the agent then loads, and the controller has not gone back behind it |
| PolicyProtocol.PolicyRowMoves | internal/controller/store.go:602-733 | a transaction leaves a policy row alone, raises its revision by one, deletes it or creates it |
| PolicyProtocol.RecreationIsRejected | internal/managed/policy.go:327-335 | a policy created again at revision 1 is taken for a rollback, or an equivocation, by every agent that cached it |
| PolicyProtocol.RecreationHappens | internal/controller/store.go:602-733 | a run from empty stores, by administration, one enrollment and one delivery, after which the agent takes the recreated policy for a rollback |
| IntelCanonical.IdentityIsSortKey | internal/intel/canonical.go:144-262 | an accepted record's duplicate key is its sort key |
| IntelCanonical.CanonicalRecordIsStable | internal/intel/canonical.go:144-262 | a canonical record is its own canonical form |
| IntelRecords.CanonicalExactly | internal/intel/canonical.go:144-262 | exactly the well-formed records whose form fits the size limit are accepted; the form is the record with lower-case hash and ecosystem and sorted constraints |
| IntelRecords.KeysIdentify | internal/intel/canonical.go:241-262 | exactly when two records share a duplicate key |
| IntelRecords.ColonsCollide | internal/intel/canonical.go:129-136 | two different packages, the second of which is refused as a duplicate |
| IntelCanonical.CollectRecords | internal/intel/canonical.go:120-142 | the loop with its map of identities and its sort computes the canonical records or the first error |
| IntelCanonical.CollectExact | internal/intel/canonical.go:120-142 | it succeeds exactly when every record has a canonical form and no two share a key |
| IntelRecords.CanonicalRecordsExactly | internal/intel/canonical.go:120-142 | the records of a bundle are accepted exactly when each is and no two forms share a key, and become the forms in key order |
| IntelRecords.LimitsExactly | internal/intel/canonical.go:52-70 | which limits are accepted, and the defaults |
| IntelCanonical.CanonicalRecordsAreSorted | internal/intel/canonical.go:120-142 | canonical records are strictly sorted, have unique keys and are each in canonical form |
| IntelCanonical.CanonicalRecordsAreStable | internal/intel/canonical.go:120-142 | canonicalizing again changes nothing |
| IntelCanonical.CanonicalRecordsForgetOrder | internal/intel/canonical.go:120-262 | the order of the records and of their constraints does not matter |
| IntelSign.PrepareIsStable | internal/intel/canonical.go:72-93 | preparing a bundle is idempotent |
| IntelSign.SignsExactly | internal/intel/sign.go:13-54 | exactly when signing succeeds, and that it signs the given id, sequence, times, agent schema and records, with schema and key filled in |
| IntelSign.SignForgetsOrder | internal/intel/sign.go:13-54 | signing does not see the order of records and constraints |
| IntelSign.CanonicalizeSigned | internal/intel/sign.go:58-78 | canonicalizing a signed bundle reproduces the signed bytes |
| IntelSign.CanonicalizesExactly | internal/intel/sign.go:58-78 | exactly which bundles are canonicalized, and to what |
| IntelSign.SignThenVerify | internal/intel/sign.go:80-174 | what was signed verifies exactly when the key is pinned, the time lies in the skewed window, the agent schema suffices and the sequence rule allows it |
| IntelSign.SignedRefusals | internal/intel/sign.go:80-174 | why a signed bundle is refused: each check has its own answer, in this order |
| IntelSign.TamperingIsNamed | internal/intel/sign.go:80-113 | a signed bundle written in another way is refused as not canonical, and one with other records for its payload |
| IntelSign.AcceptedMeans | internal/intel/sign.go:80-174 | accepted bytes are the encoding of a prepared bundle with its own digest, signed by a pinned key, in its window |
| IntelSign.OnlyCanonicalBytesVerify | internal/intel/sign.go:107-113 | of the encodings of one bundle at most the canonical one verifies |
| IntelInstall.Directory.WriteImmutableFile | internal/intel/install.go:268-312 | an existing file must hold the same content, a new one is published |
| IntelInstall.Directory.InstallBundle | internal/intel/install.go:29-117 | the install as a whole: read, decide, write the bundle, replace `current.json` |
| IntelInstall.WriteAndSync | internal/intel/install.go:343-366 | however much each write takes, a file reported complete holds the whole content and any other a prefix |
| IntelRuns.StoreIsAlwaysSound | internal/intel/install.go:29-117 | in every reachable state each file's content hashes to its name and `current.json` names a complete bundle that matches it |
| IntelRuns.ReaderGetsMatchingPair | internal/intel/install.go:122-189 | a reader that read `current.json` before any later installs and crashes gets the bundle it named |
| IntelRuns.NoRollback | internal/intel/install.go:58-117 | along every run the current sequence never decreases; while it is unchanged, so are bundle id and payload digest |
| IntelRuns.InstallSucceedsExactly | internal/intel/install.go:58-75 | exactly when an install succeeds, the caller's acceptance state included |
| IntelRuns.ReplayReplacesCurrent | internal/intel/sign.go:156-168 | other bytes with the bundle id, sequence and payload digest of the current bundle are installed as a replay and take its place |
| IntelRuns.FinalSequenceIsMaximum | internal/intel/sign.go:156-168 | installing valid bundles in any order ends with the highest sequence |
| IntelRuns.RetryConverges | internal/intel/install.go:29-117 | an interrupted install started again leaves the store of an uninterrupted one; repeating it then writes nothing |
| Planner.Planner.Add | internal/scheduler/scheduler.go:195-213 | the whole new plan, or an error |
| Planner.AddsExactly | internal/scheduler/scheduler.go:195-213 | exactly which specs are registered, and when they are first planned |
| Planner.Planner.Due | internal/scheduler/scheduler.go:215-232 | the loop over specs and the sort compute the claims and the new plan |
| Planner.ValidNeverPanics | internal/scheduler/scheduler.go:43-54 | the next time of a valid schedule lies between the interval and the interval plus the jitter |
| Planner.OffsetIsHashed | internal/scheduler/scheduler.go:43-54 | the offset of a valid schedule is the hash of key and time, reduced to the jitter |
| Planner.ClaimIsExact | internal/scheduler/scheduler.go:215-232 | each listed ripe task is claimed once, however often it is listed, and nothing else moves |
| Planner.DueExactly | internal/scheduler/scheduler.go:215-232 | for any listed specs, unvalidated: exactly when a call panics, otherwise exactly which specs it claims, in order, and which ids are still due |
| Planner.DueOnceExactly | internal/scheduler/scheduler.go:215-232 | for any listed specs: a call returns each id at most once exactly when, of each due id listed more than once, the first spec is no longer due after its claim |
| Planner.DueIsSortedAndUnique | internal/scheduler/scheduler.go:215-232 | the claims come in strict id order |
| Planner.ClaimsKeepDistance | internal/scheduler/scheduler.go:215-232 | any two claims of a task lie at least its interval apart |
| Planner.ClaimsKeepUp | internal/scheduler/scheduler.go:215-232 | polled with gaps of at most g, consecutive claims lie less than interval plus jitter plus g apart |
| Planner.LatePollClaims | internal/scheduler/scheduler.go:215-232 | a poll that lists the task after interval plus jitter since its last claim claims it |
| Planner.FirstClaim | internal/scheduler/scheduler.go:195-232 | the first claim after a registration: at once for a task that runs on start, otherwise not before the interval and by any poll after interval plus jitter |
| Planner.ZeroIntervalIsRepeated | internal/scheduler/scheduler.go:195-232 | a run: a valid task is registered, then listed n times without an interval, and returned n times |
| Planner.ListingOrderDecides | internal/scheduler/scheduler.go:195-232 | runs with two different specs of one id: both returned though neither is listed twice; a panic that depends on which is listed first |
| Coverage.Accumulator.Add | internal/scanner/contract.go:60-82 | the whole new table |
| Coverage.Accumulator.Findings | internal/scanner/contract.go:84-96 | every entry once, in strict order of the limit codes |
| Coverage.FoldSummarizes | internal/scanner/contract.go:60-82 | an entry counts its notes and keeps the largest observation and the smallest path |
| FileRead.ReadLoop | internal/scanner/executable.go:310-340 | the bounded read loop, with cancellation, errors, short and empty reads, and where it stops |
| FileRead.StopsOnce | internal/scanner/executable.go:310-340 | the file alone decides after how many reads and why the loop stops |
| FileRead.GatherIsWhatWasRead | internal/scanner/executable.go:317-340 | what the loop has gathered is what the file returned, read after read |
| Triage.HashBounded | internal/scanner/executable.go:285-350 | whatever the file does, no more than the limit is hashed; the exact outcome in terms of the reads, and exactly when the file counts as exceeding |
| Triage.ShrunkFileExceeds | internal/scanner/executable.go:341-349 | a file that is within the limit and then shrinks counts as exceeding it |
| Triage.NormalizeCandidates | internal/scanner/executable.go:260-283 | each cleaned path once, in strict order, new when any listing was |
| Triage.Examine | internal/scanner/executable.go:186-251 | one executable file: its whole turn in terms of what hashing it gives: going on, stopping or failing, counters, bytes, record and note |
| Triage.Visit | internal/scanner/executable.go:163-251 | one candidate: the same, with the checks before hashing; exactly one outcome counter moves, or the scan stops or fails |
| Triage.SkipsAreCounted | internal/scanner/executable.go:165-215 | each counter is the number of candidates of its kind |
| Triage.NotesAreExact | internal/scanner/executable.go:186-233 | the path, limit and observed size of each note |
| Triage.TurnIsJustified | internal/scanner/executable.go:149-251 | a turn fails only for a cancellation, an unreadable path or a failed hash, and stops only for the number of files or for want of bytes |
| Triage.EndIsJustified | internal/scanner/executable.go:149-251 | every turn of a run but the last goes on, and the last has such a reason to stop or fail |
| Triage.RecordsAreHashed | internal/scanner/executable.go:202-250 | every record is of an executable file within the limits, its content is what hashing the file gives, and the size fitted |
| Triage.RunsOnce | internal/scanner/executable.go:132-258 | file system and context alone decide the report |
| Triage.TriageCandidates | internal/scanner/executable.go:132-258 | the loop makes this run and fails exactly when its last turn does or the context was cancelled at the start; bytes stay within the total; on normal return every candidate considered has its outcome, but for the one at which a total-bytes limit stopped; oversize files have their notes; unvisited candidates are explained by one recorded stop |
| SecretText.InspectText | internal/scanner/secret.go:316-409 | the jumping line loop finds exactly the first findings up to the limit, or is cancelled before a line it reaches and fails with the findings up to there |
| SecretText.EveryLineOnce | internal/scanner/secret.go:328-361 | every line lies in exactly one key block or is inspected on its own, once |
| SecretText.FindingsBySegment | internal/scanner/secret.go:328-406 | the findings are those of the blocks and lines, in order |
| SecretText.FindingsExactly | internal/scanner/secret.go:328-406 | the findings without the walk: at a line of its own exactly the tokens and the assigned secret of a line that is no comment, at a key header exactly the block up to its end marker, and nothing else |
| SecretText.LineFindings | internal/scanner/secret.go:358-402 | the same for one line outside every block |
| SecretText.TokensComeFirst | internal/scanner/secret.go:365-402 | tokens in detector order, then the assigned secret |
| SecretText.SortedByPlace | internal/scanner/secret.go:406-408 | findings are sorted by line, detector and fingerprint, and none is lost |
| SecretScan.ReadBounded | internal/scanner/secret.go:447-502 | whatever the file does, no more than the limit is read; the exact outcome in terms of the reads |
| SecretScan.NormalizePaths | internal/scanner/secret.go:420-434 | the cleaned roots that are not blank, each once, in strict order |
| SecretScan.DepthCountsSlashes | internal/scanner/secret.go:436-445 | the root is at depth 0, and a path below it one deeper than its slashes |
| SecretScan.KeepFindings | internal/scanner/secret.go:275-294 | a file's findings are taken over whole, or up to the limit, which is then noted; a cancelled inspection fails |
| SecretScan.ScanFile | internal/scanner/secret.go:226-294 | one regular file: its whole turn in terms of what reading and inspecting it gives |
| SecretScan.Walk | internal/scanner/secret.go:181-295 | one call of the walk function: its whole turn, with the checks before reading; it keeps the books |
| SecretScan.NotesAreExact | internal/scanner/secret.go:195-292 | the path, limit and observed value of each note |
| SecretScan.TurnIsJustified | internal/scanner/secret.go:181-295 | a call fails only for a cancellation, an entry that cannot be inspected or a file that cannot be read, and halts only for the number of files, for want of bytes or for too many findings |
| SecretScan.EndIsJustified | internal/scanner/secret.go:169-307 | every call of a run but the last goes on, and the last has such a reason to halt or fail |
| SecretScan.FilesAreVisited | internal/scanner/secret.go:176-274 | the scanned files are visited regular files within depth and size, and their texts are what reading them gives |
| SecretScan.ScanRoots | internal/scanner/secret.go:159-314 | the loops make this run and fail exactly when its last call does or the context was cancelled at the start; the books of a whole scan: byte, file and finding budgets, one outcome per file, one recorded stop for anything unvisited, no path twice, no finding lost below the limit |

## Left out

- The SQL engine, drivers, migrations and pragmas; kept are the guards of the WHERE clauses, uniqueness, foreign keys
  and the append-only log. AUTOINCREMENT hands out consecutive ids here, because failed inserts roll back.
- Unsigned integers above 2^63-1, which the SQL driver refuses; finding counts wrap at 2^64 as in the code.
- Time zones (times are instants) and the years outside 0000 to 9999 that RFC 3339 text cannot express.
- File modes, symlink and same-inode checks, fsync, temporary files, and the retries of a reader whose file is replaced
  while it opens it.
- HTTP, TLS, authentication headers, retries and response limits between agent and controller; a request that fails on
  the way is a step that does not happen.
- Encoded byte sizes of ledger, policy and report files; those of bundles and records are function values.
- `internal/profile`, role ranks, header and label validators beyond what the modelled checks use; queries that only
  list rows.
- The regular expressions, entropy and fingerprints of the secret detectors, package ownership and the triage signals:
  function values, or not part of the records here.
- `filepath.WalkDir`: the calls it makes below a root are a function value; the secret scan is proved for every such
  function.
- Several processes updating one intelligence directory, which docs/offline-intelligence.md:159-161 excludes.
- A retry of an ingestion after other scans were ingested in between, for which the code promises no finding state.
- Error texts; errors are told apart by kind, and by line or index where the code reports one.
- sort.Slice leaves its algorithm open; sorts are written as one insertion sort, and where keys are distinct the outcome
  is proved not to depend on that.
- FileRead.ReadLoop: a file that from some read on returns no data, no end and no error for ever, uncancelled, is
  excluded, because the code's loop does not end on it either.
- Triage.HashBounded: the same exclusion.
- SecretScan.ReadBounded: the same exclusion.
- FleetRuns.FleetViewAgrees: one agent reports for the device, and only ingestion records sightings, as in the code.
- IntelRuns.ReaderGetsMatchingPair: readers and installers use the same limits.
