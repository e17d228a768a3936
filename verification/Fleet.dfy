/** One agent's journal and the controller's table of its device: what a listing redacts to, and what
    storing the rows does. */
module Fleet {
  import opened Ordering
  import opened Instants
  import opened Model
  import opened Journal
  import opened JournalRuns
  import opened Scan
  import opened Ingest
  import opened IngestRuns
  import opened Contracts
  import opened Redact
  import C = Controller

  /** `listing` holds each current finding once. */
  ghost predicate IsListing(findings: map<string, Finding>, listing: seq<Finding>) {
    && |listing| == |findings|
    && (forall id :: id in findings ==> findings[id] in listing)
    && (forall f :: f in listing ==> f.id in findings && findings[f.id] == f)
    && (forall i, j :: 0 <= i < j < |listing| ==> listing[i].id != listing[j].id)
  }

  function ReportOf(at: Time, rows: seq<RedactedFinding>): Report { Report(REPORT_SCHEMA, 1, at, rows) }

  /** The rows are the redaction of the findings in some listing order. */
  ghost predicate Redacts(findings: map<string, Finding>, listing: seq<Finding>, rows: seq<RedactedFinding>) {
    IsListing(findings, listing) && Aggregate(listing).Some? && Lists(Aggregate(listing).value, rows)
  }

  /** A finding that scans feed: its id spells its category and detector. */
  ghost predicate NamedByScan(f: Finding) {
    && ValidIdentifier(f.category) && ValidIdentifier(f.detectorID)
    && f.id == "check:" + f.category + "/" + f.detectorID
  }

  /** Sightings come from scans; other events may come from anyone. */
  ghost predicate WellNamed(e: Event) {
    e.kind == OBSERVED && DecodeObservation(e).Ok? ==>
      var o := DecodeObservation(e).value;
      ValidIdentifier(o.category) && ValidIdentifier(o.detectorID)
      && e.findingID == "check:" + o.category + "/" + o.detectorID
  }

  // ----- findings keep their names -----

  ghost predicate Named(t: Tables) { forall id :: id in t.findings ==> NamedByScan(t.findings[id]) }

  /** No finding disappears, and none changes detector or category. */
  ghost predicate KeepsNames(a: Tables, b: Tables) {
    forall id :: id in a.findings ==>
      && id in b.findings
      && b.findings[id].detectorID == a.findings[id].detectorID
      && b.findings[id].category == a.findings[id].category
  }

  ghost predicate SoundAgent(t: Tables) { Consistent(t) && Named(t) }

  lemma NextNames(current: Option<Finding>, r: Record)
    requires WellNamed(r.event) && NextFinding(current, r).Ok?
    requires current.Some? ==> NamedByScan(current.value) && current.value.id == r.event.findingID
    ensures NamedByScan(NextFinding(current, r).value)
    ensures NextFinding(current, r).value.id == r.event.findingID
  {
    hide ValidIdentifier, ValidObservation, Blank;
  }

  lemma SameIDSameNames(f: Finding, g: Finding)
    requires NamedByScan(f) && NamedByScan(g) && f.id == g.id
    ensures f.detectorID == g.detectorID && f.category == g.category
  {
    hide ValidIdentifier;
    ResultNamed(f);
    ResultNamed(g);
    FindingIDInjective(NamesakeOf(f), NamesakeOf(g));
  }

  function NamesakeOf(f: Finding): CheckResult {
    CheckResult(f.category, f.detectorID, StatusOK, Info, "", "", "")
  }

  lemma ResultNamed(f: Finding)
    requires NamedByScan(f)
    ensures FindingID(NamesakeOf(f)) == f.id
  {
  }

  lemma AppendKeepsNames(t: Tables, e: Event)
    requires SoundAgent(t) && WellNamed(e)
    ensures SoundAgent(AppendEvent(t, e).0) && KeepsNames(t, AppendEvent(t, e).0)
  {
    hide Consistent, ProjectFinding, NextFinding, ValidFinding, NamedByScan, WellNamed, ValidateEvent, IsLifecycle, Blank, FindEvent;
    AppendKeepsConsistent(t, e);
    StoredUnderOwnName(t);
    var t' := AppendEvent(t, e).0;
    var r := Record(|t.log| + 1, e);
    if t'.findings != t.findings {
      ProjectionShape(t.findings, r);
      var id := e.findingID;
      NextNames(Lookup(t.findings, id), r);
      if id in t.findings { SameIDSameNames(t.findings[id], t'.findings[id]); }
    }
  }

  lemma KeepsNamesTransitive(a: Tables, b: Tables, c: Tables)
    requires KeepsNames(a, b) && KeepsNames(b, c)
    ensures KeepsNames(a, c)
  {
  }

  lemma TaskEventIsWellNamed(x: Context, task: Task)
    requires Lawful(x.codec) && TaskFits(x, task)
    ensures WellNamed(EventOf(x, task))
  {
    hide ValidIdentifier, ValidToken, ValidGuide, EventID;
    assert CHECK_RESULT[0] == 'c' && SCAN_COMPLETED[0] == 's' && OBSERVED[0] == 'f';
    assert OBSERVED[8] == 'o' && RESOLVED[8] == 'r';
  }

  lemma {:induction false} RunTasksKeepNames(t: Tables, x: Context, tasks: seq<Task>)
    requires SoundAgent(t) && Lawful(x.codec) && TasksFit(x, tasks)
    ensures SoundAgent(RunTasks(t, x, tasks).0) && KeepsNames(t, RunTasks(t, x, tasks).0)
    decreases |tasks|
  {
    hide DoTask, SoundAgent, Lawful, TaskFits, Apart, AppendEvent, WellNamed;
    if tasks != [] {
      var t' := DoTask(t, x, tasks[0]).0;
      TaskEventIsWellNamed(x, tasks[0]);
      TaskShape(t, x, tasks[0]);
      AppendKeepsNames(t, EventOf(x, tasks[0]));
      RunTasksKeepNames(t', x, tasks[1..]);
      KeepsNamesTransitive(t, t', RunTasks(t', x, tasks[1..]).0);
    }
  }

  lemma IngestKeepsNames(t: Tables, c: Codec, s: ScanSnapshot)
    requires SoundAgent(t) && Lawful(c)
    ensures SoundAgent(IngestScan(t, c, s).0) && KeepsNames(t, IngestScan(t, c, s).0)
  {
    hide SoundAgent, Lawful, RunTasks, ValidSnapshot, TasksOf, MarkerOf, TasksFit, FindEvent;
    if ValidSnapshot(s) {
      SnapshotTasksFit(c, s);
      RunTasksKeepNames(t, ContextOf(c, s), TasksOf(c, s));
    }
  }

  // ----- the table of one device -----

  /** Every row of the device is of a group some finding belongs to. */
  ghost predicate NoStaleRows(deviceID: string, db: C.Db, t: Tables) {
    forall key :: key in db.findings && key.0 == deviceID ==> Found(t, (key.1, key.2))
  }

  /** Some current finding has these names. */
  ghost predicate Found(t: Tables, names: (string, string)) {
    exists id :: id in t.findings && NameKey(t.findings[id]) == names
  }

  ghost predicate Listed(rows: seq<RedactedFinding>, names: (string, string)) {
    exists row :: row in rows && RedactedKey(row) == names
  }

  function NameKey(f: Finding): (string, string) { (f.detectorID, CategoryOf(f)) }

  /** The device's rows are these, reported at this time, and no others. */
  ghost predicate RowsAre(db: C.Db, deviceID: string, rows: seq<RedactedFinding>, at: Time) {
    && (forall row :: row in rows ==>
          C.RowKey(deviceID, row) in db.findings
          && db.findings[C.RowKey(deviceID, row)] == C.FindingRow(row, at))
    && (forall key :: key in db.findings && key.0 == deviceID ==>
          exists row :: row in rows && C.RowKey(deviceID, row) == key)
  }

  lemma {:induction false} UpsertWrites(table: map<C.FindingKey, C.FindingRow>, deviceID: string,
                                        rows: seq<RedactedFinding>, at: Time)
    requires UniqueKeys(rows)
    ensures var after := C.Upsert(table, deviceID, rows, at);
      && (forall row :: row in rows ==>
            C.RowKey(deviceID, row) in after && after[C.RowKey(deviceID, row)] == C.FindingRow(row, at))
      && (forall key :: key in after && key !in table ==> exists row :: row in rows && C.RowKey(deviceID, row) == key)
      && (forall key :: key in table ==> key in after)
      && (forall key :: key in table && (forall row :: row in rows ==> C.RowKey(deviceID, row) != key) ==>
            after[key] == table[key])
  {
    if rows != [] {
      var front, last := rows[..|rows| - 1], rows[|rows| - 1];
      assert rows == front + [last];
      UpsertWrites(table, deviceID, front, at);
      forall row | row in front ensures C.RowKey(deviceID, row) != C.RowKey(deviceID, last) {
        var i :| 0 <= i < |front| && front[i] == row;
        assert RedactedKey(rows[i]) != RedactedKey(rows[|rows| - 1]);
      }
    }
  }

  /** Transactions other than the device's own reports leave its rows alone. */
  lemma OthersKeepRows(db: C.Db, sha: string -> string, op: C.Op, deviceID: string)
    requires !(op.SyncReport? && op.deviceID == deviceID)
    ensures var db' := C.Apply(db, sha, op).0;
      forall key: C.FindingKey :: key.0 == deviceID ==>
        (key in db'.findings <==> key in db.findings)
        && (key in db.findings ==> db'.findings[key] == db.findings[key])
  {
    hide ValidName, ValidPolicy, ValidDeviceMetadata, ValidReport, StrLess, TimeText, C.Upsert;
    if op.SyncReport? && C.Apply(db, sha, op).1.None? {
      ReportHasUniqueKeys(op.report, op.now);
      UpsertWrites(db.findings, op.deviceID, op.report.findings, op.report.reportedAt);
    }
  }

  lemma ReportHasUniqueKeys(report: Report, now: Time)
    requires ValidReport(report, now)
    ensures UniqueKeys(report.findings)
  {
  }

  lemma HeartbeatKeepsRows(db: C.Db, sha: string -> string, deviceID: string, metadata: DeviceMetadata, now: nat)
    ensures var (db', error) := C.Apply(db, sha, C.Op.Heartbeat(deviceID, metadata, now));
      && db'.findings == db.findings
      && (error.Some? ==> db' == db)
      && (error.None? <==> ValidDeviceMetadata(metadata) && C.Active(db, deviceID))
      && (error.None? ==> C.Active(db', deviceID) && C.PolicyForDevice(db', deviceID) == C.PolicyForDevice(db, deviceID))
  {
    hide ValidDeviceMetadata, TimeText;
  }

  lemma SubmitStores(db: C.Db, sha: string -> string, deviceID: string, report: Report, now: nat)
    ensures var (db', error) := C.Apply(db, sha, C.Op.SyncReport(deviceID, report, now));
      && (error.None? <==> ValidReport(report, now) && C.Active(db, deviceID))
      && db'.findings == (if error.None? then C.Upsert(db.findings, deviceID, report.findings, report.reportedAt)
                          else db.findings)
  {
    hide ValidReport, C.Upsert, TimeText;
  }

  // ----- what a listing redacts to -----

  lemma RowHasFinding(t: Tables, listing: seq<Finding>, rows: seq<RedactedFinding>, row: RedactedFinding)
    requires Redacts(t.findings, listing, rows)
    requires row in rows
    ensures Found(t, RedactedKey(row))
  {
    hide Aggregate, StrictlySorted, CategoryOf, GroupKey, Summary;
    var groups := Aggregate(listing).value;
    AggregateSummarizes(listing);
    var key :| key in groups && groups[key] == row;
    var f := SummaryNamedBy(listing, key, row);
    assert t.findings[f.id] == f;
  }

  lemma FindingHasRow(t: Tables, listing: seq<Finding>, rows: seq<RedactedFinding>, f: Finding)
    requires Redacts(t.findings, listing, rows)
    requires Named(t) && f in listing
    ensures Listed(rows, NameKey(f))
  {
    hide Aggregate, StrictlySorted, CategoryOf, GroupKey, Summary, NamedByScan;
    var groups := Aggregate(listing).value;
    AggregateSummarizes(listing);
    var row := groups[GroupKey(f)];
    var g := SummaryNamedBy(listing, GroupKey(f), row);
    PlainNames(t.findings[f.id]);
    PlainNames(t.findings[g.id]);
    KeyNamesGroup(f, g);
    assert row in rows;
  }

  /** The rows cover exactly the names of the current findings. */
  lemma RowsCoverFindings(t: Tables, listing: seq<Finding>, rows: seq<RedactedFinding>)
    requires Redacts(t.findings, listing, rows)
    requires Named(t)
    ensures forall names :: Found(t, names) <==> Listed(rows, names)
  {
    hide Aggregate, Lists, NamedByScan, NameKey, Named;
    forall names ensures Found(t, names) <==> Listed(rows, names) {
      if Found(t, names) {
        var id :| id in t.findings && NameKey(t.findings[id]) == names;
        FindingHasRow(t, listing, rows, t.findings[id]);
      }
      if Listed(rows, names) {
        var row :| row in rows && RedactedKey(row) == names;
        RowHasFinding(t, listing, rows, row);
      }
    }
  }

  lemma SummaryNamedBy(listing: seq<Finding>, key: string, row: RedactedFinding) returns (f: Finding)
    requires Summary(listing, key, row)
    ensures f in listing && GroupKey(f) == key && NameKey(f) == RedactedKey(row)
  {
    hide GroupKey, CategoryOf;
    f :| Member(listing, key, f) && f.detectorID == row.detectorID && CategoryOf(f) == row.category;
  }

  lemma PlainNames(f: Finding)
    requires NamedByScan(f)
    ensures FreeOf(SEPARATOR, f.detectorID) && ValidName(f.detectorID) && ValidName(CategoryOf(f))
    ensures CategoryOf(f) == f.category
  {
    IdentifierIsPlain(f.detectorID);
  }

  /** Findings that keep their names keep the rows from going stale. */
  lemma RowsStayFresh(deviceID: string, db: C.Db, a: Tables, b: Tables)
    requires NoStaleRows(deviceID, db, a) && KeepsNames(a, b)
    ensures NoStaleRows(deviceID, db, b)
  {
    forall key | key in db.findings && key.0 == deviceID ensures Found(b, (key.1, key.2)) {
      var id :| id in a.findings && NameKey(a.findings[id]) == (key.1, key.2);
      assert NameKey(b.findings[id]) == (key.1, key.2);
    }
  }

  /** Storing the redaction of findings that cover the old rows leaves exactly the new rows. */
  lemma ReportReplacesRows(deviceID: string, db: C.Db, t: Tables, listing: seq<Finding>,
                           rows: seq<RedactedFinding>, at: Time)
    requires SoundAgent(t) && NoStaleRows(deviceID, db, t) && Redacts(t.findings, listing, rows)
    ensures var after := db.(findings := C.Upsert(db.findings, deviceID, rows, at));
      RowsAre(after, deviceID, rows, at) && NoStaleRows(deviceID, after, t)
  {
    hide C.Upsert, Consistent, Redacts, Found, Named;
    RedactedKeysAreUnique(t.findings, listing, rows);
    UpsertWrites(db.findings, deviceID, rows, at);
    RowsCoverFindings(t, listing, rows);
    var after := C.Upsert(db.findings, deviceID, rows, at);
    forall key | key in after && key.0 == deviceID
      ensures exists row :: row in rows && C.RowKey(deviceID, row) == key
    {
      if key in db.findings {
        assert Found(t, (key.1, key.2));
        var row :| row in rows && RedactedKey(row) == (key.1, key.2);
        assert C.RowKey(deviceID, row) == key;
      }
    }
    forall key | key in after && key.0 == deviceID ensures Found(t, (key.1, key.2)) {
      var row :| row in rows && C.RowKey(deviceID, row) == key;
      assert Listed(rows, (key.1, key.2));
    }
  }

  lemma RedactedKeysAreUnique(findings: map<string, Finding>, listing: seq<Finding>, rows: seq<RedactedFinding>)
    requires Redacts(findings, listing, rows)
    ensures UniqueKeys(rows)
  {
    hide Aggregate, IsListing;
    SortedKeysAreUnique(rows);
  }

  // ----- what a sound journal reports -----

  /** What the closed form of the projection gives the report checks. */
  lemma StoredAreReportable(t: Tables)
    requires Consistent(t)
    ensures forall id :: id in t.findings ==> Reportable(t.findings[id]) && t.findings[id].id == id
  {
    hide ValidFinding, ValidateEvent, Replay;
    StoredUnderOwnName(t);
    ViewHasClosedForm(t.log);
    forall id | id in t.findings ensures Reportable(t.findings[id]) {
      SpanIsOrdered(t.log, id, t.findings[id]);
    }
  }

  lemma SpanIsOrdered(log: seq<Record>, id: string, f: Finding)
    requires Describes(log, id, f)
    ensures f.firstSeen <= f.lastSeen
  {
    hide UpdatedAt, Latest, LatestReport, ReportOf, LifecycleFields, Sightings;
  }

  /** The redacted rows of a sound journal are only refused for their number or the clock. */
  lemma RowsAreReportable(t: Tables, listing: seq<Finding>, rows: seq<RedactedFinding>, at: Time, now: Time)
    requires SoundAgent(t) && Redacts(t.findings, listing, rows)
    ensures ValidReport(ReportOf(at, rows), now) <==>
      && at != ZERO_TIME && at <= now + FIVE_MINUTES && |rows| <= MAX_REPORT_FINDINGS
      && (forall id :: id in t.findings ==> t.findings[id].lastSeen <= at + FIVE_MINUTES)
  {
    hide Aggregate, Lists, Reportable, ValidName, CategoryOf, ValidReport, Consistent, NamedByScan;
    StoredAreReportable(t);
    forall f | f in listing
      ensures Reportable(f) && FreeOf(SEPARATOR, f.detectorID) && ValidName(f.detectorID) && ValidName(CategoryOf(f))
    {
      assert t.findings[f.id] == f;
      PlainNames(f);
    }
    ReportValidity(listing, rows, at, now);
  }

  /** The rows do not depend on the order in which the journal lists its findings. */
  lemma ListingOrderIsForgotten(t: Tables, a: seq<Finding>, b: seq<Finding>,
                                r: seq<RedactedFinding>, s: seq<RedactedFinding>)
    requires SoundAgent(t) && IsListing(t.findings, a) && IsListing(t.findings, b)
    ensures Aggregate(a) == Aggregate(b)
    ensures Aggregate(a).Some? && Lists(Aggregate(a).value, r) && Lists(Aggregate(b).value, s) ==> r == s
  {
    hide Aggregate, Lists, Consistent, NamedByScan, Reportable, Describes, ValidFinding;
    ListingsPermute(t.findings, a, b);
    StoredAreReportable(t);
    forall f | f in a ensures FreeOf(SEPARATOR, f.detectorID) && f.severity.Valid() && f.occurrences <= MAX_UINT64 {
      assert t.findings[f.id] == f;
      PlainNames(f);
      ReportableSeverity(f);
      StoredCount(t, f.id);
    }
    NulFreeKeysNameGroups(a);
    RedactionForgetsOrder(a, b);
    if Aggregate(a).Some? && Lists(Aggregate(a).value, r) && Lists(Aggregate(b).value, s) {
      ListingIsUnique(Aggregate(a).value, r, s);
    }
  }

  lemma ReportableSeverity(f: Finding)
    requires Reportable(f)
    ensures f.severity.Valid()
  {
    hide Blank;
  }

  /** Counts stay far below the 64-bit limit. */
  lemma StoredCount(t: Tables, id: string)
    requires Consistent(t) && id in t.findings
    ensures t.findings[id].occurrences <= MAX_UINT64
  {
    hide Replay, ValidateEvent, FirstSeenAt, LastSeenAt, UpdatedAt, Latest, LatestReport, Redact.MAX_UINT64;
    ViewHasClosedForm(t.log);
    SightingsBounded(t.log, id);
    SequencesFit();
  }

  lemma SequencesFit()
    ensures MAX_SEQUENCE <= MAX_UINT64
  {
  }

  lemma ListingsPermute(findings: map<string, Finding>, a: seq<Finding>, b: seq<Finding>)
    requires IsListing(findings, a) && IsListing(findings, b)
    ensures multiset(a) == multiset(b)
  {
    DistinctIDsOnce(a);
    DistinctIDsOnce(b);
    forall f ensures multiset(a)[f] == multiset(b)[f] {
      assert f in a <==> f in multiset(a);
      assert f in b <==> f in multiset(b);
    }
  }

  lemma {:induction false} DistinctIDsOnce(s: seq<Finding>)
    requires forall i, j :: 0 <= i < j < |s| ==> s[i].id != s[j].id
    ensures forall f :: multiset(s)[f] <= 1
  {
    if s != [] {
      var front, last := s[..|s| - 1], s[|s| - 1];
      assert s == front + [last];
      DistinctIDsOnce(front);
      assert last !in front;
      assert last !in multiset(front);
    }
  }

  /** Scan-fed findings of one group are one finding, so no count can overflow. */
  lemma NothingOverflows(t: Tables, listing: seq<Finding>)
    requires SoundAgent(t) && IsListing(t.findings, listing)
    ensures Aggregate(listing).Some?
  {
    hide Aggregate, Consistent, NamedByScan, Reportable, GroupKey;
    StoredAreReportable(t);
    forall f | f in listing ensures f.occurrences <= MAX_UINT64 {
      assert t.findings[f.id] == f;
      StoredCount(t, f.id);
    }
    forall f, g | f in listing && g in listing && GroupKey(f) == GroupKey(g) ensures f.id == g.id {
      assert t.findings[f.id] == f && t.findings[g.id] == g;
      GroupIsOneFinding(f, g);
    }
    forall key ensures Total(listing, key) <= MAX_UINT64 { SingleTotal(listing, key); }
    OverflowExact(listing);
  }

  lemma GroupIsOneFinding(f: Finding, g: Finding)
    requires NamedByScan(f) && NamedByScan(g) && GroupKey(f) == GroupKey(g)
    ensures f.id == g.id
  {
    hide GroupKey;
    PlainNames(f);
    PlainNames(g);
    KeyNamesGroup(f, g);
  }

  lemma {:induction false} SingleTotal(listing: seq<Finding>, key: string)
    requires forall i, j :: 0 <= i < j < |listing| ==> listing[i].id != listing[j].id
    requires forall f, g :: f in listing && g in listing && GroupKey(f) == GroupKey(g) ==> f.id == g.id
    requires Counted(listing)
    ensures Total(listing, key) <= MAX_UINT64
  {
    hide GroupKey;
    if listing != [] {
      var front, last := listing[..|listing| - 1], listing[|listing| - 1];
      assert listing == front + [last];
      assert last in listing;
      if GroupKey(last) == key {
        forall f | f in front ensures GroupKey(f) != key { assert f in listing; }
        NoMemberNoTotal(front, key);
      } else {
        SingleTotal(front, key);
      }
    }
  }
}
