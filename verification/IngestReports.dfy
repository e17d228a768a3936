/** What a finished ingestion has logged: an event for every row, an observation for every alarming one, and
    the marker with the counts. */
module IngestReports {
  import opened Model
  import opened Journal
  import opened JournalRuns
  import opened Scan
  import opened Ingest
  import opened IngestRuns
  import opened IngestEffect

  // ----- counts -----

  ghost function RowsWith(results: seq<CheckResult>, status: CheckStatus): set<nat> {
    set i: nat | i < |results| && results[i].status == status
  }

  /** Each field counts the rows of its status. */
  ghost predicate Counts(c: ScanCounts, results: seq<CheckResult>) {
    && c.ok == |RowsWith(results, StatusOK)| && c.warn == |RowsWith(results, StatusWarn)|
    && c.critical == |RowsWith(results, StatusCritical)| && c.skipped == |RowsWith(results, StatusSkip)|
    && c.error == |RowsWith(results, StatusError)|
  }

  lemma {:induction false} CountsRows(results: seq<CheckResult>, status: CheckStatus)
    ensures CountStatus(results, status) == |RowsWith(results, status)|
  {
    if results == [] {
      assert RowsWith(results, status) == {};
    } else {
      var n := |results| - 1;
      CountsRows(results[..n], status);
      var before := RowsWith(results[..n], status);
      assert n !in before;
      if results[n].status == status {
        assert RowsWith(results, status) == before + {n};
      } else {
        assert RowsWith(results, status) == before;
      }
    }
  }

  lemma {:induction false} AllCounted(results: seq<CheckResult>)
    requires forall r :: r in results ==> !r.status.OtherStatus?
    ensures var c := CountsOf(results); c.ok + c.warn + c.critical + c.skipped + c.error == |results|
  {
    if results != [] {
      assert results == results[..|results| - 1] + [results[|results| - 1]];
      AllCounted(results[..|results| - 1]);
    }
  }

  /** The counts of a snapshot are those of its rows, and of a valid one add up to them all. */
  lemma CountsAreExact(results: seq<CheckResult>)
    ensures Counts(CountsOf(results), results)
    ensures (forall r :: r in results ==> ValidResult(r)) ==>
      var c := CountsOf(results); c.ok + c.warn + c.critical + c.skipped + c.error == |results|
  {
    hide ValidIdentifier, ValidToken, ValidGuide;
    CountsRows(results, StatusOK);
    CountsRows(results, StatusWarn);
    CountsRows(results, StatusCritical);
    CountsRows(results, StatusSkip);
    CountsRows(results, StatusError);
    if forall r :: r in results ==> ValidResult(r) { AllCounted(results); }
  }

  // ----- the answer -----

  /** The answer names the snapshot by its digest, as the events do, counts its rows, and says whether the
      marker was already there. */
  lemma AnswerMeans(t: Tables, c: Codec, s: ScanSnapshot)
    requires IngestScan(t, c, s).1.Ok?
    ensures ValidSnapshot(s)
    ensures var answer, digest := IngestScan(t, c, s).1.value, c.digest(Canonical(s));
      && answer.snapshotID == "sha256:" + digest && answer.correlationID == "scan:" + digest
      && answer.results == |s.results|
      && (answer.alreadyIngested <==> FindEvent(t.log, MarkerOf(c, s).id).Some?)
    ensures IngestScan(t, c, s).1.value.alreadyIngested ==> IngestScan(t, c, s).0 == t
  {
    hide RunTasks, Canonical, ValidSnapshot, MarkerOf, FindEvent, TasksOf;
  }

  // ----- events -----

  /** What every event of a scan has in common: it happened, and was recorded, when the scan was
      updated. */
  ghost predicate FromScan(e: Event, c: Codec, s: ScanSnapshot) {
    && e.schema == "io.oh-my-safety/event" && e.schemaVersion == 1
    && e.occurredAt == s.metadata.updatedAt && e.recordedAt == s.metadata.updatedAt
    && e.source == s.metadata.source && e.platform == s.metadata.platform
    && e.correlationID == "scan:" + c.digest(Canonical(s))
  }

  ghost predicate AboutRow(e: Event, r: CheckResult) {
    e.subject == Some(Subject("check", r.category + "/" + r.name, r.name))
  }

  /** The check event of a row. */
  ghost predicate ReportsCheck(e: Event, c: Codec, s: ScanSnapshot, r: CheckResult) {
    && FromScan(e, c, s) && AboutRow(e, r) && e.kind == "check.result" && e.findingID == ""
    && e.id == "bridge:v1:" + c.hash("oh-my-safety:bridge:v1" + [NUL] + c.digest(Canonical(s)) + [NUL] + "check.result"
                                     + [NUL] + r.category + [NUL] + r.name)
    && e.labels.Keys == {"category", "scope", "status"} && e.labels["category"] == r.category
    && e.payload == c.encode(CheckPayload(r, s.metadata.scope))
  }

  /** The observation of an alarming row. */
  ghost predicate ReportsFinding(e: Event, c: Codec, s: ScanSnapshot, r: CheckResult) {
    && FromScan(e, c, s) && AboutRow(e, r) && e.kind == "finding.observed"
    && e.findingID == "check:" + r.category + "/" + r.name
    && e.labels.Keys == {"category", "scope"} && e.labels["category"] == r.category
    && exists o :: e.payload == c.encode(ObservationPayload(o))
  }

  /** The completion marker. */
  ghost predicate ReportsScan(e: Event, c: Codec, s: ScanSnapshot) {
    && FromScan(e, c, s) && e.kind == "scan.completed" && e.findingID == ""
    && e.subject == Some(Subject("host", "local", s.metadata.platform)) && e.labels.Keys == {"scope"}
    && exists counts :: Counts(counts, s.results) && e.payload == c.encode(CompletedPayload(s.metadata, counts))
  }

  lemma EventsReport(c: Codec, s: ScanSnapshot, r: CheckResult)
    ensures ReportsCheck(CheckEvent(ContextOf(c, s), r), c, s, r)
    ensures ReportsFinding(ObservedEvent(ContextOf(c, s), r), c, s, r)
  {
    hide Canonical;
    var digest := c.digest(Canonical(s));
    PartsJoin(digest, r.category, r.name);
  }

  lemma PartsJoin(digest: string, category: string, name: string)
    ensures "oh-my-safety:bridge:v1" + JoinNul([digest]) + JoinNul([CHECK_RESULT, category, name])
         == "oh-my-safety:bridge:v1" + [NUL] + digest + [NUL] + "check.result" + [NUL] + category + [NUL] + name
  {
    assert [CHECK_RESULT, category, name][1..] == [category, name] && [category, name][1..] == [name];
    assert [name][1..] == [] && [digest][1..] == [];
    assert JoinNul([name]) == [NUL] + name;
  }

  lemma MarkerReports(c: Codec, s: ScanSnapshot)
    ensures ReportsScan(MarkerOf(c, s), c, s)
  {
    hide EventID, Canonical, CountsOf, Counts;
    CountsAreExact(s.results);
  }

  ghost predicate Logged(t: Tables, e: Event) { exists k :: 0 <= k < |t.log| && t.log[k].event == e }

  lemma DoneIsLogged(t: Tables, x: Context, task: Task)
    requires Consistent(t) && Done(t, x, task)
    requires task.Settle? ==> Alarming(task.result.status)
    ensures Logged(t, EventOf(x, task))
  {
    hide Consistent, AppendEvent, FindEvent, CheckEvent, ObservedEvent;
    LoggedMeansIdempotent(t, EventOf(x, task));
    var record := FindEvent(t.log, EventOf(x, task).id).value;
    assert record in t.log;
  }

  /** The event of this row, and the observation if it is alarming. */
  ghost predicate RowLogged(t: Tables, c: Codec, s: ScanSnapshot, r: CheckResult) {
    && (exists e :: Logged(t, e) && ReportsCheck(e, c, s, r))
    && (Alarming(r.status) ==> exists e :: Logged(t, e) && ReportsFinding(e, c, s, r))
  }

  /** After an ingestion that was not stopped by an earlier marker, each row's check event is logged,
      each alarming row's observation, and the marker with the exact counts. */
  lemma IngestionIsLogged(t: Tables, c: Codec, s: ScanSnapshot)
    requires Consistent(t) && ValidSnapshot(s) && FindEvent(t.log, MarkerOf(c, s).id).None?
    requires IngestScan(t, c, s).1.Ok?
    ensures var t' := IngestScan(t, c, s).0;
      && (forall r :: r in s.results ==> RowLogged(t', c, s, r))
      && (exists e :: Logged(t', e) && ReportsScan(e, c, s))
  {
    hide DoTask, Consistent, AppendEvent, ValidSnapshot, MarkerOf, EnvelopeOf, RowTasks, TasksFit, FindEvent, SortResults;
    hide ReportsCheck, ReportsFinding, ReportsScan, CheckEvent, ObservedEvent, Logged;
    var x, tasks := ContextOf(c, s), TasksOf(c, s);
    var t' := RunTasks(t, x, tasks).0;
    RunKeepsConsistent(t, x, tasks);
    SnapshotTasksFit(c, s);
    RunLeavesDone(t, x, tasks);
    assert tasks[|tasks| - 1] == Complete(MarkerOf(c, s));
    DoneIsLogged(t', x, tasks[|tasks| - 1]);
    SortedHasRows(s);
    forall r | r in s.results ensures RowLogged(t', c, s, r) {
      EventsReport(c, s, r);
      RowsAreSettled(SortResults(s.results), r);
      RowsAreChecked(SortResults(s.results), r);
      assert Settle(r) in tasks && Check(r) in tasks;
      DoneIsLogged(t', x, Check(r));
      if Alarming(r.status) { DoneIsLogged(t', x, Settle(r)); }
    }
    MarkerReports(c, s);
  }

  lemma {:induction false} RowsAreChecked(results: seq<CheckResult>, r: CheckResult)
    requires r in results
    ensures Check(r) in RowTasks(results)
  {
    if r != results[|results| - 1] {
      assert results == results[..|results| - 1] + [results[|results| - 1]];
      RowsAreChecked(results[..|results| - 1], r);
    }
  }
}
