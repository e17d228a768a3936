/** What ingesting a valid snapshot does to the findings when none of its events are logged yet. */
module IngestEffect {
  import opened Ordering
  import opened Instants
  import opened Model
  import opened Journal
  import opened JournalRuns
  import opened JournalStates
  import opened Scan
  import opened Ingest
  import opened IngestRuns

  predicate Alarming(status: CheckStatus) {
    status == StatusWarn || status == StatusCritical || status == StatusError
  }

  /** The text of an alarming status. */
  function AlarmText(status: CheckStatus): string
    requires Alarming(status)
  {
    if status == StatusWarn then "warn" else if status == StatusCritical then "critical" else "error"
  }

  /** The finding's report is the row's. */
  ghost predicate Reports(f: Finding, m: ScanMetadata, r: CheckResult)
    requires Alarming(r.status)
  {
    && f.id == "check:" + r.category + "/" + r.name && f.detectorID == r.name && f.category == r.category
    && f.title == r.name + " check reported " + AlarmText(r.status) && f.summary == r.summary
    && f.severity == r.severity && f.evidence == []
    && f.labels == map["scope" := ScopeText(m.scope), "source" := m.source, "status" := AlarmText(r.status)]
    && (f.remediation.None? <==> r.remediation == "" && r.guide == "")
    && (f.remediation.Some? ==>
          && f.remediation.value.guide == r.guide && !f.remediation.value.reversible
          && f.remediation.value.summary == if r.remediation == "" then "Review the check guide." else r.remediation)
  }

  /** A sighting at this time: it opens a finding that was absent or resolved, ends a suppression whose
      time has come, and changes no other state; it is counted, and widens the span. */
  ghost predicate Sighted(before: Option<Finding>, f: Finding, at: Time) {
    match before
    case None =>
      && f.state == Open && f.occurrences == 1 && f.firstSeen == at && f.lastSeen == at && f.updatedAt == at
      && f.suppressedUntil.None? && f.acknowledgement.None? && f.resolution.None?
    case Some(g) =>
      && SightingMade(g, f, at) && f.occurrences == g.occurrences + 1
      && f.firstSeen == (if at < g.firstSeen then at else g.firstSeen)
      && f.lastSeen == (if at > g.lastSeen then at else g.lastSeen)
      && f.updatedAt == (if at > g.updatedAt then at else g.updatedAt)
  }

  /** The finding is resolved by the bridge at this time, and otherwise as it was. */
  ghost predicate ResolvedFrom(g: Finding, f: Finding, at: Time) {
    f == g.(state := Resolved, suppressedUntil := None,
            resolution := Some(Action(at, "bridge:last-scan-v1", "check returned ok")),
            updatedAt := if at > g.updatedAt then at else g.updatedAt,
            lastEventID := f.lastEventID, lastEventSequence := f.lastEventSequence)
  }

  /** The effect of one row on its finding. */
  ghost predicate Effect(before: Tables, after: Tables, m: ScanMetadata, r: CheckResult) {
    var old', now := Lookup(before.findings, FindingID(r)), Lookup(after.findings, FindingID(r));
    if Alarming(r.status) then now.Some? && Reports(now.value, m, r) && Sighted(old', now.value, m.updatedAt)
    else if r.status == StatusOK && old'.Some? && old'.value.state != Resolved then
      now.Some? && ResolvedFrom(old'.value, now.value, m.updatedAt)
    else now == old'
  }

  /** In short: an alarming row leaves its finding there and not resolved, and open when it was absent or
      resolved; an ok row leaves none, or a resolved one. */
  lemma EffectMeans(before: Tables, after: Tables, m: ScanMetadata, r: CheckResult)
    requires Effect(before, after, m, r)
    ensures var old', now := Lookup(before.findings, FindingID(r)), Lookup(after.findings, FindingID(r));
      && (Alarming(r.status) ==> now.Some? && now.value.state != Resolved)
      && (Alarming(r.status) && (old'.None? || old'.value.state == Resolved) ==> now.value.state == Open)
      && (r.status == StatusOK ==> now.None? || now.value.state == Resolved)
  {
    hide Reports, FindingID;
  }

  // ----- the bridge's events are valid -----

  lemma NotBlank(s: string)
    requires s != "" && !IsSpace(s[0])
    ensures !Blank(s)
  {
    assert s[0] in s;
  }

  lemma BlankTexts()
    ensures !Blank(OBSERVED) && !Blank(RESOLVED) && !Blank(CHECK_RESULT) && !Blank(SCAN_COMPLETED)
    ensures !Blank(RESOLUTION.actor)
  {
    hide Blank;
    NotBlank(OBSERVED);
    NotBlank(RESOLVED);
    NotBlank(CHECK_RESULT);
    NotBlank(SCAN_COMPLETED);
    NotBlank(RESOLUTION.actor);
  }

  lemma EventIDNotBlank(c: Codec, digest: string, parts: seq<string>)
    ensures !Blank(EventID(c, digest, parts))
  {
    var id := EventID(c, digest, parts);
    assert id[0] == 'b' && id[0] in id;
  }

  lemma BridgeEventIsValid(x: Context, parts: seq<string>, kind: string, findingID: string,
                           subject: Subject, labels: map<string, string>, payload: BridgePayload)
    requires Lawful(x.codec) && ValidMetadata(x.metadata) && !Blank(kind)
    ensures ValidateEvent(BridgeEvent(x, parts, kind, findingID, subject, labels, payload)).None?
  {
    hide EventID, Blank;
    EventIDNotBlank(x.codec, x.digest, parts);
    IdentifierIsPlain(x.metadata.source);
  }

  /** Every event a snapshot may append passes `Event.Validate`. */
  lemma TaskEventsAreValid(x: Context, task: Task)
    requires Lawful(x.codec) && ValidMetadata(x.metadata) && !task.Complete?
    ensures ValidateEvent(EventOf(x, task)).None?
  {
    hide ValidateEvent, Blank, EventID, Lawful, ValidMetadata;
    BlankTexts();
    var r := task.result;
    BridgeEventIsValid(x, [CHECK_RESULT, r.category, r.name], CHECK_RESULT, "", CheckSubject(r),
                       map["category" := r.category, "scope" := ScopeText(x.metadata.scope),
                           "status" := StatusText(r.status)], CheckPayload(r, x.metadata.scope));
    BridgeEventIsValid(x, [OBSERVED, r.category, r.name], OBSERVED, FindingID(r), CheckSubject(r),
                       FindingLabels(x, r), ObservationPayload(ObservationOf(x, r)));
    BridgeEventIsValid(x, [RESOLVED, r.category, r.name], RESOLVED, FindingID(r), CheckSubject(r),
                       FindingLabels(x, r), TransitionPayload(RESOLUTION));
  }

  lemma MarkerIsValid(c: Codec, s: ScanSnapshot)
    requires Lawful(c) && ValidMetadata(s.metadata)
    ensures ValidateEvent(MarkerOf(c, s)).None?
  {
    hide ValidateEvent, Blank, EventID, Lawful, ValidMetadata;
    BlankTexts();
    var x := ContextOf(c, s);
    BridgeEventIsValid(x, [SCAN_COMPLETED], SCAN_COMPLETED, "", Subject("host", "local", x.metadata.platform),
                       map["scope" := ScopeText(x.metadata.scope)], CompletedPayload(x.metadata, CountsOf(s.results)));
  }

  lemma FindingIDNotBlank(r: CheckResult)
    ensures !Blank(FindingID(r))
  {
    assert FindingID(r)[0] == 'c' && FindingID(r)[0] in FindingID(r);
  }

  lemma ObservationIsValid(x: Context, r: CheckResult)
    requires ValidResult(r)
    ensures ValidObservation(ObservationOf(x, r))
  {
    IdentifierIsPlain(r.name);
    var title := r.name + " check reported " + StatusText(r.status);
    assert title[0] == r.name[0] && title[0] in title && IdentifierChar(r.name[0]) by {
      assert r.name[0] in r.name;
    }
    assert r.summary[0] in r.summary;
  }

  // ----- appends that cannot fail -----

  ghost predicate Storable(current: Option<Finding>, id: string) {
    current.Some? ==>
      && ValidFinding(current.value) && current.value.id == id && current.value.occurrences < MAX_SEQUENCE
      && LifecycleFields(current.value)
  }

  lemma StoredIsStorable(t: Tables, id: string)
    requires Consistent(t) && |t.log| < MAX_SEQUENCE
    ensures Storable(Lookup(t.findings, id), id)
  {
    hide ValidFinding, FirstSeenAt, LastSeenAt, UpdatedAt, Latest, LatestReport;
    StoredUnderOwnName(t);
    ViewHasClosedForm(t.log);
    SightingsBounded(t.log, id);
  }

  lemma ObservationStored(current: Option<Finding>, r: Record, o: Observation)
    requires Storable(current, r.event.findingID) && r.sequence > 0
    requires ValidateEvent(r.event).None? && r.event.kind == OBSERVED && !Blank(r.event.findingID)
    requires DecodeObservation(r.event) == Ok(o) && ValidObservation(o)
    ensures NextFinding(current, r).Ok?
    ensures var f := NextFinding(current, r).value;
      && ValidFinding(f) && f.id == r.event.findingID && ReportOf(f, o)
      && (r.event.occurredAt == r.event.recordedAt ==> Sighted(current, f, r.event.recordedAt))
  {
    hide Blank;
    if current.Some? {
      SightingMakes(current.value, r);
      NextFindingMoves(current.value, r);
    }
  }

  lemma ResolutionStored(f: Finding, r: Record, note: Transition)
    requires Storable(Some(f), r.event.findingID) && f.state != Resolved && r.sequence > 0
    requires ValidateEvent(r.event).None? && r.event.kind == RESOLVED
    requires ReadTransition(r.event) == Ok(note)
    ensures NextFinding(Some(f), r).Ok?
    ensures var g := NextFinding(Some(f), r).value;
      && ValidFinding(g) && g.id == r.event.findingID
      && (note.actor == "bridge:last-scan-v1" && note.note == "check returned ok" ==>
            ResolvedFrom(f, g, r.event.recordedAt))
  {
    hide Blank;
    HeadsDiffer();
    assert RESOLVED[8] == 'r' && ACKNOWLEDGED[8] == 'a' && SUPPRESSED[8] == 's' && UNSUPPRESSED[8] == 'u';
  }

  /** Appending a fresh, valid lifecycle event whose projection is fine. */
  lemma FreshLifecycleAppend(t: Tables, e: Event, f: Finding)
    requires ValidateEvent(e).None? && IsLifecycle(e.kind) && !Blank(e.findingID)
    requires FindEvent(t.log, e.id).None? && |t.log| < MAX_SEQUENCE
    requires NextFinding(Lookup(t.findings, e.findingID), Record(|t.log| + 1, e)) == Ok(f)
    requires ValidFinding(f) && f.id == e.findingID
    ensures AppendEvent(t, e).1.Ok? && Lookup(AppendEvent(t, e).0.findings, e.findingID) == Some(f)
  {
    hide NextFinding, ValidFinding, ValidateEvent, IsLifecycle, Blank, FindEvent;
  }

  ghost predicate Ready(t: Tables, x: Context) {
    Consistent(t) && Lawful(x.codec) && ValidMetadata(x.metadata)
  }

  lemma ObservedSettles(t: Tables, x: Context, r: CheckResult)
    requires Ready(t, x) && |t.log| < MAX_SEQUENCE && ValidResult(r) && Alarming(r.status)
    requires FindEvent(t.log, ObservedEvent(x, r).id).None?
    ensures AppendEvent(t, ObservedEvent(x, r)).1.Ok?
    ensures Effect(t, AppendEvent(t, ObservedEvent(x, r)).0, x.metadata, r)
  {
    hide Consistent, ValidResult, ValidMetadata, Blank, NextFinding, ValidFinding, AppendEvent, FindEvent, ValidateEvent, EventID;
    var e := ObservedEvent(x, r);
    var o := ObservationOf(x, r);
    var record := Record(|t.log| + 1, e);
    TaskEventsAreValid(x, Settle(r));
    FindingIDNotBlank(r);
    ObservationIsValid(x, r);
    StoredIsStorable(t, FindingID(r));
    ObservationStored(Lookup(t.findings, FindingID(r)), record, o);
    FreshLifecycleAppend(t, e, NextFinding(Lookup(t.findings, FindingID(r)), record).value);
  }

  lemma ResolvedSettles(t: Tables, x: Context, r: CheckResult)
    requires Ready(t, x) && |t.log| < MAX_SEQUENCE && ValidResult(r) && r.status == StatusOK
    requires FindEvent(t.log, ResolvedEvent(x, r).id).None?
    requires Lookup(t.findings, FindingID(r)).Some? && Lookup(t.findings, FindingID(r)).value.state != Resolved
    ensures AppendEvent(t, ResolvedEvent(x, r)).1.Ok?
    ensures Effect(t, AppendEvent(t, ResolvedEvent(x, r)).0, x.metadata, r)
  {
    hide Consistent, ValidResult, ValidMetadata, Blank, NextFinding, ValidFinding, AppendEvent, FindEvent, ValidateEvent, EventID;
    var e := ResolvedEvent(x, r);
    var record := Record(|t.log| + 1, e);
    TaskEventsAreValid(x, Settle(r));
    FindingIDNotBlank(r);
    BlankTexts();
    StoredIsStorable(t, FindingID(r));
    ResolutionStored(t.findings[FindingID(r)], record, RESOLUTION);
    FreshLifecycleAppend(t, e, NextFinding(Lookup(t.findings, FindingID(r)), record).value);
  }

  lemma PlainAppend(t: Tables, e: Event)
    requires ValidateEvent(e).None? && !IsLifecycle(e.kind)
    requires FindEvent(t.log, e.id).None? && |t.log| < MAX_SEQUENCE
    ensures AppendEvent(t, e).1.Ok?
  {
    hide ValidateEvent, IsLifecycle, Blank, FindEvent;
  }

  lemma FullLogRefuses(t: Tables, e: Event)
    requires ValidateEvent(e).None? && (IsLifecycle(e.kind) ==> !Blank(e.findingID))
    requires FindEvent(t.log, e.id).None? && |t.log| >= MAX_SEQUENCE
    ensures AppendEvent(t, e) == (t, Err(JournalFull))
  {
    hide ValidateEvent, IsLifecycle, Blank, FindEvent;
  }

  /** One fresh task of a valid snapshot fails only on a full log, and otherwise has its row's
      effect. */
  lemma FreshTask(t: Tables, x: Context, task: Task)
    requires Ready(t, x) && TaskFits(x, task)
    requires task.Complete? ==> ValidateEvent(task.marker).None?
    requires FindEvent(t.log, EventOf(x, task).id).None?
    ensures DoTask(t, x, task).1.None? || (|t.log| >= MAX_SEQUENCE && DoTask(t, x, task).1 == Some(JournalFull))
    ensures DoTask(t, x, task).1.None? && task.Settle? ==> Effect(t, DoTask(t, x, task).0, x.metadata, task.result)
  {
    hide AppendEvent, Consistent, ValidMetadata, ValidateEvent, FindEvent, EventID, IsLifecycle;
    hide ObservedEvent, ResolvedEvent, CheckEvent, ValidIdentifier, ValidToken, ValidGuide;
    PlainKinds();
    if !task.Complete? {
      TaskEventsAreValid(x, task);
      FindingIDNotBlank(task.result);
      TaskKinds(x, task);
    }
    if |t.log| >= MAX_SEQUENCE {
      FullLogRefuses(t, EventOf(x, task));
    } else {
      match task {
        case Check(r) => PlainAppend(t, EventOf(x, task));
        case Complete(marker) => PlainAppend(t, marker);
        case Settle(r) =>
          if Alarming(r.status) {
            ObservedSettles(t, x, r);
          } else if r.status == StatusOK {
            var current := Lookup(t.findings, FindingID(r));
            if current.Some? && current.value.state != Resolved { ResolvedSettles(t, x, r); }
          }
      }
    }
  }

  lemma TaskKinds(x: Context, task: Task)
    requires !task.Complete?
    ensures task.Check? ==> EventOf(x, task).kind == CHECK_RESULT
    ensures task.Settle? ==> IsLifecycle(EventOf(x, task).kind) && EventOf(x, task).findingID == FindingID(task.result)
  {
    hide EventID;
  }

  // ----- the whole run -----

  ghost predicate Fresh(t: Tables, x: Context, tasks: seq<Task>) {
    forall i :: 0 <= i < |tasks| ==> FindEvent(t.log, EventOf(x, tasks[i]).id).None?
  }

  /** No task of the list settles the finding. */
  ghost predicate Untouched(tasks: seq<Task>, id: string) {
    forall i :: 0 <= i < |tasks| && tasks[i].Settle? ==> FindingID(tasks[i].result) != id
  }

  lemma FreshStays(t: Tables, x: Context, tasks: seq<Task>)
    requires Consistent(t) && Lawful(x.codec) && TasksFit(x, tasks) && tasks != [] && Fresh(t, x, tasks)
    ensures Fresh(DoTask(t, x, tasks[0]).0, x, tasks[1..])
    ensures |DoTask(t, x, tasks[0]).0.log| <= |t.log| + 1
  {
    hide DoTask, Consistent, Lawful, TaskFits, Apart, EventOf;
    var t' := DoTask(t, x, tasks[0]).0;
    TaskFrame(t, x, tasks[0]);
    forall i | 0 <= i < |tasks| - 1 ensures FindEvent(t'.log, EventOf(x, tasks[1..][i]).id).None? {
      ApartEventsDiffer(x, tasks[0], tasks[i + 1]);
      assert FindEvent(t.log, EventOf(x, tasks[i + 1]).id).None?;
      if t'.log != t.log {
        var r :| t'.log == t.log + [r] && r.event == EventOf(x, tasks[0]);
        NotFoundGrows(t.log, r, EventOf(x, tasks[i + 1]).id);
      }
    }
  }

  /** Later tasks leave a row's finding alone. */
  lemma {:induction false} UntouchedIsKept(t: Tables, x: Context, tasks: seq<Task>, id: string)
    requires Consistent(t) && TasksFit(x, tasks) && Untouched(tasks, id)
    ensures Lookup(RunTasks(t, x, tasks).0.findings, id) == Lookup(t.findings, id)
    decreases |tasks|
  {
    hide DoTask, Consistent, Apart;
    if tasks != [] {
      TaskFrame(t, x, tasks[0]);
      TaskKeepsConsistent(t, x, tasks[0]);
      assert TaskFits(x, tasks[0]);
      forall i | 0 <= i < |tasks[1..]| && tasks[1..][i].Settle? ensures FindingID(tasks[1..][i].result) != id {
        assert tasks[1..][i] == tasks[i + 1];
      }
      UntouchedIsKept(DoTask(t, x, tasks[0]).0, x, tasks[1..], id);
    }
  }

  lemma RestIsUntouched(x: Context, tasks: seq<Task>)
    requires TasksFit(x, tasks) && tasks != [] && tasks[0].Settle?
    ensures Untouched(tasks[1..], FindingID(tasks[0].result))
  {
    hide FindingID;
    forall i | 0 <= i < |tasks| - 1 && tasks[1..][i].Settle?
      ensures FindingID(tasks[1..][i].result) != FindingID(tasks[0].result)
    {
      assert Apart(tasks[0], tasks[i + 1]) && TaskFits(x, tasks[0]) && TaskFits(x, tasks[i + 1]);
      FindingIDInjective(tasks[0].result, tasks[i + 1].result);
    }
  }

  ghost predicate MarkersValid(tasks: seq<Task>) {
    forall i :: 0 <= i < |tasks| && tasks[i].Complete? ==> ValidateEvent(tasks[i].marker).None?
  }

  /** A run over fresh tasks fails only when the log is full, and otherwise gives every row its
      effect. */
  lemma {:induction false} FreshRun(t: Tables, x: Context, tasks: seq<Task>)
    requires Consistent(t) && Lawful(x.codec) && ValidMetadata(x.metadata)
    requires TasksFit(x, tasks) && MarkersValid(tasks) && Fresh(t, x, tasks)
    ensures RunTasks(t, x, tasks).1.None?
         || (|t.log| + |tasks| > MAX_SEQUENCE && RunTasks(t, x, tasks).1 == Some(JournalFull))
    ensures RunTasks(t, x, tasks).1.None? ==> forall i :: 0 <= i < |tasks| && tasks[i].Settle? ==>
      Effect(t, RunTasks(t, x, tasks).0, x.metadata, tasks[i].result)
    decreases |tasks|
  {
    hide DoTask, Consistent, TaskFits, Apart, Lawful, ValidMetadata, ValidateEvent, EventOf, Lookup, FindingID;
    if tasks != [] { FreshTask(t, x, tasks[0]); }
    if tasks != [] && DoTask(t, x, tasks[0]).1.None? {
      var task, rest := tasks[0], tasks[1..];
      var t' := DoTask(t, x, task).0;
      TaskKeepsConsistent(t, x, task);
      FreshStays(t, x, tasks);
      FreshRun(t', x, rest);
      var after := RunTasks(t', x, rest).0;
      if RunTasks(t', x, rest).1.None? {
        forall i | 0 <= i < |tasks| && tasks[i].Settle? ensures Effect(t, after, x.metadata, tasks[i].result) {
          if i == 0 {
            RestIsUntouched(x, tasks);
            UntouchedIsKept(t', x, rest, FindingID(task.result));
          } else {
            assert rest[i - 1] == tasks[i];
            assert Effect(t', after, x.metadata, tasks[i].result);
            TaskFrame(t, x, task);
            if task.Settle? {
              assert Apart(task, tasks[i]) && TaskFits(x, task) && TaskFits(x, tasks[i]);
              RowsApart(x, task, tasks[i]);
            }
            OtherTaskKeeps(t, x, task, tasks[i].result);
          }
        }
      }
    }
  }

  lemma RowsApart(x: Context, a: Task, b: Task)
    requires a.Settle? && b.Settle? && Apart(a, b) && TaskFits(x, a) && TaskFits(x, b)
    ensures FindingID(a.result) != FindingID(b.result)
  {
    SettledApart(a.result, b.result);
  }

  lemma OtherTaskKeeps(t: Tables, x: Context, task: Task, r: CheckResult)
    requires Consistent(t) && TaskFits(x, task)
    requires task.Settle? ==> FindingID(task.result) != FindingID(r)
    ensures Lookup(DoTask(t, x, task).0.findings, FindingID(r)) == Lookup(t.findings, FindingID(r))
  {
    hide DoTask, Consistent, EventID, FindingID;
    TaskFrame(t, x, task);
  }

  // ----- the theorem about one ingestion -----

  /** None of the snapshot's event ids is logged. */
  ghost predicate NewScan(t: Tables, c: Codec, s: ScanSnapshot) {
    Fresh(t, ContextOf(c, s), TasksOf(c, s))
  }

  lemma {:induction false} RowsAreSettled(results: seq<CheckResult>, r: CheckResult)
    requires r in results
    ensures Settle(r) in RowTasks(results)
  {
    if r != results[|results| - 1] {
      assert results == results[..|results| - 1] + [results[|results| - 1]];
      RowsAreSettled(results[..|results| - 1], r);
    }
  }

  lemma {:induction false} SettledAreRows(results: seq<CheckResult>, task: Task)
    requires task in RowTasks(results)
    ensures (task.Settle? || task.Check?) && task.result in results
  {
    if results != [] {
      assert results == results[..|results| - 1] + [results[|results| - 1]];
      if task in RowTasks(results[..|results| - 1]) {
        SettledAreRows(results[..|results| - 1], task);
      }
    }
  }

  lemma SortedHasRows(s: ScanSnapshot)
    requires ValidSnapshot(s)
    ensures forall r :: r in SortResults(s.results) <==> r in s.results
  {
    SortResultsSorts(s.results);
    forall r ensures r in SortResults(s.results) <==> r in s.results {
      assert r in SortResults(s.results) <==> r in multiset(SortResults(s.results));
      assert r in s.results <==> r in multiset(s.results);
    }
  }

  /** Ingesting a valid snapshot whose events are new never meets a lifecycle error: it fails only
      when the log has no room.  Afterwards each ok check's finding is absent or resolved, each warn,
      critical or error finding exists, is not resolved and carries the row's report, and the findings
      of skipped and unlisted checks are unchanged. */
  lemma IngestionEffect(t: Tables, c: Codec, s: ScanSnapshot)
    requires Consistent(t) && Lawful(c) && ValidSnapshot(s) && NewScan(t, c, s)
    ensures var (t', r) := IngestScan(t, c, s);
      && (r.Ok? || (r == Err(AppendFailed(JournalFull)) && |t.log| + 2 * |s.results| + 1 > MAX_SEQUENCE))
      && (r.Ok? ==> forall row :: row in s.results ==> Effect(t, t', s.metadata, row))
      && (r.Ok? ==> forall id :: (forall row :: row in s.results ==> FindingID(row) != id) ==>
            Lookup(t'.findings, id) == Lookup(t.findings, id))
  {
    hide DoTask, Consistent, TaskFits, Apart, Lawful, ValidMetadata, ValidateEvent, EventOf, FindingID;
    hide MarkerOf, ValidResult, ExpectedExit, SortResults, RowTasks;
    var x, tasks := ContextOf(c, s), TasksOf(c, s);
    SnapshotTasksFit(c, s);
    MarkerIsValid(c, s);
    MarkerIsFresh(t, c, s);
    FreshRun(t, x, tasks);
    var t' := RunTasks(t, x, tasks).0;
    SortedHasRows(s);
    if RunTasks(t, x, tasks).1.None? {
      forall row | row in s.results ensures Effect(t, t', s.metadata, row) {
        RowsAreSettled(SortResults(s.results), row);
        assert Settle(row) in tasks;
        var i :| 0 <= i < |tasks| && tasks[i] == Settle(row);
        assert Effect(t, t', s.metadata, tasks[i].result);
      }
      forall id | forall row :: row in s.results ==> FindingID(row) != id
        ensures Lookup(t'.findings, id) == Lookup(t.findings, id)
      {
        forall i | 0 <= i < |tasks| && tasks[i].Settle? ensures FindingID(tasks[i].result) != id {
          assert tasks[i] in RowTasks(SortResults(s.results));
          SettledAreRows(SortResults(s.results), tasks[i]);
        }
        UntouchedIsKept(t, x, tasks, id);
      }
    }
  }

  lemma MarkerIsFresh(t: Tables, c: Codec, s: ScanSnapshot)
    requires NewScan(t, c, s)
    ensures FindEvent(t.log, MarkerOf(c, s).id).None?
  {
    hide MarkerOf, EventID, RowTasks, SortResults, FindEvent;
    var tasks := TasksOf(c, s);
    assert tasks[|tasks| - 1] == Complete(MarkerOf(c, s));
  }

  // ----- row order -----

  lemma {:induction false} CountConcat(a: seq<CheckResult>, b: seq<CheckResult>, status: CheckStatus)
    ensures CountStatus(a + b, status) == CountStatus(a, status) + CountStatus(b, status)
  {
    if b == [] {
      assert a + b == a;
    } else {
      assert (a + b)[..|a + b| - 1] == a + b[..|b| - 1];
      CountConcat(a, b[..|b| - 1], status);
    }
  }

  lemma {:induction false} CountForgetsOrder(a: seq<CheckResult>, b: seq<CheckResult>, status: CheckStatus)
    requires multiset(a) == multiset(b)
    ensures CountStatus(a, status) == CountStatus(b, status)
  {
    if a == [] {
      assert |b| == |multiset(b)| == 0;
    } else {
      var front, last := a[..|a| - 1], a[|a| - 1];
      assert a == front + [last];
      var j := MatchLast(a, b);
      CountForgetsOrder(front, b[..j] + b[j + 1..], status);
      CountConcat(b[..j], b[j + 1..], status);
      CountConcat(b[..j] + [last], b[j + 1..], status);
      CountConcat(b[..j], [last], status);
      CountConcat(front, [last], status);
    }
  }

  /** Ingestion does not see the order of the rows: a retry that lists them differently is the same
      run. */
  lemma IngestForgetsRowOrder(t: Tables, c: Codec, a: ScanSnapshot, b: ScanSnapshot)
    requires ValidSnapshot(a) && SameUpToRowOrder(a, b)
    ensures IngestScan(t, c, a) == IngestScan(t, c, b)
  {
    hide RunTasks, ValidSnapshot, FindEvent;
    ValidityForgetsOrder(a, b);
    CanonicalIdentity(a, b);
    assert Canonical(a) == Canonical(b);
    assert SortResults(a.results) == Canonical(a).results == Canonical(b).results == SortResults(b.results);
    CountForgetsOrder(a.results, b.results, StatusOK);
    CountForgetsOrder(a.results, b.results, StatusWarn);
    CountForgetsOrder(a.results, b.results, StatusCritical);
    CountForgetsOrder(a.results, b.results, StatusSkip);
    CountForgetsOrder(a.results, b.results, StatusError);
    assert |a.results| == |multiset(a.results)| == |b.results|;
    assert MarkerOf(c, a) == MarkerOf(c, b) && ContextOf(c, a) == ContextOf(c, b);
  }
}
