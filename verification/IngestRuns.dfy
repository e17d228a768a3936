/** Ingestion under crashes and retries, and what one ingestion does to the findings. */
module IngestRuns {
  import opened Ordering
  import opened Model
  import opened Journal
  import opened JournalRuns
  import opened Scan
  import opened Ingest

  // ----- identifiers -----

  ghost predicate NulFree(parts: seq<string>) { forall i :: 0 <= i < |parts| ==> FreeOf(NUL, parts[i]) }

  lemma {:induction false} JoinNulInjective(a: seq<string>, b: seq<string>)
    requires NulFree(a) && NulFree(b) && JoinNul(a) == JoinNul(b)
    ensures a == b
    decreases |a|
  {
    if a != [] && b != [] {
      var p, q := JoinNul(a[1..]), JoinNul(b[1..]);
      assert JoinNul(a)[1..] == a[0] + p && JoinNul(b)[1..] == b[0] + q;
      CutIsUnique(NUL, a[0], b[0], p, q);
      JoinNulInjective(a[1..], b[1..]);
      assert a == [a[0]] + a[1..] && b == [b[0]] + b[1..];
    }
  }

  /** Event ids of one snapshot are equal only for equal parts. */
  lemma EventIDInjective(c: Codec, digest: string, a: seq<string>, b: seq<string>)
    requires Lawful(c) && NulFree(a) && NulFree(b)
    ensures EventID(c, digest, a) == EventID(c, digest, b) <==> a == b
  {
    if EventID(c, digest, a) == EventID(c, digest, b) {
      var head := "oh-my-safety:bridge:v1" + JoinNul([digest]);
      var ha, hb := c.hash(head + JoinNul(a)), c.hash(head + JoinNul(b));
      assert EventID(c, digest, a)[10..] == ha && EventID(c, digest, b)[10..] == hb;
      assert (head + JoinNul(a))[|head|..] == JoinNul(a) && (head + JoinNul(b))[|head|..] == JoinNul(b);
      JoinNulInjective(a, b);
    }
  }

  lemma IdentifierIsPlain(value: string)
    requires ValidIdentifier(value)
    ensures FreeOf(NUL, value) && FreeOf('/', value) && !Blank(value)
  {
    assert value[0] in value && IdentifierChar(value[0]);
  }

  /** Finding ids name the category and the check. */
  lemma FindingIDInjective(a: CheckResult, b: CheckResult)
    requires ValidIdentifier(a.category) && ValidIdentifier(a.name)
    requires ValidIdentifier(b.category) && ValidIdentifier(b.name)
    ensures FindingID(a) == FindingID(b) <==> Key(a) == Key(b)
  {
    if FindingID(a) == FindingID(b) {
      IdentifierIsPlain(a.category);
      IdentifierIsPlain(b.category);
      assert FindingID(a)[6..] == a.category + ("/" + a.name);
      assert FindingID(b)[6..] == b.category + ("/" + b.name);
      CutIsUnique('/', a.category, b.category, "/" + a.name, "/" + b.name);
      assert ("/" + a.name)[1..] == a.name && ("/" + b.name)[1..] == b.name;
    }
  }

  // ----- tasks -----

  /** The id parts of the event a task may append. */
  function PartsOf(task: Task): seq<string> {
    match task
    case Check(r) => [CHECK_RESULT, r.category, r.name]
    case Settle(r) => [if r.status == StatusOK then RESOLVED else OBSERVED, r.category, r.name]
    case Complete(_) => [SCAN_COMPLETED]
  }

  function EventOf(x: Context, task: Task): Event {
    match task
    case Check(r) => CheckEvent(x, r)
    case Settle(r) => if r.status == StatusOK then ResolvedEvent(x, r) else ObservedEvent(x, r)
    case Complete(marker) => marker
  }

  /** The tasks of one valid snapshot: rows with valid, pairwise different keys, one marker. */
  ghost predicate TasksFit(x: Context, tasks: seq<Task>) {
    && (forall i :: 0 <= i < |tasks| ==> TaskFits(x, tasks[i]))
    && (forall i, j :: 0 <= i < j < |tasks| ==> Apart(tasks[i], tasks[j]))
  }

  ghost predicate TaskFits(x: Context, task: Task) {
    match task
    case Complete(marker) =>
      marker.id == EventID(x.codec, x.digest, [SCAN_COMPLETED]) && marker.kind == SCAN_COMPLETED
    case _ => ValidResult(task.result)
  }

  /** Different tasks: of different kinds, or about different rows. */
  ghost predicate Apart(a: Task, b: Task) {
    match (a, b)
    case (Check(r), Check(q)) => Key(r) != Key(q)
    case (Settle(r), Settle(q)) => Key(r) != Key(q)
    case (Complete(_), Complete(_)) => false
    case _ => true
  }

  lemma KindsAreNulFree()
    ensures FreeOf(NUL, CHECK_RESULT) && FreeOf(NUL, OBSERVED) && FreeOf(NUL, RESOLVED) && FreeOf(NUL, SCAN_COMPLETED)
  {
  }

  lemma TaskEventID(x: Context, task: Task)
    requires TaskFits(x, task)
    ensures EventOf(x, task).id == EventID(x.codec, x.digest, PartsOf(task))
    ensures NulFree(PartsOf(task))
  {
    hide EventID, FreeOf, ValidToken, ValidGuide, ValidIdentifier;
    KindsAreNulFree();
    if !task.Complete? {
      IdentifierIsPlain(task.result.category);
      IdentifierIsPlain(task.result.name);
    }
  }

  lemma ApartEventsDiffer(x: Context, a: Task, b: Task)
    requires Lawful(x.codec) && TaskFits(x, a) && TaskFits(x, b) && Apart(a, b)
    ensures EventOf(x, a).id != EventOf(x, b).id
  {
    hide EventID, ValidResult;
    TaskEventID(x, a);
    TaskEventID(x, b);
    EventIDInjective(x.codec, x.digest, PartsOf(a), PartsOf(b));
    HeadsDiffer();
    var p, q := PartsOf(a), PartsOf(b);
    assert |p| != |q| || p[0] != q[0] || p[1] != q[1] || p[2] != q[2];
  }

  lemma HeadsDiffer()
    ensures CHECK_RESULT != OBSERVED && CHECK_RESULT != RESOLVED && OBSERVED != RESOLVED
  {
    assert |CHECK_RESULT| == 12 && |OBSERVED| == 16 && |RESOLVED| == 16;
    assert OBSERVED[8] == 'o' && RESOLVED[8] == 'r';
  }

  /** A task appends its event or does nothing; a failed task changes nothing. */
  lemma TaskShape(t: Tables, x: Context, task: Task)
    ensures DoTask(t, x, task) == (t, None) || DoTask(t, x, task) == Outcome(AppendEvent(t, EventOf(x, task)))
    ensures DoTask(t, x, task).1.Some? ==> DoTask(t, x, task).0 == t
  {
    hide ProjectFinding, IsLifecycle, ValidateEvent, Blank, FindEvent, ResolvedEvent, ObservedEvent, CheckEvent;
  }

  ghost predicate Done(t: Tables, x: Context, task: Task) { DoTask(t, x, task) == (t, None) }

  lemma TaskKeepsConsistent(t: Tables, x: Context, task: Task)
    requires Consistent(t)
    ensures Consistent(DoTask(t, x, task).0)
  {
    hide AppendEvent, Consistent, DoTask;
    TaskShape(t, x, task);
    AppendKeepsConsistent(t, EventOf(x, task));
  }

  /** A task done once is done: repeating it at once changes nothing. */
  lemma TaskIsIdempotent(t: Tables, x: Context, task: Task)
    requires Consistent(t) && DoTask(t, x, task).1.None?
    ensures Done(DoTask(t, x, task).0, x, task)
  {
    hide AppendEvent, Consistent, ResolvedEvent, ObservedEvent, CheckEvent;
    AppendIsIdempotent(t, EventOf(x, task));
  }

  /** How a task changes the log and the findings. */
  lemma TaskFrame(t: Tables, x: Context, task: Task)
    requires Consistent(t)
    ensures var t' := DoTask(t, x, task).0;
      && (t'.log == t.log || (exists r :: t'.log == t.log + [r] && r.event == EventOf(x, task)))
      && (forall id :: (task.Settle? ==> id != FindingID(task.result)) && !task.Complete? ==>
           Lookup(t'.findings, id) == Lookup(t.findings, id))
      && (task.Complete? && task.marker.kind == SCAN_COMPLETED ==> t'.findings == t.findings)
  {
    hide ProjectFinding, ValidateEvent, Blank, FindEvent, IsLifecycle, EventID;
    PlainKinds();
    var e := EventOf(x, task);
    TaskShape(t, x, task);
    var r := Record(|t.log| + 1, e);
    StoredUnderOwnName(t);
    if task.Settle? && ProjectFinding(t.findings, r).Ok? {
      ProjectionShape(t.findings, r);
    }
  }

  lemma PlainKinds()
    ensures !IsLifecycle(CHECK_RESULT) && !IsLifecycle(SCAN_COMPLETED)
  {
    assert CHECK_RESULT[0] == 'c' && SCAN_COMPLETED[0] == 's';
    assert OBSERVED[0] == 'f' && ACKNOWLEDGED[0] == 'f' && SUPPRESSED[0] == 'f'
      && UNSUPPRESSED[0] == 'f' && RESOLVED[0] == 'f';
  }

  lemma StoredUnderOwnName(t: Tables)
    requires Consistent(t)
    ensures forall id :: id in t.findings ==> ValidFinding(t.findings[id]) && t.findings[id].id == id
  {
    hide ValidFinding;
    StoredFindingsAreValid(Select(t.log, LIFECYCLE));
  }

  lemma {:induction false} FindEventGrows(log: seq<Record>, r: Record, id: string)
    requires FindEvent(log, id).Some?
    ensures FindEvent(log + [r], id) == FindEvent(log, id)
  {
    assert (log + [r])[0] == log[0];
    if log[0].event.id != id {
      assert (log + [r])[1..] == log[1..] + [r];
      FindEventGrows(log[1..], r, id);
    }
  }

  /** Once stored, an event can be submitted again without effect. */
  lemma LoggedMeansIdempotent(t: Tables, e: Event)
    requires Consistent(t) && AppendEvent(t, e).0 == t && AppendEvent(t, e).1.Ok?
    ensures FindEvent(t.log, e.id).Some? && FindEvent(t.log, e.id).value.event == e
  {
    hide Consistent, ProjectFinding, IsLifecycle, ValidateEvent, Blank;
    AppendIsIdempotent(t, e);
    var stored := AppendEvent(t, e).1.value;
    assert |t.log + [stored]| != |t.log|;
  }

  lemma LoggedStaysDone(t: Tables, t': Tables, e: Event)
    requires Consistent(t) && Consistent(t')
    requires AppendEvent(t, e).0 == t && AppendEvent(t, e).1.Ok?
    requires t'.log == t.log || exists r :: t'.log == t.log + [r]
    ensures AppendEvent(t', e).0 == t' && AppendEvent(t', e).1.Ok?
  {
    hide ProjectFinding, IsLifecycle, ValidateEvent, Blank, Consistent;
    LoggedMeansIdempotent(t, e);
    if t'.log != t.log {
      var r :| t'.log == t.log + [r];
      FindEventGrows(t.log, r, e.id);
    }
  }

  /** Tasks about other things do not undo a done task. */
  lemma DoneIsStable(t: Tables, x: Context, a: Task, b: Task)
    requires Consistent(t) && Done(t, x, a) && TaskFits(x, a) && TaskFits(x, b) && Apart(a, b)
    ensures Done(DoTask(t, x, b).0, x, a)
  {
    hide AppendEvent, Consistent, ResolvedEvent, ObservedEvent, CheckEvent, ValidResult, IsLifecycle;
    var t' := DoTask(t, x, b).0;
    TaskKeepsConsistent(t, x, b);
    TaskFrame(t, x, b);
    var e := EventOf(x, a);
    if AppendEvent(t, e).0 == t && AppendEvent(t, e).1.Ok? {
      LoggedStaysDone(t, t', e);
    } else {
      assert a.Settle?;
      assert Lookup(t'.findings, FindingID(a.result)) == Lookup(t.findings, FindingID(a.result)) by {
        if b.Settle? { SettledApart(a.result, b.result); }
      }
    }
  }

  lemma SettledApart(a: CheckResult, b: CheckResult)
    requires ValidResult(a) && ValidResult(b) && Key(a) != Key(b)
    ensures FindingID(a) != FindingID(b)
  {
    hide FindingID;
    FindingIDInjective(a, b);
  }

  // ----- convergence -----

  lemma {:induction false} RunKeepsConsistent(t: Tables, x: Context, tasks: seq<Task>)
    requires Consistent(t)
    ensures Consistent(RunTasks(t, x, tasks).0)
    decreases |tasks|
  {
    hide DoTask, Consistent;
    if tasks != [] {
      TaskKeepsConsistent(t, x, tasks[0]);
      RunKeepsConsistent(DoTask(t, x, tasks[0]).0, x, tasks[1..]);
    }
  }

  /** After a run without error every task of it is done. */
  lemma {:induction false} RunLeavesDone(t: Tables, x: Context, tasks: seq<Task>)
    requires Consistent(t) && TasksFit(x, tasks) && RunTasks(t, x, tasks).1.None?
    ensures forall i :: 0 <= i < |tasks| ==> Done(RunTasks(t, x, tasks).0, x, tasks[i])
    decreases |tasks|
  {
    hide DoTask, Consistent, TaskFits, Apart;
    if tasks != [] {
      var front, last := tasks[..|tasks| - 1], tasks[|tasks| - 1];
      assert tasks == front + [last];
      RunTasksConcat(t, x, front, [last]);
      RunLeavesDone(t, x, front);
      RunKeepsConsistent(t, x, front);
      var t' := RunTasks(t, x, front).0;
      assert RunTasks(t', x, [last]).0 == DoTask(t', x, last).0 && DoTask(t', x, last).1.None?;
      TaskIsIdempotent(t', x, last);
      forall i | 0 <= i < |front| ensures Done(DoTask(t', x, last).0, x, tasks[i]) {
        assert Done(t', x, front[i]);
        DoneIsStable(t', x, tasks[i], last);
      }
    }
  }

  lemma {:induction false} SkipDone(t: Tables, x: Context, a: seq<Task>, b: seq<Task>)
    requires forall i :: 0 <= i < |a| ==> Done(t, x, a[i])
    ensures RunTasks(t, x, a + b) == RunTasks(t, x, b)
    decreases |a|
  {
    hide DoTask;
    if a == [] {
      assert a + b == b;
    } else {
      assert Done(t, x, a[0]);
      assert (a + b)[0] == a[0] && (a + b)[1..] == a[1..] + b;
      SkipDone(t, x, a[1..], b);
    }
  }

  /** Rerunning all tasks after any prefix of them gives the uninterrupted run, error or not. */
  lemma {:induction false} RerunConverges(t: Tables, x: Context, tasks: seq<Task>, k: nat)
    requires Consistent(t) && TasksFit(x, tasks) && k <= |tasks|
    ensures RunTasks(RunTasks(t, x, tasks[..k]).0, x, tasks) == RunTasks(t, x, tasks)
    decreases k
  {
    hide DoTask, Consistent, TaskFits, Apart;
    var a, b := tasks[..k], tasks[k..];
    assert tasks == a + b;
    RunTasksConcat(t, x, a, b);
    if RunTasks(t, x, a).1.None? {
      RunLeavesDone(t, x, a);
      SkipDone(RunTasks(t, x, a).0, x, a, b);
    } else {
      var front, last := tasks[..k - 1], tasks[k - 1];
      assert a == front + [last];
      RunTasksConcat(t, x, front, [last]);
      RerunConverges(t, x, tasks, k - 1);
      if RunTasks(t, x, front).1.None? {
        TaskShape(RunTasks(t, x, front).0, x, last);
      }
    }
  }

  lemma {:induction false} RowTasksFit(x: Context, results: seq<CheckResult>)
    requires forall i :: 0 <= i < |results| ==> ValidResult(results[i])
    requires DistinctKeys(results)
    ensures |RowTasks(results)| == 2 * |results|
    ensures forall i :: 0 <= i < |results| ==>
      RowTasks(results)[2 * i] == Check(results[i]) && RowTasks(results)[2 * i + 1] == Settle(results[i])
    ensures TasksFit(x, RowTasks(results))
  {
    hide ValidResult;
    if results != [] {
      var front := results[..|results| - 1];
      RowTasksFit(x, front);
      var tasks := RowTasks(results);
      assert forall i :: 0 <= i < |front| ==> front[i] == results[i];
      forall i, j | 0 <= i < j < |tasks| ensures Apart(tasks[i], tasks[j]) {
        if j >= 2 * |front| && i < 2 * |front| {
          var k := i / 2;
          assert i == 2 * k || i == 2 * k + 1;
          assert Key(results[k]) != Key(results[|results| - 1]);
        }
      }
    }
  }

  lemma {:induction false} NoMarkerAmongRows(results: seq<CheckResult>)
    ensures forall i :: 0 <= i < |RowTasks(results)| ==> !RowTasks(results)[i].Complete?
  {
    if results != [] { NoMarkerAmongRows(results[..|results| - 1]); }
  }

  lemma MarkerFits(c: Codec, s: ScanSnapshot)
    ensures TaskFits(ContextOf(c, s), Complete(MarkerOf(c, s)))
  {
    hide EventID;
  }

  lemma SnapshotTasksFit(c: Codec, s: ScanSnapshot)
    requires ValidSnapshot(s)
    ensures TasksFit(ContextOf(c, s), TasksOf(c, s))
    ensures |TasksOf(c, s)| == 2 * |s.results| + 1
    ensures forall i :: 0 <= i < 2 * |s.results| ==> !TasksOf(c, s)[i].Complete?
  {
    hide ValidResult, MarkerOf, SortResults, ValidMetadata, TaskFits, ExpectedExit, RowTasks;
    SortResultsSorts(s.results);
    var sorted := SortResults(s.results);
    forall i | 0 <= i < |sorted| ensures ValidResult(sorted[i]) {
      assert sorted[i] in multiset(sorted);
      assert sorted[i] in s.results;
    }
    assert |sorted| == |multiset(sorted)| == |s.results|;
    RowTasksFit(ContextOf(c, s), sorted);
    NoMarkerAmongRows(sorted);
    MarkerFits(c, s);
  }

  /** Only the last task stores the marker. */
  lemma {:induction false} MarkerComesLast(t: Tables, x: Context, tasks: seq<Task>, marker: Task)
    requires Consistent(t) && Lawful(x.codec) && TaskFits(x, marker) && marker.Complete?
    requires forall i :: 0 <= i < |tasks| ==> TaskFits(x, tasks[i]) && !tasks[i].Complete?
    requires FindEvent(t.log, marker.marker.id).None?
    ensures FindEvent(RunTasks(t, x, tasks).0.log, marker.marker.id).None?
    decreases |tasks|
  {
    hide DoTask, Consistent, TaskFits, Lawful;
    if tasks != [] {
      var t' := DoTask(t, x, tasks[0]).0;
      TaskKeepsConsistent(t, x, tasks[0]);
      TaskFrame(t, x, tasks[0]);
      ApartEventsDiffer(x, tasks[0], marker);
      if t'.log != t.log {
        var r :| t'.log == t.log + [r] && r.event == EventOf(x, tasks[0]);
        NotFoundGrows(t.log, r, marker.marker.id);
      }
      MarkerComesLast(t', x, tasks[1..], marker);
    }
  }

  lemma {:induction false} NotFoundGrows(log: seq<Record>, r: Record, id: string)
    requires FindEvent(log, id).None? && r.event.id != id
    ensures FindEvent(log + [r], id).None?
  {
    if log != [] {
      assert (log + [r])[0] == log[0] && (log + [r])[1..] == log[1..] + [r];
      NotFoundGrows(log[1..], r, id);
    }
  }

  /** Same outcome, except for the flag that says whether the marker was already there. */
  ghost predicate SameOutcome(a: Result<Envelope, IngestError>, b: Result<Envelope, IngestError>) {
    match (a, b)
    case (Ok(x), Ok(y)) => x.(alreadyIngested := false) == y.(alreadyIngested := false)
    case (Err(e), Err(f)) => e == f
    case _ => false
  }

  /** A finished run stored the marker, so the next run stops there. */
  lemma FinishedRunIsDone(t: Tables, c: Codec, s: ScanSnapshot)
    requires Consistent(t) && ValidSnapshot(s) && IngestScan(t, c, s).1.Ok?
    ensures var t' := IngestScan(t, c, s).0;
      && Consistent(t')
      && IngestScan(t', c, s) == (t', Ok(EnvelopeOf(c, s, true)))
  {
    hide DoTask, Consistent, AppendEvent, ValidSnapshot, MarkerOf, EnvelopeOf, RowTasks, TasksFit;
    var x, marker, tasks := ContextOf(c, s), MarkerOf(c, s), TasksOf(c, s);
    if FindEvent(t.log, marker.id).None? {
      RunKeepsConsistent(t, x, tasks);
      SnapshotTasksFit(c, s);
      RunLeavesDone(t, x, tasks);
      assert tasks[|tasks| - 1] == Complete(marker);
      var t' := RunTasks(t, x, tasks).0;
      assert Done(t', x, Complete(marker));
      MarkerDoneMeansLogged(t', x, marker);
    }
  }

  lemma MarkerDoneMeansLogged(t: Tables, x: Context, marker: Event)
    requires Consistent(t) && Done(t, x, Complete(marker))
    ensures FindEvent(t.log, marker.id).Some? && FindEvent(t.log, marker.id).value.event == marker
  {
    hide Consistent, AppendEvent;
    LoggedMeansIdempotent(t, marker);
  }

  /** If ingestion stops after any number of its tasks and is run again on the same snapshot with no
      other writer between, the log and the findings are those of one uninterrupted run, and so is the
      outcome.  A run after a successful one changes nothing and says so. */
  lemma CrashRetryConverges(t: Tables, c: Codec, s: ScanSnapshot, k: nat)
    requires Consistent(t) && Lawful(c)
    ensures var (full, r) := IngestScan(t, c, s);
      && IngestScan(Interrupted(t, c, s, k), c, s).0 == full
      && SameOutcome(IngestScan(Interrupted(t, c, s, k), c, s).1, r)
      && (r.Ok? ==> IngestScan(full, c, s) == (full, Ok(EnvelopeOf(c, s, true))))
  {
    hide DoTask, Consistent, AppendEvent, ValidSnapshot, MarkerOf, EnvelopeOf, RowTasks, TasksFit, Lawful, TaskFits;
    if ValidSnapshot(s) {
      EnvelopesAgree(c, s);
      if IngestScan(t, c, s).1.Ok? { FinishedRunIsDone(t, c, s); }
      var x, marker, tasks := ContextOf(c, s), MarkerOf(c, s), TasksOf(c, s);
      if FindEvent(t.log, marker.id).None? {
        if k < |tasks| {
          SnapshotTasksFit(c, s);
          PrefixFits(x, tasks, k, marker);
          RerunConverges(t, x, tasks, k);
          MarkerComesLast(t, x, tasks[..k], Complete(marker));
        } else if IngestScan(t, c, s).1.Err? {
          assert tasks[..|tasks|] == tasks;
          SnapshotTasksFit(c, s);
          RerunConverges(t, x, tasks, |tasks|);
          FailedRunHasNoMarker(t, c, s);
        }
      }
    }
  }

  /** The tables after a series of runs on one snapshot, each stopped before its task number. */
  function InterruptedAll(t: Tables, c: Codec, s: ScanSnapshot, stops: seq<nat>): Tables {
    if stops == [] then t
    else Interrupted(InterruptedAll(t, c, s, stops[..|stops| - 1]), c, s, stops[|stops| - 1])
  }

  ghost predicate SameEnd(c: Codec, s: ScanSnapshot, a: Tables, b: Tables) {
    IngestScan(a, c, s).0 == IngestScan(b, c, s).0 && SameOutcome(IngestScan(a, c, s).1, IngestScan(b, c, s).1)
  }

  lemma InterruptedKeepsConsistent(t: Tables, c: Codec, s: ScanSnapshot, k: nat)
    requires Consistent(t)
    ensures Consistent(Interrupted(t, c, s, k))
  {
    hide Consistent, RunTasks, TasksOf, MarkerOf, ContextOf, ValidSnapshot, FindEvent;
    RunKeepsConsistent(t, ContextOf(c, s), TasksOf(c, s));
    if k < |TasksOf(c, s)| { RunKeepsConsistent(t, ContextOf(c, s), TasksOf(c, s)[..k]); }
  }

  /** However often ingestion crashes, and wherever each time, the run that gets through ends like one
      uninterrupted run; after a success a further run changes nothing and says so. */
  lemma {:induction false} CrashesConverge(t: Tables, c: Codec, s: ScanSnapshot, stops: seq<nat>)
    requires Consistent(t) && Lawful(c)
    ensures Consistent(InterruptedAll(t, c, s, stops))
    ensures SameEnd(c, s, InterruptedAll(t, c, s, stops), t)
    ensures IngestScan(t, c, s).1.Ok? ==>
      IngestScan(IngestScan(t, c, s).0, c, s) == (IngestScan(t, c, s).0, Ok(EnvelopeOf(c, s, true)))
  {
    hide Consistent, IngestScan, Interrupted, EnvelopeOf, Lawful;
    CrashRetryConverges(t, c, s, 0);
    if stops != [] {
      var before := InterruptedAll(t, c, s, stops[..|stops| - 1]);
      CrashesConverge(t, c, s, stops[..|stops| - 1]);
      CrashRetryConverges(before, c, s, stops[|stops| - 1]);
      InterruptedKeepsConsistent(before, c, s, stops[|stops| - 1]);
    }
  }

  lemma EnvelopesAgree(c: Codec, s: ScanSnapshot)
    ensures EnvelopeOf(c, s, true).(alreadyIngested := false) == EnvelopeOf(c, s, false)
    ensures EnvelopeOf(c, s, false).(alreadyIngested := false) == EnvelopeOf(c, s, false)
  {
  }

  lemma PrefixFits(x: Context, tasks: seq<Task>, k: nat, marker: Event)
    requires TasksFit(x, tasks) && k < |tasks| && tasks[|tasks| - 1] == Complete(marker)
    requires forall i :: 0 <= i < |tasks| - 1 ==> !tasks[i].Complete?
    ensures TaskFits(x, Complete(marker))
    ensures forall i :: 0 <= i < |tasks[..k]| ==> TaskFits(x, tasks[..k][i]) && !tasks[..k][i].Complete?
  {
    hide TaskFits, Apart;
  }

  /** A run that failed did not store the marker. */
  lemma FailedRunHasNoMarker(t: Tables, c: Codec, s: ScanSnapshot)
    requires Consistent(t) && Lawful(c) && ValidSnapshot(s)
    requires FindEvent(t.log, MarkerOf(c, s).id).None?
    requires RunTasks(t, ContextOf(c, s), TasksOf(c, s)).1.Some?
    ensures FindEvent(RunTasks(t, ContextOf(c, s), TasksOf(c, s)).0.log, MarkerOf(c, s).id).None?
  {
    hide DoTask, Consistent, AppendEvent, ValidSnapshot, MarkerOf, RowTasks, TasksFit, Lawful, TaskFits;
    var x, marker, tasks := ContextOf(c, s), MarkerOf(c, s), TasksOf(c, s);
    var n := |tasks| - 1;
    SnapshotTasksFit(c, s);
    assert tasks == tasks[..n] + [Complete(marker)];
    PrefixFits(x, tasks, n, marker);
    MarkerComesLast(t, x, tasks[..n], Complete(marker));
    RunTasksConcat(t, x, tasks[..n], [Complete(marker)]);
    TaskShape(RunTasks(t, x, tasks[..n]).0, x, Complete(marker));
  }
}
