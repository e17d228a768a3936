/** The imperative form of ingestion: the paged marker search and the append loop. */
module IngestLoop {
  import opened Model
  import opened Journal
  import opened JournalRuns
  import opened Scan
  import opened Ingest

  /** Row ids are positions, so a page is a slice of the log. */
  lemma PageIsSlice(t: Tables, after: nat, limit: int)
    requires ValidLog(t.log) && after <= |t.log| && 0 < limit <= 1_000
    ensures ReadPage(t, after, limit) ==
      Ok(t.log[after..if |t.log| - after > limit then after + limit else |t.log|])
  {
    TailOfLog(t.log, after, |t.log|);
    assert t.log[..|t.log|] == t.log;
    var rows := Select(t.log, Beyond(after));
    assert rows == t.log[after..];
    if |rows| > limit { assert rows[..limit] == t.log[after..after + limit]; }
  }

  function First(log: seq<Record>, after: nat): nat { if after <= |log| then after else |log| }

  lemma RowsBeyond(log: seq<Record>, after: nat)
    requires ValidLog(log)
    ensures Select(log, Beyond(after)) == log[First(log, after)..]
  {
    hide Select, ValidateEvent, IsLifecycle, Blank;
    if after <= |log| {
      TailOfLog(log, after, |log|);
      assert log[..|log|] == log;
    } else {
      NothingBeyond(log, after);
    }
  }

  /** A page starts after the given row and holds 100 records when no limit is named, never more than
      1000, and as many as there are. */
  lemma PageExactly(t: Tables, after: int, limit: int)
    requires ValidLog(t.log)
    ensures after < 0 ==> ReadPage(t, after, limit) == Err(NegativeAfter)
    ensures after >= 0 ==>
      var rest := t.log[First(t.log, after)..];
      var size := if limit <= 0 then 100 else if limit > 1_000 then 1_000 else limit;
      ReadPage(t, after, limit) == Ok(if |rest| > size then rest[..size] else rest)
  {
    hide Select, ValidLog;
    if after >= 0 { RowsBeyond(t.log, after); }
  }

  lemma {:induction false} NothingBeyond(log: seq<Record>, after: nat)
    requires forall i :: 0 <= i < |log| ==> log[i].sequence <= after
    ensures Select(log, Beyond(after)) == []
  {
    if log != [] { NothingBeyond(log[..|log| - 1], after); }
  }

  lemma {:induction false} TailOfLog(log: seq<Record>, after: nat, n: nat)
    requires ValidLog(log) && after <= |log| && n <= |log|
    ensures Select(log[..n], Beyond(after)) == if n <= after then [] else log[after..n]
  {
    hide ValidateEvent, IsLifecycle, Blank;
    if n > 0 {
      TailOfLog(log, after, n - 1);
      assert log[..n][..n - 1] == log[..n - 1] && log[..n][n - 1] == log[n - 1];
    }
  }

  lemma {:induction false} FindEventFrom(log: seq<Record>, id: string, i: nat)
    requires i <= |log| && forall k :: 0 <= k < i ==> log[k].event.id != id
    ensures FindEvent(log, id) == FindEvent(log[i..], id)
    decreases i
  {
    if i > 0 {
      FindEventFrom(log, id, i - 1);
      assert log[i - 1..][1..] == log[i..];
    }
  }

  /** The paging loop terminates and finds the event exactly when it is logged. */
  method EventByID(store: Store, id: string) returns (found: Option<Record>)
    requires ValidLog(store.events)
    ensures found == FindEvent(store.events, id)
    ensures found.None? <==> forall i :: 0 <= i < |store.events| ==> store.events[i].event.id != id
  {
    hide ReadPage, FindEvent;
    var after := 0;
    while true
      invariant after <= |store.events|
      invariant forall k :: 0 <= k < after ==> store.events[k].event.id != id
      decreases |store.events| - after
    {
      PageIsSlice(store.State(), after, 1_000);
      var page := store.Read(after, 1_000);
      var records := page.value;
      if |records| == 0 {
        FindEventFrom(store.events, id, after);
        return None;
      }
      ghost var start := after;
      for i := 0 to |records|
        invariant after == start + i
        invariant forall k :: 0 <= k < after ==> store.events[k].event.id != id
      {
        assert records[i] == store.events[after];
        if records[i].event.id == id {
          FindEventFrom(store.events, id, after);
          return Some(records[i]);
        }
        after := records[i].sequence;
      }
    }
  }

  lemma RowTasksSnoc(results: seq<CheckResult>, i: nat)
    requires i < |results|
    ensures RowTasks(results[..i + 1]) == RowTasks(results[..i]) + [Check(results[i]), Settle(results[i])]
  {
    assert results[..i + 1][..i] == results[..i];
  }

  lemma {:induction false} RunTasksPrefixError(t: Tables, x: Context, a: seq<Task>, b: seq<Task>)
    requires RunTasks(t, x, a).1.Some?
    ensures RunTasks(t, x, a + b) == RunTasks(t, x, a)
  {
    RunTasksConcat(t, x, a, b);
  }

  lemma RowTasksPrefix(results: seq<CheckResult>, n: nat) returns (rest: seq<Task>)
    requires n <= |results|
    ensures RowTasks(results) == RowTasks(results[..n]) + rest
  {
    if n == |results| {
      assert results[..n] == results;
      rest := [];
      assert RowTasks(results) + [] == RowTasks(results);
    } else {
      var front := results[..|results| - 1];
      var r := RowTasksPrefix(front, n);
      assert front[..n] == results[..n];
      rest := r + [Check(results[|results| - 1]), Settle(results[|results| - 1])];
      assert RowTasks(results) == RowTasks(results[..n]) + rest;
    }
  }

  /** One more task after a prefix that ran without error. */
  lemma NextTask(t: Tables, x: Context, a: seq<Task>, task: Task)
    requires RunTasks(t, x, a).1.None?
    ensures RunTasks(t, x, a + [task]) == DoTask(RunTasks(t, x, a).0, x, task)
  {
    hide DoTask;
    RunTasksConcat(t, x, a, [task]);
  }

  method SubmitTo(store: Store, e: Event) returns (error: Option<JournalError>)
    modifies store
    ensures (store.State(), error) == Outcome(AppendEvent(old(store.State()), e))
  {
    var r := store.Append(e);
    error := if r.Ok? then None else Some(r.error);
  }

  /** Both tasks of one row. */
  method IngestRow(store: Store, x: Context, r: CheckResult, ghost t0: Tables, ghost before: seq<Task>)
    returns (error: Option<JournalError>)
    requires RunTasks(t0, x, before) == (store.State(), None)
    modifies store
    ensures error.None? ==> RunTasks(t0, x, before + [Check(r), Settle(r)]) == (store.State(), None)
    ensures error.Some? ==> forall rest ::
      RunTasks(t0, x, before + [Check(r), Settle(r)] + rest) == (store.State(), error)
  {
    hide AppendEvent, RunTasks;
    error := SubmitTo(store, CheckEvent(x, r));
    NextTask(t0, x, before, Check(r));
    var done := before + [Check(r)];
    assert before + [Check(r), Settle(r)] == done + [Settle(r)];
    if error.Some? {
      forall rest ensures RunTasks(t0, x, done + [Settle(r)] + rest) == (store.State(), error) {
        assert done + [Settle(r)] + rest == done + ([Settle(r)] + rest);
        RunTasksPrefixError(t0, x, done, [Settle(r)] + rest);
      }
      return;
    }
    NextTask(t0, x, done, Settle(r));
    match r.status {
      case StatusWarn => error := SubmitTo(store, ObservedEvent(x, r));
      case StatusCritical => error := SubmitTo(store, ObservedEvent(x, r));
      case StatusError => error := SubmitTo(store, ObservedEvent(x, r));
      case StatusOK =>
        var current := Lookup(store.currentFindings, FindingID(r));
        if current.Some? && current.value.state != Resolved {
          error := SubmitTo(store, ResolvedEvent(x, r));
        }
      case _ =>
    }
    if error.Some? {
      forall rest ensures RunTasks(t0, x, done + [Settle(r)] + rest) == (store.State(), error) {
        RunTasksPrefixError(t0, x, done + [Settle(r)], rest);
      }
    }
  }

  /** `IngestScan`: the marker search, the loop over the sorted rows, and the marker. */
  method IngestInto(store: Store, c: Codec, s: ScanSnapshot) returns (r: Result<Envelope, IngestError>)
    requires ValidLog(store.events)
    modifies store
    ensures (store.State(), r) == IngestScan(old(store.State()), c, s)
  {
    hide AppendEvent, RunTasks, RowTasks, ValidSnapshot, DoTask, SortResults, MarkerOf, ContextOf, EnvelopeOf, ValidLog, FindEvent;
    if !ValidSnapshot(s) {
      return Err(InvalidSnapshot);
    }
    var x := ContextOf(c, s);
    var marker := MarkerOf(c, s);
    var existing := EventByID(store, marker.id);
    if existing.Some? {
      if existing.value.event != marker {
        return Err(MarkerConflict);
      }
      return Ok(EnvelopeOf(c, s, true));
    }
    ghost var t0 := store.State();
    var results := SortResults(s.results);
    assert RowTasks(results[..0]) == [] && RunTasks(t0, x, []) == (t0, None) by { EmptyRun(t0, x, results); }
    for i := 0 to |results|
      invariant RunTasks(t0, x, RowTasks(results[..i])) == (store.State(), None)
    {
      RowTasksSnoc(results, i);
      var error := IngestRow(store, x, results[i], t0, RowTasks(results[..i]));
      if error.Some? {
        ghost var rest := RowTasksPrefix(results, i + 1);
        assert TasksOf(c, s) == RowTasks(results[..i + 1]) + (rest + [Complete(marker)]);
        return Err(AppendFailed(error.value));
      }
    }
    assert results[..|results|] == results;
    NextTask(t0, x, RowTasks(results), Complete(marker));
    var error := SubmitTo(store, marker);
    assert DoTask(RunTasks(t0, x, RowTasks(results)).0, x, Complete(marker)) == (store.State(), error) by {
      CompleteAppends(RunTasks(t0, x, RowTasks(results)).0, x, marker);
    }
    if error.Some? {
      return Err(AppendFailed(error.value));
    }
    return Ok(EnvelopeOf(c, s, false));
  }

  lemma EmptyRun(t: Tables, x: Context, results: seq<CheckResult>)
    ensures RowTasks(results[..0]) == [] && RunTasks(t, x, []) == (t, None)
  {
  }

  lemma CompleteAppends(t: Tables, x: Context, marker: Event)
    ensures DoTask(t, x, Complete(marker)) == Outcome(AppendEvent(t, marker))
  {
  }
}
