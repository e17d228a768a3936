/** What every run of the journal keeps: the materialized view is the replay of the log, and each
    finding has a closed form in terms of its own events. */
module JournalRuns {
  import opened Instants
  import opened Model
  import opened Journal

  // ----- runs -----

  datatype Op = Submit(event: Event) | RebuildNow

  function Step(t: Tables, op: Op): Tables {
    match op
    case Submit(e) => AppendEvent(t, e).0
    case RebuildNow => RebuildTable(t).0
  }

  /** The tables after any mix of accepted and rejected appends and rebuilds. */
  function Run(ops: seq<Op>): Tables {
    if ops == [] then EMPTY else Step(Run(ops[..|ops| - 1]), ops[|ops| - 1])
  }

  // ----- the view -----

  /** Replay of the lifecycle events, in sequence order. */
  function View(log: seq<Record>): Result<map<string, Finding>, JournalError> {
    Replay(Select(log, LIFECYCLE))
  }

  /** Row ids count up from 1, event ids are unique, and only validated events are stored. */
  ghost predicate ValidLog(log: seq<Record>) {
    && |log| <= MAX_SEQUENCE
    && (forall i :: 0 <= i < |log| ==> log[i].sequence == i + 1)
    && (forall i, j :: 0 <= i < j < |log| ==> log[i].event.id != log[j].event.id)
    && (forall i :: 0 <= i < |log| ==> ValidateEvent(log[i].event).None?)
    && (forall i :: 0 <= i < |log| && IsLifecycle(log[i].event.kind) ==> !Blank(log[i].event.findingID))
  }

  ghost predicate Consistent(t: Tables) {
    ValidLog(t.log) && View(t.log) == Ok(t.findings)
  }

  lemma SelectSnoc(log: seq<Record>, r: Record, keep: Record -> bool)
    ensures Select(log + [r], keep) == Select(log, keep) + (if keep(r) then [r] else [])
  {
    assert (log + [r])[..|log|] == log;
  }

  /** One more event extends the view by its projection, or not at all. */
  lemma ViewSnoc(log: seq<Record>, r: Record)
    ensures !IsLifecycle(r.event.kind) ==> View(log + [r]) == View(log)
    ensures IsLifecycle(r.event.kind) && View(log).Ok? ==>
      View(log + [r]) == ProjectFinding(View(log).value, r)
  {
    hide IsLifecycle, ProjectFinding;
    SelectSnoc(log, r, LIFECYCLE);
    var rows := Select(log, LIFECYCLE);
    if IsLifecycle(r.event.kind) {
      assert (rows + [r])[..|rows|] == rows;
    } else {
      assert rows + [] == rows;
    }
  }

  lemma AppendKeepsConsistent(t: Tables, e: Event)
    requires Consistent(t)
    ensures Consistent(AppendEvent(t, e).0)
  {
    hide ProjectFinding, Replay, Select, Blank;
    var r := Record(|t.log| + 1, e);
    ViewSnoc(t.log, r);
    assert t.log + [] == t.log;
  }

  /** A rejected append leaves both tables as they were; an accepted one keeps the log and adds at
      most one record, and repeating it returns the same record and changes nothing. */
  lemma AppendIsIdempotent(t: Tables, e: Event)
    requires Consistent(t)
    ensures var (t', r) := AppendEvent(t, e);
      && (r.Err? ==> t' == t)
      && (r.Ok? ==> t'.log == (if FindEvent(t.log, e.id).Some? then t.log else t.log + [r.value]))
      && (r.Ok? ==> r.value in t'.log && r.value.event == e && AppendEvent(t', e) == (t', r))
  {
    hide ProjectFinding, IsLifecycle, ValidateEvent, Blank;
    var (t', r) := AppendEvent(t, e);
    if r.Ok? && FindEvent(t.log, e.id).None? {
      FindLast(t.log, r.value);
    }
  }

  lemma {:induction false} FindLast(log: seq<Record>, r: Record)
    requires forall i :: 0 <= i < |log| ==> log[i].event.id != r.event.id
    ensures FindEvent(log + [r], r.event.id) == Some(r)
  {
    if log != [] {
      assert (log + [r])[1..] == log[1..] + [r];
      FindLast(log[1..], r);
    }
  }

  // ----- replay by event-type pattern -----

  lemma {:induction false} ReplayNeedsLifecycle(rows: seq<Record>)
    requires Replay(rows).Ok?
    ensures forall i :: 0 <= i < |rows| ==> IsLifecycle(rows[i].event.kind)
  {
    hide Blank, ValidFinding;
    if rows != [] { ReplayNeedsLifecycle(rows[..|rows| - 1]); }
  }

  lemma LifecycleMatchesPattern(kind: string)
    requires IsLifecycle(kind)
    ensures LikeFinding(kind)
  {
    assert kind[..8] == "finding.";
    assert ToLowerAscii(kind[..8]) == "finding.";
  }

  lemma {:induction false} SelectMember(log: seq<Record>, keep: Record -> bool, i: nat)
    requires i < |log| && keep(log[i])
    ensures log[i] in Select(log, keep)
  {
    if i < |log| - 1 { SelectMember(log[..|log| - 1], keep, i); }
  }

  lemma {:induction false} SelectAgree(log: seq<Record>, keep: Record -> bool, other: Record -> bool)
    requires forall i :: 0 <= i < |log| ==> keep(log[i]) == other(log[i])
    ensures Select(log, keep) == Select(log, other)
  {
    if log != [] {
      assert forall i :: 0 <= i < |log| - 1 ==> log[..|log| - 1][i] == log[i];
      SelectAgree(log[..|log| - 1], keep, other);
    }
  }

  /** No logged type matches `LIKE 'finding.%'` without being one of the five lifecycle types. */
  ghost predicate OnlyLifecycleMatches(log: seq<Record>) {
    forall i :: 0 <= i < |log| && LikeFinding(log[i].event.kind) ==> IsLifecycle(log[i].event.kind)
  }

  /** `RebuildFindings` succeeds exactly when every logged type its pattern selects is a lifecycle
      type; it then reproduces the table, and otherwise changes nothing. */
  lemma RebuildExact(t: Tables)
    requires Consistent(t)
    ensures RebuildTable(t).1.Ok? <==> OnlyLifecycleMatches(t.log)
    ensures RebuildTable(t).0 == t
  {
    hide IsLifecycle, LikeFinding, ProjectFinding;
    if OnlyLifecycleMatches(t.log) {
      forall i | 0 <= i < |t.log| ensures LIKE_FINDING(t.log[i]) == LIFECYCLE(t.log[i]) {
        if IsLifecycle(t.log[i].event.kind) { LifecycleMatchesPattern(t.log[i].event.kind); }
      }
      SelectAgree(t.log, LIKE_FINDING, LIFECYCLE);
    } else {
      var i :| 0 <= i < |t.log| && LikeFinding(t.log[i].event.kind) && !IsLifecycle(t.log[i].event.kind);
      SelectMember(t.log, LIKE_FINDING, i);
      var rows := Select(t.log, LIKE_FINDING);
      if Replay(rows).Ok? { ReplayNeedsLifecycle(rows); }
    }
  }

  /** `Append` does store events whose type the pattern selects without being a lifecycle type; every
      rebuild after that fails, whatever happens in between. */
  lemma RebuildCanFail(ops: seq<Op>, e: Event, later: seq<Op>)
    requires |Run(ops).log| < MAX_SEQUENCE && FindEvent(Run(ops).log, e.id).None?
    requires ValidateEvent(e).None? && LikeFinding(e.kind) && !IsLifecycle(e.kind)
    ensures AppendEvent(Run(ops), e).1.Ok?
    ensures RebuildTable(Run(ops + [Submit(e)] + later)).1.Err?
  {
    hide ProjectFinding, Blank, ValidateEvent, FindEvent, Select, Replay, RebuildTable, IsLifecycle, LikeFinding;
    var t := Run(ops);
    ViewEqualsReplay(ops);
    assert (ops + [Submit(e)])[..|ops|] == ops;
    var t' := Run(ops + [Submit(e)]);
    assert t'.log[|t.log|].event == e;
    ViewEqualsReplay(ops + [Submit(e)] + later);
    LogOnlyGrows(ops + [Submit(e)], later);
    RebuildExact(Run(ops + [Submit(e)] + later));
  }

  lemma {:induction false} LogOnlyGrows(ops: seq<Op>, later: seq<Op>)
    ensures Run(ops).log <= Run(ops + later).log
  {
    hide ProjectFinding, ValidateEvent, FindEvent, RebuildTable, IsLifecycle;
    if later == [] {
      assert ops + later == ops;
    } else {
      var front, last := later[..|later| - 1], later[|later| - 1];
      LogOnlyGrows(ops, front);
      assert (ops + later)[..|ops + later| - 1] == ops + front;
      ViewEqualsReplay(ops + front);
      match last {
        case Submit(e) => AppendIsIdempotent(Run(ops + front), e);
        case RebuildNow =>
      }
    }
  }

  /** Such a type: a lifecycle type with another letter case. */
  lemma CapitalIsNoLifecycle(kind: string)
    requires kind == "Finding.Observed"
    ensures LikeFinding(kind) && !IsLifecycle(kind)
  {
    assert kind[0] == 'F';
    assert OBSERVED[0] == 'f' && ACKNOWLEDGED[0] == 'f' && SUPPRESSED[0] == 'f'
      && UNSUPPRESSED[0] == 'f' && RESOLVED[0] == 'f';
    assert ToLowerAscii(kind[..8]) == "finding.";
  }

  lemma EmptyIsConsistent()
    ensures Consistent(EMPTY)
  {
  }

  /** In every reachable state the table is the fold of the projection over the lifecycle events, in
      sequence order, and a rebuild leaves it unchanged. */
  lemma {:induction false} ViewEqualsReplay(ops: seq<Op>)
    ensures Consistent(Run(ops))
    ensures RebuildTable(Run(ops)).0 == Run(ops)
  {
    if ops == [] {
      EmptyIsConsistent();
    } else {
      var before := Run(ops[..|ops| - 1]);
      ViewEqualsReplay(ops[..|ops| - 1]);
      match ops[|ops| - 1] {
        case Submit(e) => AppendKeepsConsistent(before, e);
        case RebuildNow =>
      }
    }
    RebuildExact(Run(ops));
  }

  // ----- closed form of a finding -----

  ghost predicate Own(r: Record, id: string) {
    IsLifecycle(r.event.kind) && r.event.findingID == id
  }

  ghost predicate Sighting(r: Record, id: string) {
    r.event.kind == OBSERVED && r.event.findingID == id
  }

  ghost function Sightings(log: seq<Record>, id: string): nat {
    if log == [] then 0
    else Sightings(log[..|log| - 1], id) + (if Sighting(log[|log| - 1], id) then 1 else 0)
  }

  ghost predicate Seen(log: seq<Record>, id: string) {
    exists i :: 0 <= i < |log| && Sighting(log[i], id)
  }

  ghost predicate FirstSeenAt(log: seq<Record>, id: string, at: Time) {
    && (exists i :: 0 <= i < |log| && Sighting(log[i], id) && log[i].event.occurredAt == at)
    && (forall i :: 0 <= i < |log| && Sighting(log[i], id) ==> at <= log[i].event.occurredAt)
  }

  ghost predicate LastSeenAt(log: seq<Record>, id: string, at: Time) {
    && (exists i :: 0 <= i < |log| && Sighting(log[i], id) && log[i].event.occurredAt == at)
    && (forall i :: 0 <= i < |log| && Sighting(log[i], id) ==> log[i].event.occurredAt <= at)
  }

  ghost predicate UpdatedAt(log: seq<Record>, id: string, at: Time) {
    && (exists i :: 0 <= i < |log| && Own(log[i], id) && log[i].event.recordedAt == at)
    && (forall i :: 0 <= i < |log| && Own(log[i], id) ==> log[i].event.recordedAt <= at)
  }

  /** `r` is the latest event of the finding. */
  ghost predicate Latest(log: seq<Record>, id: string, r: Record) {
    exists i :: 0 <= i < |log| && log[i] == r && Own(r, id)
      && forall j :: i < j < |log| ==> !Own(log[j], id)
  }

  /** `o` is what the latest sighting reported. */
  ghost predicate LatestReport(log: seq<Record>, id: string, o: Observation) {
    exists i :: 0 <= i < |log| && Sighting(log[i], id) && DecodeObservation(log[i].event) == Ok(o)
      && forall j :: i < j < |log| ==> !Sighting(log[j], id)
  }

  ghost predicate ReportOf(f: Finding, o: Observation) {
    && f.detectorID == o.detectorID && f.category == o.category && f.title == o.title
    && f.summary == o.summary && f.severity == o.severity && f.evidence == o.evidence
    && f.remediation == o.remediation && f.labels == o.labels
  }

  ghost predicate LifecycleFields(f: Finding) {
    && (f.resolution.Some? <==> f.state == Resolved)
    && (f.suppressedUntil.Some? ==> f.state == Suppressed)
    && (f.state == Acknowledged ==> f.acknowledgement.Some?)
  }

  ghost predicate Describes(log: seq<Record>, id: string, f: Finding) {
    && f.id == id
    && f.occurrences == Sightings(log, id)
    && FirstSeenAt(log, id, f.firstSeen)
    && LastSeenAt(log, id, f.lastSeen)
    && UpdatedAt(log, id, f.updatedAt)
    && (exists r :: Latest(log, id, r) && f.lastEventSequence == r.sequence && f.lastEventID == r.event.id)
    && (exists o :: LatestReport(log, id, o) && ReportOf(f, o))
    && LifecycleFields(f)
  }

  ghost predicate ClosedForm(log: seq<Record>, findings: map<string, Finding>) {
    && (forall id :: id in findings ==> Describes(log, id, findings[id]))
    && (forall id :: id in findings <==> Seen(log, id))
    && (forall i :: 0 <= i < |log| && IsLifecycle(log[i].event.kind) ==> log[i].event.findingID in findings)
  }

  lemma {:induction false} SightingsBounded(log: seq<Record>, id: string)
    ensures Sightings(log, id) <= |log|
  {
    if log != [] { SightingsBounded(log[..|log| - 1], id); }
  }

  lemma SightingsSnoc(log: seq<Record>, r: Record, id: string)
    ensures Sightings(log + [r], id) == Sightings(log, id) + (if Sighting(r, id) then 1 else 0)
  {
    assert (log + [r])[..|log|] == log;
  }

  lemma ObservedIsLifecycle()
    ensures IsLifecycle(OBSERVED)
  {
  }

  lemma OthersKeepSpan(log: seq<Record>, r: Record, id: string, f: Finding)
    requires !Own(r, id) && FirstSeenAt(log, id, f.firstSeen) && LastSeenAt(log, id, f.lastSeen)
    ensures FirstSeenAt(log + [r], id, f.firstSeen) && LastSeenAt(log + [r], id, f.lastSeen)
  {
    hide IsLifecycle;
    ObservedIsLifecycle();
    var log' := log + [r];
    assert log'[|log|] == r && forall i :: 0 <= i < |log| ==> log'[i] == log[i];
    var a :| 0 <= a < |log| && Sighting(log[a], id) && log[a].event.occurredAt == f.firstSeen;
    var b :| 0 <= b < |log| && Sighting(log[b], id) && log[b].event.occurredAt == f.lastSeen;
    assert Sighting(log'[a], id) && Sighting(log'[b], id);
  }

  lemma OthersKeepLatest(log: seq<Record>, r: Record, id: string, f: Finding)
    requires !Own(r, id) && UpdatedAt(log, id, f.updatedAt)
    ensures UpdatedAt(log + [r], id, f.updatedAt)
    ensures forall l :: Latest(log, id, l) ==> Latest(log + [r], id, l)
    ensures forall o :: LatestReport(log, id, o) ==> LatestReport(log + [r], id, o)
  {
    hide IsLifecycle, DecodeObservation;
    ObservedIsLifecycle();
    var log' := log + [r];
    assert log'[|log|] == r && forall i :: 0 <= i < |log| ==> log'[i] == log[i];
    var a :| 0 <= a < |log| && Own(log[a], id) && log[a].event.recordedAt == f.updatedAt;
    assert Own(log'[a], id);
  }

  /** Events of other findings, and events that are not lifecycle events, change nothing. */
  lemma OthersChangeNothing(log: seq<Record>, r: Record, id: string, f: Finding)
    requires Describes(log, id, f) && !Own(r, id)
    ensures Describes(log + [r], id, f)
  {
    hide IsLifecycle, ReportOf, LifecycleFields, FirstSeenAt, LastSeenAt, UpdatedAt, Latest, LatestReport;
    ObservedIsLifecycle();
    SightingsSnoc(log, r, id);
    OthersKeepSpan(log, r, id, f);
    OthersKeepLatest(log, r, id, f);
  }

  // How one event of the finding moves it, read off the two versions.

  ghost predicate Counts(f: Finding, f': Finding, r: Record) {
    if r.event.kind == OBSERVED then
      && f'.occurrences == f.occurrences + 1
      && f'.firstSeen == (if r.event.occurredAt < f.firstSeen then r.event.occurredAt else f.firstSeen)
      && f'.lastSeen == (if r.event.occurredAt > f.lastSeen then r.event.occurredAt else f.lastSeen)
      && DecodeObservation(r.event).Ok? && ReportOf(f', DecodeObservation(r.event).value)
    else
      && f'.occurrences == f.occurrences && f'.firstSeen == f.firstSeen && f'.lastSeen == f.lastSeen
      && forall o :: ReportOf(f, o) ==> ReportOf(f', o)
  }

  ghost predicate Advances(f: Finding, f': Finding, r: Record) {
    && f'.id == f.id && f'.lastEventSequence == r.sequence && f'.lastEventID == r.event.id
    && f'.updatedAt == (if r.event.recordedAt > f.updatedAt then r.event.recordedAt else f.updatedAt)
    && LifecycleFields(f')
  }

  lemma NextFindingMoves(f: Finding, r: Record)
    requires LifecycleFields(f) && f.occurrences < MAX_SEQUENCE
    requires NextFinding(Some(f), r).Ok?
    ensures Counts(f, NextFinding(Some(f), r).value, r)
    ensures Advances(f, NextFinding(Some(f), r).value, r)
  {
    hide Blank, ValidObservation;
  }

  lemma ExtendCounts(log: seq<Record>, id: string, f: Finding, f': Finding, r: Record)
    requires Describes(log, id, f) && Own(r, id) && Counts(f, f', r)
    ensures f'.occurrences == Sightings(log + [r], id)
    ensures FirstSeenAt(log + [r], id, f'.firstSeen) && LastSeenAt(log + [r], id, f'.lastSeen)
  {
    hide IsLifecycle, DecodeObservation, ReportOf, LifecycleFields, UpdatedAt, Latest, LatestReport;
    SightingsSnoc(log, r, id);
    var log' := log + [r];
    var n := |log|;
    assert log'[n] == r && forall i :: 0 <= i < n ==> log'[i] == log[i];
    var a :| 0 <= a < n && Sighting(log[a], id) && log[a].event.occurredAt == f.firstSeen;
    var b :| 0 <= b < n && Sighting(log[b], id) && log[b].event.occurredAt == f.lastSeen;
    assert Sighting(log'[a], id) && Sighting(log'[b], id);
  }

  lemma ExtendReport(log: seq<Record>, id: string, f: Finding, f': Finding, r: Record)
    requires Describes(log, id, f) && Own(r, id) && Counts(f, f', r)
    ensures exists o :: LatestReport(log + [r], id, o) && ReportOf(f', o)
  {
    var log' := log + [r];
    assert log'[|log|] == r && forall i :: 0 <= i < |log| ==> log'[i] == log[i];
    if r.event.kind == OBSERVED {
      assert Sighting(log'[|log|], id);
      assert LatestReport(log', id, DecodeObservation(r.event).value);
    } else {
      var o :| LatestReport(log, id, o) && ReportOf(f, o);
      var i :| 0 <= i < |log| && Sighting(log[i], id) && DecodeObservation(log[i].event) == Ok(o)
        && forall j :: i < j < |log| ==> !Sighting(log[j], id);
      assert Sighting(log'[i], id);
      assert LatestReport(log', id, o);
    }
  }

  lemma ExtendAdvances(log: seq<Record>, id: string, f: Finding, f': Finding, r: Record)
    requires Describes(log, id, f) && Own(r, id) && Advances(f, f', r)
    ensures UpdatedAt(log + [r], id, f'.updatedAt)
    ensures Latest(log + [r], id, r)
  {
    var log' := log + [r];
    assert log'[|log|] == r && forall i :: 0 <= i < |log| ==> log'[i] == log[i];
    var a :| 0 <= a < |log| && Own(log[a], id) && log[a].event.recordedAt == f.updatedAt;
    assert Own(log'[a], id) && Own(log'[|log|], id);
  }

  lemma NextDescribes(log: seq<Record>, id: string, f: Finding, r: Record)
    requires Describes(log, id, f) && Own(r, id) && |log| < MAX_SEQUENCE
    requires NextFinding(Some(f), r).Ok?
    ensures Describes(log + [r], id, NextFinding(Some(f), r).value)
  {
    hide NextFinding, Counts, FirstSeenAt, LastSeenAt, UpdatedAt, Latest, LatestReport;
    SightingsBounded(log, id);
    var f' := NextFinding(Some(f), r).value;
    NextFindingMoves(f, r);
    ExtendCounts(log, id, f, f', r);
    ExtendReport(log, id, f, f', r);
    ExtendAdvances(log, id, f, f', r);
  }

  lemma FirstSightingDescribes(log: seq<Record>, id: string, r: Record, o: Observation)
    requires Sighting(r, id) && DecodeObservation(r.event) == Ok(o)
    requires forall i :: 0 <= i < |log| ==> !Own(log[i], id)
    ensures Describes(log + [r], id, NewFinding(r, o))
  {
    var log' := log + [r];
    assert log'[|log|] == r && forall i :: 0 <= i < |log| ==> log'[i] == log[i];
    NoSightings(log, id);
    SightingsSnoc(log, r, id);
    assert Own(r, id);
    assert Latest(log', id, r);
    assert LatestReport(log', id, o);
  }

  lemma {:induction false} NoSightings(log: seq<Record>, id: string)
    requires forall i :: 0 <= i < |log| ==> !Own(log[i], id)
    ensures Sightings(log, id) == 0
  {
    if log != [] {
      assert !Own(log[|log| - 1], id);
      NoSightings(log[..|log| - 1], id);
    }
  }

  lemma SeenSnoc(log: seq<Record>, r: Record, id: string)
    ensures Seen(log + [r], id) <==> Seen(log, id) || Sighting(r, id)
  {
    var log' := log + [r];
    assert log'[|log|] == r && forall i :: 0 <= i < |log| ==> log'[i] == log[i];
    if Seen(log, id) {
      var i :| 0 <= i < |log| && Sighting(log[i], id);
      assert Sighting(log'[i], id);
    }
    if Sighting(r, id) { assert Sighting(log'[|log|], id); }
  }

  /** What a successful projection wrote, and for which finding. */
  lemma ProjectionShape(findings: map<string, Finding>, r: Record)
    requires forall id :: id in findings ==> findings[id].id == id
    requires ProjectFinding(findings, r).Ok?
    ensures IsLifecycle(r.event.kind)
    ensures var id := r.event.findingID;
      && NextFinding(Lookup(findings, id), r).Ok?
      && ProjectFinding(findings, r).value == findings[id := NextFinding(Lookup(findings, id), r).value]
      && (id !in findings ==> (
            && r.event.kind == OBSERVED && DecodeObservation(r.event).Ok?
            && NextFinding(None, r).value == NewFinding(r, DecodeObservation(r.event).value)))
  {
    hide Blank, ValidFinding, ValidObservation;
  }

  lemma ProjectionKeepsClosedForm(log: seq<Record>, findings: map<string, Finding>, r: Record)
    requires ClosedForm(log, findings) && |log| < MAX_SEQUENCE
    requires ProjectFinding(findings, r).Ok?
    ensures ClosedForm(log + [r], ProjectFinding(findings, r).value)
  {
    hide ProjectFinding, NextFinding, Describes, Seen, IsLifecycle;
    assert forall id :: id in findings ==> findings[id].id == id by { DescribesNames(log, findings); }
    ProjectionShape(findings, r);
    var id := r.event.findingID;
    var findings' := ProjectFinding(findings, r).value;
    if id in findings {
      NextDescribes(log, id, findings[id], r);
    } else {
      FirstSightingDescribes(log, id, r, DecodeObservation(r.event).value);
    }
    forall x | x in findings' ensures Describes(log + [r], x, findings'[x]) {
      if x != id { OthersChangeNothing(log, r, x, findings[x]); }
    }
    forall x ensures x in findings' <==> Seen(log + [r], x) { SeenSnoc(log, r, x); }
  }

  lemma DescribesNames(log: seq<Record>, findings: map<string, Finding>)
    requires forall id :: id in findings ==> Describes(log, id, findings[id])
    ensures forall id :: id in findings ==> findings[id].id == id
  {
  }

  lemma OtherEventKeepsClosedForm(log: seq<Record>, findings: map<string, Finding>, r: Record)
    requires ClosedForm(log, findings) && !IsLifecycle(r.event.kind)
    ensures ClosedForm(log + [r], findings)
  {
    hide Describes, Seen;
    forall x | x in findings ensures Describes(log + [r], x, findings[x]) {
      OthersChangeNothing(log, r, x, findings[x]);
    }
    forall x ensures x in findings <==> Seen(log + [r], x) { SeenSnoc(log, r, x); }
  }

  lemma {:induction false} ViewHasClosedForm(log: seq<Record>)
    requires |log| <= MAX_SEQUENCE && View(log).Ok?
    ensures ClosedForm(log, View(log).value)
  {
    hide ProjectFinding, ClosedForm, IsLifecycle;
    if log == [] {
      EmptyClosedForm();
    } else {
      var front, r := log[..|log| - 1], log[|log| - 1];
      assert log == front + [r];
      SelectSnoc(front, r, LIFECYCLE);
      ViewSnoc(front, r);
      var rows := Select(front, LIFECYCLE);
      assert (rows + [r])[..|rows|] == rows && rows + [] == rows;
      ViewHasClosedForm(front);
      if IsLifecycle(r.event.kind) {
        ProjectionKeepsClosedForm(front, View(front).value, r);
      } else {
        OtherEventKeepsClosedForm(front, View(front).value, r);
      }
    }
  }

  /** Closed form of the projection, for every reachable state. */
  lemma ProjectionClosedForm(ops: seq<Op>)
    ensures ClosedForm(Run(ops).log, Run(ops).findings)
  {
    hide ClosedForm;
    ViewEqualsReplay(ops);
    ViewHasClosedForm(Run(ops).log);
  }

  /** Every stored finding passes validation and sits under its own id. */
  lemma {:induction false} StoredFindingsAreValid(rows: seq<Record>)
    requires Replay(rows).Ok?
    ensures forall id :: id in Replay(rows).value ==>
      ValidFinding(Replay(rows).value[id]) && Replay(rows).value[id].id == id
  {
    hide NextFinding, ValidFinding;
    if rows != [] { StoredFindingsAreValid(rows[..|rows| - 1]); }
  }

  lemma EmptyClosedForm()
    ensures ClosedForm(EMPTY.log, EMPTY.findings)
  {
  }

  // ----- a finding depends on its own events only -----

  const OWN: string -> Record -> bool :=
    (id: string) => (r: Record) => IsLifecycle(r.event.kind) && r.event.findingID == id

  lemma ProjectionIsLocal(findings: map<string, Finding>, small: map<string, Finding>, r: Record)
    requires forall id :: id in findings ==> findings[id].id == id
    requires ProjectFinding(findings, r).Ok?
    requires Lookup(findings, r.event.findingID) == Lookup(small, r.event.findingID)
    requires forall id :: id in small ==> small[id].id == id
    ensures ProjectFinding(small, r).Ok?
    ensures Lookup(ProjectFinding(small, r).value, r.event.findingID)
         == Lookup(ProjectFinding(findings, r).value, r.event.findingID)
    ensures forall id :: id != r.event.findingID ==>
      && Lookup(ProjectFinding(findings, r).value, id) == Lookup(findings, id)
      && Lookup(ProjectFinding(small, r).value, id) == Lookup(small, id)
    ensures forall id :: id in ProjectFinding(findings, r).value ==> ProjectFinding(findings, r).value[id].id == id
    ensures forall id :: id in ProjectFinding(small, r).value ==> ProjectFinding(small, r).value[id].id == id
  {
    hide NextFinding, ValidFinding;
    NextKeepsName(Lookup(findings, r.event.findingID), r);
  }

  lemma NextKeepsName(current: Option<Finding>, r: Record)
    requires current.Some? ==> current.value.id == r.event.findingID
    requires NextFinding(current, r).Ok?
    ensures NextFinding(current, r).value.id == r.event.findingID
  {
    hide Blank, ValidObservation;
  }

  /** Replaying a finding's own events alone gives the same finding. */
  lemma {:induction false} OwnEventsSuffice(log: seq<Record>, id: string)
    requires View(log).Ok?
    ensures Replay(Select(log, OWN(id))).Ok?
    ensures Lookup(Replay(Select(log, OWN(id))).value, id) == Lookup(View(log).value, id)
    ensures forall x :: x in View(log).value ==> View(log).value[x].id == x
    ensures forall x :: x in Replay(Select(log, OWN(id))).value ==>
      Replay(Select(log, OWN(id))).value[x].id == x
  {
    hide ProjectFinding, IsLifecycle;
    if log != [] {
      var front, r := log[..|log| - 1], log[|log| - 1];
      assert log == front + [r];
      SelectSnoc(front, r, LIFECYCLE);
      SelectSnoc(front, r, OWN(id));
      var all, own := Select(front, LIFECYCLE), Select(front, OWN(id));
      ViewSnoc(front, r);
      assert (all + [r])[..|all|] == all && (own + [r])[..|own|] == own;
      assert all + [] == all && own + [] == own;
      OwnEventsSuffice(front, id);
      if IsLifecycle(r.event.kind) {
        if r.event.findingID == id {
          ProjectionIsLocal(View(front).value, Replay(own).value, r);
        } else {
          ProjectionIsLocal(View(front).value, View(front).value, r);
        }
      }
    }
  }
}
