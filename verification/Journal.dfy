/** The event-sourced journal of internal/journal/sqlite.go: an append-only log, the materialized
    `current_findings` table, and its reconstruction by replay. */
module Journal {
  import opened Model

  /** A committed event and its AUTOINCREMENT row id. */
  datatype Record = Record(sequence: nat, event: Event)

  /** The two tables. */
  datatype Tables = Tables(log: seq<Record>, findings: map<string, Finding>)

  const EMPTY := Tables([], map[])

  /** The largest row id SQLite hands out (a signed 64-bit integer). */
  const MAX_SEQUENCE: nat := 0x7FFF_FFFF_FFFF_FFFF
  const UINT64: nat := 0x1_0000_0000_0000_0000

  datatype JournalError =
    | InvalidEvent(reason: EventError) | FindingIDRequired | EventIDConflict | JournalFull
    | FindingNotFound | InvalidTransition(from: FindingState, to: FindingState)
    | PayloadRequired | PayloadUndecodable | InvalidObservation | ActorRequired
    | UntilNotAfterRecorded | UnsupportedLifecycleEvent | InvalidFinding | NegativeAfter

  // ----- projection of one event -----

  function DecodeObservation(e: Event): Result<Observation, JournalError> {
    match e.payload
    case Absent => Err(PayloadRequired)
    case NotJson => Err(PayloadUndecodable)
    case Json(_, Some(o), _) => Ok(o)
    case Json(_, None, _) => Err(PayloadUndecodable)
  }

  function ReadTransition(e: Event): Result<Transition, JournalError> {
    match e.payload
    case Absent => Err(PayloadRequired)
    case NotJson => Err(PayloadUndecodable)
    case Json(_, _, None) => Err(PayloadUndecodable)
    case Json(_, _, Some(t)) => if Blank(t.actor) then Err(ActorRequired) else Ok(t)
  }

  function ActionFrom(e: Event, t: Transition): Action { Action(e.recordedAt, t.actor, t.note) }

  function Advance(f: Finding, r: Record): Finding {
    f.(updatedAt := if r.event.recordedAt > f.updatedAt then r.event.recordedAt else f.updatedAt,
       lastEventID := r.event.id,
       lastEventSequence := r.sequence)
  }

  function NewFinding(r: Record, o: Observation): Finding {
    Finding(FINDING_SCHEMA, SCHEMA_VERSION, r.event.findingID, o.detectorID, o.category, o.title,
            o.summary, o.severity, Open, r.event.occurredAt, r.event.occurredAt, r.event.recordedAt,
            1, o.evidence, o.remediation, o.labels, None, None, None, r.event.id, r.sequence)
  }

  function ObserveAgain(f: Finding, r: Record, o: Observation): Finding {
    var seen := f.(
      detectorID := o.detectorID, category := o.category, title := o.title, summary := o.summary,
      severity := o.severity, evidence := o.evidence, remediation := o.remediation,
      labels := o.labels, occurrences := (f.occurrences + 1) % UINT64,
      firstSeen := if r.event.occurredAt < f.firstSeen then r.event.occurredAt else f.firstSeen,
      lastSeen := if r.event.occurredAt > f.lastSeen then r.event.occurredAt else f.lastSeen);
    var reopened :=
      if seen.state == Resolved then seen.(state := Open, acknowledgement := None, resolution := None)
      else seen;
    var woken :=
      if && reopened.state == Suppressed && reopened.suppressedUntil.Some?
         && reopened.suppressedUntil.value <= r.event.recordedAt
      then reopened.(state := Open, suppressedUntil := None)
      else reopened;
    Advance(woken, r)
  }

  /** The finding an event leaves behind, before it is validated and stored. */
  function NextFinding(current: Option<Finding>, r: Record): Result<Finding, JournalError> {
    var e := r.event;
    if e.kind == OBSERVED then
      match DecodeObservation(e)
      case Err(error) => Err(error)
      case Ok(o) =>
        if !ValidObservation(o) then Err(InvalidObservation)
        else Ok(if current.None? then NewFinding(r, o) else ObserveAgain(current.value, r, o))
    else if !IsLifecycle(e.kind) then Err(UnsupportedLifecycleEvent)
    else if current.None? then Err(FindingNotFound)
    else
      var f := current.value;
      if e.kind == ACKNOWLEDGED then
        if f.state != Open then Err(InvalidTransition(f.state, Acknowledged))
        else
          match ReadTransition(e)
          case Err(error) => Err(error)
          case Ok(t) => Ok(Advance(f.(state := Acknowledged, acknowledgement := Some(ActionFrom(e, t)),
                                      resolution := None, suppressedUntil := None), r))
      else if e.kind == SUPPRESSED then
        if f.state == Resolved then Err(InvalidTransition(f.state, Suppressed))
        else
          match ReadTransition(e)
          case Err(error) => Err(error)
          case Ok(t) =>
            if t.until.Some? && t.until.value <= e.recordedAt then Err(UntilNotAfterRecorded)
            else Ok(Advance(f.(state := Suppressed, suppressedUntil := t.until, resolution := None), r))
      else if e.kind == UNSUPPRESSED then
        if f.state != Suppressed then Err(InvalidTransition(f.state, Open))
        else
          match ReadTransition(e)
          case Err(error) => Err(error)
          case Ok(_) => Ok(Advance(f.(state := Open, suppressedUntil := None), r))
      else
        if f.state == Resolved then Err(InvalidTransition(f.state, Resolved))
        else
          match ReadTransition(e)
          case Err(error) => Err(error)
          case Ok(t) => Ok(Advance(f.(state := Resolved, resolution := Some(ActionFrom(e, t)),
                                      suppressedUntil := None), r))
  }

  function Lookup(findings: map<string, Finding>, id: string): Option<Finding> {
    if id in findings then Some(findings[id]) else None
  }

  function ProjectFinding(findings: map<string, Finding>, r: Record):
    Result<map<string, Finding>, JournalError>
  {
    match NextFinding(Lookup(findings, r.event.findingID), r)
    case Err(error) => Err(error)
    case Ok(f) => if ValidFinding(f) then Ok(findings[f.id := f]) else Err(InvalidFinding)
  }

  // ----- the transactions, as functions on the tables -----

  function FindEvent(log: seq<Record>, id: string): (r: Option<Record>)
    ensures r.Some? ==> r.value in log && r.value.event.id == id
    ensures r.None? ==> forall i :: 0 <= i < |log| ==> log[i].event.id != id
  {
    if log == [] then None
    else if log[0].event.id == id then Some(log[0])
    else FindEvent(log[1..], id)
  }

  function AppendEvent(t: Tables, e: Event): (Tables, Result<Record, JournalError>) {
    if ValidateEvent(e).Some? then (t, Err(InvalidEvent(ValidateEvent(e).value)))
    else if IsLifecycle(e.kind) && Blank(e.findingID) then (t, Err(FindingIDRequired))
    else
      match FindEvent(t.log, e.id)
      case Some(existing) => (t, if existing.event == e then Ok(existing) else Err(EventIDConflict))
      case None =>
        if |t.log| >= MAX_SEQUENCE then (t, Err(JournalFull))
        else
          var r := Record(|t.log| + 1, e);
          if !IsLifecycle(e.kind) then (t.(log := t.log + [r]), Ok(r))
          else
            match ProjectFinding(t.findings, r)
            case Err(error) => (t, Err(error))
            case Ok(findings) => (Tables(t.log + [r], findings), Ok(r))
  }

  /** Replay from an empty table, in order, stopping at the first error. */
  function Replay(rows: seq<Record>): Result<map<string, Finding>, JournalError> {
    if rows == [] then Ok(map[])
    else
      match Replay(rows[..|rows| - 1])
      case Err(error) => Err(error)
      case Ok(findings) => ProjectFinding(findings, rows[|rows| - 1])
  }

  function Select(log: seq<Record>, keep: Record -> bool): seq<Record> {
    if log == [] then []
    else Select(log[..|log| - 1], keep) + (if keep(log[|log| - 1]) then [log[|log| - 1]] else [])
  }

  function ToLowerAscii(s: string): string {
    seq(|s|, i requires 0 <= i < |s| => if 'A' <= s[i] <= 'Z' then s[i] + 32 as char else s[i])
  }

  /** SQLite's `LIKE 'finding.%'`, which ignores the case of ASCII letters. */
  predicate LikeFinding(kind: string) { |kind| >= 8 && ToLowerAscii(kind[..8]) == "finding." }

  const LIKE_FINDING: Record -> bool := (r: Record) => LikeFinding(r.event.kind)
  const LIFECYCLE: Record -> bool := (r: Record) => IsLifecycle(r.event.kind)

  function RebuildTable(t: Tables): (Tables, Result<(), JournalError>) {
    match Replay(Select(t.log, LIKE_FINDING))
    case Err(error) => (t, Err(error))
    case Ok(findings) => (t.(findings := findings), Ok(()))
  }

  function Beyond(after: int): Record -> bool { (r: Record) => r.sequence > after }

  /** One page of the log. */
  function ReadPage(t: Tables, after: int, limit: int): Result<seq<Record>, JournalError> {
    if after < 0 then Err(NegativeAfter)
    else
      var page := if limit <= 0 then 100 else if limit > 1_000 then 1_000 else limit;
      var rows := Select(t.log, Beyond(after));
      Ok(if |rows| > page then rows[..page] else rows)
  }

  /** The store object, whose methods are the transactions. */
  class Store {
    var events: seq<Record>
    var currentFindings: map<string, Finding>

    constructor ()
      ensures State() == EMPTY
    {
      events, currentFindings := [], map[];
    }

    function State(): Tables
      reads this
    {
      Tables(events, currentFindings)
    }

    method Append(e: Event) returns (r: Result<Record, JournalError>)
      modifies this
      ensures (State(), r) == AppendEvent(old(State()), e)
    {
      hide IsLifecycle, ProjectFinding, ValidateEvent, FindEvent, Blank;
      var invalid := ValidateEvent(e);
      if invalid.Some? {
        return Err(InvalidEvent(invalid.value));
      }
      if IsLifecycle(e.kind) && Blank(e.findingID) {
        return Err(FindingIDRequired);
      }
      var existing := FindEvent(events, e.id);
      if existing.Some? {
        if existing.value.event != e {
          return Err(EventIDConflict);
        }
        return Ok(existing.value);
      }
      if |events| >= MAX_SEQUENCE {
        return Err(JournalFull);
      }
      var record := Record(|events| + 1, e);
      if IsLifecycle(e.kind) {
        var projected := ProjectFinding(currentFindings, record);
        if projected.Err? {
          return Err(projected.error);
        }
        currentFindings := projected.value;
      }
      events := events + [record];
      return Ok(record);
    }

    method Read(after: int, limit: int) returns (r: Result<seq<Record>, JournalError>)
      ensures r == ReadPage(State(), after, limit)
    {
      if after < 0 {
        return Err(NegativeAfter);
      }
      var page := limit;
      if page <= 0 {
        page := 100;
      }
      if page > 1_000 {
        page := 1_000;
      }
      var rows := Select(events, Beyond(after));
      return Ok(if |rows| > page then rows[..page] else rows);
    }

    method RebuildFindings() returns (r: Result<(), JournalError>)
      modifies this
      ensures (State(), r) == RebuildTable(old(State()))
    {
      var rows := Select(events, LIKE_FINDING);
      var table: map<string, Finding> := map[];
      for i := 0 to |rows|
        invariant Replay(rows[..i]) == Ok(table)
      {
        var projected := ProjectFinding(table, rows[i]);
        assert rows[..i + 1][..i] == rows[..i];
        if projected.Err? {
          ReplayStopsAtError(rows, i + 1);
          return Err(projected.error);
        }
        table := projected.value;
      }
      assert rows[..|rows|] == rows;
      currentFindings := table;
      return Ok(());
    }
  }

  lemma {:induction false} ReplayStopsAtError(rows: seq<Record>, n: nat)
    requires n <= |rows| && Replay(rows[..n]).Err?
    ensures Replay(rows) == Replay(rows[..n])
  {
    if n < |rows| {
      assert rows[..|rows| - 1][..n] == rows[..n];
      ReplayStopsAtError(rows[..|rows| - 1], n);
    } else {
      assert rows[..n] == rows;
    }
  }
}
