/** The versioned contracts of internal/model: events, observations, findings. */
module Model {
  import opened Instants

  datatype Option<+T> = None | Some(value: T)

  datatype Result<+T, +E> = Ok(value: T) | Err(error: E)

  const EVENT_SCHEMA := "io.oh-my-safety/event"
  const FINDING_SCHEMA := "io.oh-my-safety/finding"
  const SCHEMA_VERSION := 1

  const OBSERVED := "finding.observed"
  const ACKNOWLEDGED := "finding.acknowledged"
  const SUPPRESSED := "finding.suppressed"
  const UNSUPPRESSED := "finding.unsuppressed"
  const RESOLVED := "finding.resolved"

  /** Severities decoded from JSON may hold any text. */
  datatype Severity = Info | Warn | Critical | OtherSeverity(text: string) {
    predicate Valid() { !OtherSeverity? }
  }

  datatype FindingState = Open | Acknowledged | Suppressed | Resolved

  datatype Subject = Subject(kind: string, id: string, name: string)
  datatype Evidence = Evidence(kind: string, ref: string, summary: string)
  datatype Remediation = Remediation(summary: string, guide: string, reversible: bool)

  datatype Observation = Observation(
    detectorID: string, category: string, title: string, summary: string, severity: Severity,
    evidence: seq<Evidence>, remediation: Option<Remediation>, labels: map<string, string>)

  datatype Transition = Transition(actor: string, note: string, until: Option<Time>)

  /** A raw JSON payload, together with what each typed decoder makes of it.  Go ignores unknown
      fields, so one object may decode both ways; `None` is a decoding error. */
  datatype Payload =
    | Absent
    | NotJson
    | Json(text: string, observation: Option<Observation>, transition: Option<Transition>)

  datatype Event = Event(
    schema: string, schemaVersion: int, id: string, kind: string, occurredAt: Time, recordedAt: Time,
    source: string, platform: string, subject: Option<Subject>, findingID: string,
    correlationID: string, labels: map<string, string>, payload: Payload)

  datatype Action = Action(at: Time, actor: string, note: string)

  datatype Finding = Finding(
    schema: string, schemaVersion: int, id: string, detectorID: string, category: string,
    title: string, summary: string, severity: Severity, state: FindingState, firstSeen: Time,
    lastSeen: Time, updatedAt: Time, occurrences: nat, evidence: seq<Evidence>,
    remediation: Option<Remediation>, labels: map<string, string>, suppressedUntil: Option<Time>,
    acknowledgement: Option<Action>, resolution: Option<Action>, lastEventID: string,
    lastEventSequence: nat)

  /** `unicode.IsSpace`. */
  predicate IsSpace(c: char) {
    || '\t' <= c <= '\r' || c == ' ' || c == '\U{85}' || c == '\U{A0}' || c == '\U{1680}'
    || '\U{2000}' <= c <= '\U{200A}' || c == '\U{2028}' || c == '\U{2029}' || c == '\U{202F}'
    || c == '\U{205F}' || c == '\U{3000}'
  }

  /** `strings.TrimSpace(s) == ""`. */
  predicate Blank(s: string) { forall c :: c in s ==> IsSpace(c) }

  datatype EventError =
    | BadSchema | BadSchemaVersion | IDRequired | TypeRequired | OccurredAtRequired
    | RecordedAtRequired | SourceRequired | PayloadNotJson

  function ValidateEvent(e: Event): Option<EventError> {
    if e.schema != EVENT_SCHEMA then Some(BadSchema)
    else if e.schemaVersion != SCHEMA_VERSION then Some(BadSchemaVersion)
    else if Blank(e.id) then Some(IDRequired)
    else if Blank(e.kind) then Some(TypeRequired)
    else if e.occurredAt == ZERO_TIME then Some(OccurredAtRequired)
    else if e.recordedAt == ZERO_TIME then Some(RecordedAtRequired)
    else if Blank(e.source) then Some(SourceRequired)
    else if e.payload.NotJson? then Some(PayloadNotJson)
    else None
  }

  predicate IsLifecycle(kind: string) {
    || kind == OBSERVED || kind == ACKNOWLEDGED || kind == SUPPRESSED
    || kind == UNSUPPRESSED || kind == RESOLVED
  }

  predicate ValidObservation(o: Observation) {
    !Blank(o.detectorID) && !Blank(o.title) && !Blank(o.summary) && o.severity.Valid()
  }

  predicate ValidFinding(f: Finding) {
    && f.schema == FINDING_SCHEMA && f.schemaVersion == SCHEMA_VERSION
    && !Blank(f.id) && !Blank(f.detectorID) && !Blank(f.title) && f.severity.Valid()
    && f.firstSeen != ZERO_TIME && f.lastSeen != ZERO_TIME && f.updatedAt != ZERO_TIME
    && f.occurrences != 0 && !Blank(f.lastEventID) && f.lastEventSequence > 0
  }
}
