/** Scan ingestion of internal/bridge/ingest.go: a non-atomic series of appends with deterministic
    event ids and a completion marker. */
module Ingest {
  import opened Model
  import opened Journal
  import opened Scan

  datatype ScanCounts = ScanCounts(ok: nat, warn: nat, critical: nat, skipped: nat, error: nat)

  /** The payloads the bridge encodes. */
  datatype BridgePayload =
    | CheckPayload(result: CheckResult, scope: ScanScope)
    | ObservationPayload(observation: Observation)
    | TransitionPayload(transition: Transition)
    | CompletedPayload(metadata: ScanMetadata, counts: ScanCounts)

  /** Hashing and encoding: the digest of a canonical snapshot, hex SHA-256 of a text, and JSON. */
  datatype Codec = Codec(
    digest: ScanSnapshot -> string, hash: string -> string, encode: BridgePayload -> Payload)

  /** The hash has no collisions and a decoder reads back what was encoded. */
  ghost predicate Lawful(c: Codec) {
    && (forall x, y :: c.hash(x) == c.hash(y) ==> x == y)
    && (forall p :: c.encode(p).Json?)
    && (forall o :: c.encode(ObservationPayload(o)).observation == Some(o))
    && (forall t :: c.encode(TransitionPayload(t)).transition == Some(t))
  }

  datatype IngestError = InvalidSnapshot | MarkerConflict | AppendFailed(error: JournalError)

  datatype Envelope = Envelope(
    snapshotID: string, correlationID: string, results: nat, alreadyIngested: bool)

  // ----- texts and identifiers -----

  function StatusText(s: CheckStatus): string {
    match s
    case StatusOK => "ok"
    case StatusWarn => "warn"
    case StatusCritical => "critical"
    case StatusSkip => "skip"
    case StatusError => "error"
    case OtherStatus(text) => text
  }

  function ScopeText(s: ScanScope): string {
    match s
    case Full => "full"
    case Partial => "partial"
    case Composite => "composite"
    case OtherScope(text) => text
  }

  const NUL: char := '\0'

  /** Each part preceded by a NUL byte. */
  function JoinNul(parts: seq<string>): string {
    if parts == [] then "" else [NUL] + parts[0] + JoinNul(parts[1..])
  }

  function EventID(c: Codec, digest: string, parts: seq<string>): string {
    "bridge:v1:" + c.hash("oh-my-safety:bridge:v1" + JoinNul([digest]) + JoinNul(parts))
  }

  function FindingID(r: CheckResult): string { "check:" + r.category + "/" + r.name }

  function CountStatus(results: seq<CheckResult>, status: CheckStatus): nat {
    if results == [] then 0
    else CountStatus(results[..|results| - 1], status)
         + (if results[|results| - 1].status == status then 1 else 0)
  }

  function CountsOf(results: seq<CheckResult>): ScanCounts {
    ScanCounts(CountStatus(results, StatusOK), CountStatus(results, StatusWarn),
               CountStatus(results, StatusCritical), CountStatus(results, StatusSkip),
               CountStatus(results, StatusError))
  }

  /** The loop of `scanCounts`. */
  method CountResults(results: seq<CheckResult>) returns (counts: ScanCounts)
    ensures counts == CountsOf(results)
  {
    counts := ScanCounts(0, 0, 0, 0, 0);
    for i := 0 to |results|
      invariant counts == CountsOf(results[..i])
    {
      assert results[..i + 1][..i] == results[..i];
      match results[i].status {
        case StatusOK => counts := counts.(ok := counts.ok + 1);
        case StatusWarn => counts := counts.(warn := counts.warn + 1);
        case StatusCritical => counts := counts.(critical := counts.critical + 1);
        case StatusSkip => counts := counts.(skipped := counts.skipped + 1);
        case StatusError => counts := counts.(error := counts.error + 1);
        case OtherStatus(_) =>
      }
    }
    assert results[..|results|] == results;
  }

  // ----- events -----

  /** What one ingestion keeps fixed: codec, metadata and digest. */
  datatype Context = Context(codec: Codec, metadata: ScanMetadata, digest: string)

  function BridgeEvent(x: Context, parts: seq<string>, kind: string, findingID: string,
                       subject: Subject, labels: map<string, string>, payload: BridgePayload): Event
  {
    Event(EVENT_SCHEMA, SCHEMA_VERSION, EventID(x.codec, x.digest, parts), kind,
          x.metadata.updatedAt, x.metadata.updatedAt, x.metadata.source, x.metadata.platform,
          Some(subject), findingID, "scan:" + x.digest, labels, x.codec.encode(payload))
  }

  function CheckSubject(r: CheckResult): Subject {
    Subject("check", r.category + "/" + r.name, r.name)
  }

  const CHECK_RESULT := "check.result"
  const SCAN_COMPLETED := "scan.completed"

  function CheckEvent(x: Context, r: CheckResult): Event {
    BridgeEvent(x, [CHECK_RESULT, r.category, r.name], CHECK_RESULT, "", CheckSubject(r),
                map["category" := r.category, "scope" := ScopeText(x.metadata.scope),
                    "status" := StatusText(r.status)],
                CheckPayload(r, x.metadata.scope))
  }

  function ObservationOf(x: Context, r: CheckResult): Observation {
    var remediation :=
      if r.remediation == "" && r.guide == "" then None
      else Some(Remediation(if r.remediation == "" then "Review the check guide." else r.remediation,
                            r.guide, false));
    Observation(r.name, r.category, r.name + " check reported " + StatusText(r.status), r.summary,
                r.severity, [], remediation,
                map["scope" := ScopeText(x.metadata.scope), "source" := x.metadata.source,
                    "status" := StatusText(r.status)])
  }

  function FindingLabels(x: Context, r: CheckResult): map<string, string> {
    map["category" := r.category, "scope" := ScopeText(x.metadata.scope)]
  }

  function ObservedEvent(x: Context, r: CheckResult): Event {
    BridgeEvent(x, [OBSERVED, r.category, r.name], OBSERVED, FindingID(r), CheckSubject(r),
                FindingLabels(x, r), ObservationPayload(ObservationOf(x, r)))
  }

  const RESOLUTION := Transition("bridge:last-scan-v1", "check returned ok", None)

  function ResolvedEvent(x: Context, r: CheckResult): Event {
    BridgeEvent(x, [RESOLVED, r.category, r.name], RESOLVED, FindingID(r), CheckSubject(r),
                FindingLabels(x, r), TransitionPayload(RESOLUTION))
  }

  function CompletedEvent(x: Context, results: seq<CheckResult>): Event {
    BridgeEvent(x, [SCAN_COMPLETED], SCAN_COMPLETED, "", Subject("host", "local", x.metadata.platform),
                map["scope" := ScopeText(x.metadata.scope)],
                CompletedPayload(x.metadata, CountsOf(results)))
  }

  // ----- the run as a list of tasks, each at most one append -----

  datatype Task = Check(result: CheckResult) | Settle(result: CheckResult) | Complete(marker: Event)

  function Outcome(r: (Tables, Result<Record, JournalError>)): (Tables, Option<JournalError>) {
    (r.0, if r.1.Ok? then None else Some(r.1.error))
  }

  function DoTask(t: Tables, x: Context, task: Task): (Tables, Option<JournalError>) {
    match task
    case Check(r) => Outcome(AppendEvent(t, CheckEvent(x, r)))
    case Complete(marker) => Outcome(AppendEvent(t, marker))
    case Settle(r) =>
      match r.status
      case StatusWarn => Outcome(AppendEvent(t, ObservedEvent(x, r)))
      case StatusCritical => Outcome(AppendEvent(t, ObservedEvent(x, r)))
      case StatusError => Outcome(AppendEvent(t, ObservedEvent(x, r)))
      case StatusOK =>
        var current := Lookup(t.findings, FindingID(r));
        if current.None? || current.value.state == Resolved then (t, None)
        else Outcome(AppendEvent(t, ResolvedEvent(x, r)))
      case _ => (t, None)
  }

  /** Tasks in order, stopping at the first error. */
  function RunTasks(t: Tables, x: Context, tasks: seq<Task>): (Tables, Option<JournalError>)
    decreases |tasks|
  {
    if tasks == [] then (t, None)
    else
      var (t', error) := DoTask(t, x, tasks[0]);
      if error.Some? then (t', error) else RunTasks(t', x, tasks[1..])
  }

  function RowTasks(results: seq<CheckResult>): seq<Task> {
    if results == [] then []
    else
      var last := results[|results| - 1];
      RowTasks(results[..|results| - 1]) + [Check(last), Settle(last)]
  }

  function ContextOf(c: Codec, s: ScanSnapshot): Context {
    Context(c, s.metadata, c.digest(Canonical(s)))
  }

  function MarkerOf(c: Codec, s: ScanSnapshot): Event { CompletedEvent(ContextOf(c, s), s.results) }

  function TasksOf(c: Codec, s: ScanSnapshot): seq<Task> {
    RowTasks(SortResults(s.results)) + [Complete(MarkerOf(c, s))]
  }

  function EnvelopeOf(c: Codec, s: ScanSnapshot, already: bool): Envelope {
    var digest := c.digest(Canonical(s));
    Envelope("sha256:" + digest, "scan:" + digest, |s.results|, already)
  }

  function IngestScan(t: Tables, c: Codec, s: ScanSnapshot): (Tables, Result<Envelope, IngestError>) {
    if !ValidSnapshot(s) then (t, Err(InvalidSnapshot))
    else
      var marker := MarkerOf(c, s);
      match FindEvent(t.log, marker.id)
      case Some(existing) =>
        (t, if existing.event == marker then Ok(EnvelopeOf(c, s, true)) else Err(MarkerConflict))
      case None =>
        var (t', error) := RunTasks(t, ContextOf(c, s), TasksOf(c, s));
        (t', if error.Some? then Err(AppendFailed(error.value)) else Ok(EnvelopeOf(c, s, false)))
  }

  /** The tables after a run that stops before its task number `k`. */
  function Interrupted(t: Tables, c: Codec, s: ScanSnapshot, k: nat): Tables {
    if !ValidSnapshot(s) || FindEvent(t.log, MarkerOf(c, s).id).Some? || k >= |TasksOf(c, s)|
    then IngestScan(t, c, s).0
    else RunTasks(t, ContextOf(c, s), TasksOf(c, s)[..k]).0
  }

  lemma {:induction false} RunTasksConcat(t: Tables, x: Context, a: seq<Task>, b: seq<Task>)
    ensures RunTasks(t, x, a + b) ==
      if RunTasks(t, x, a).1.Some? then RunTasks(t, x, a) else RunTasks(RunTasks(t, x, a).0, x, b)
    decreases |a|
  {
    hide DoTask;
    if a == [] {
      assert a + b == b;
    } else {
      assert (a + b)[0] == a[0] && (a + b)[1..] == a[1..] + b;
      RunTasksConcat(DoTask(t, x, a[0]).0, x, a[1..], b);
    }
  }
}
