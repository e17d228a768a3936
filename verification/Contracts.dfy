/** The data contracts of internal/controller/types.go: policies, device metadata and reports. */
module Contracts {
  import opened Instants
  import opened Model
  import opened Scan

  const POLICY_SCHEMA := "io.oh-my-safety/organization-policy"
  const REPORT_SCHEMA := "io.oh-my-safety/redacted-report"
  const MAX_POLICY_CHECKS := 512
  const MAX_REPORT_FINDINGS := 2_000
  const MONTH_SECONDS := 31 * 24 * 60 * 60
  const FIVE_MINUTES := 300 * SECOND

  /** Unlike a scan identifier, "." and ".." are allowed. */
  predicate ValidName(value: string) {
    value != "" && |value| <= 128 && forall c :: c in value ==> IdentifierChar(c)
  }

  function TrimLeft(s: string): string {
    if s != "" && IsSpace(s[0]) then TrimLeft(s[1..]) else s
  }

  function TrimRight(s: string): string {
    if s != "" && IsSpace(s[|s| - 1]) then TrimRight(s[..|s| - 1]) else s
  }

  predicate ValidLabel(value: string, maximum: nat) {
    var trimmed := TrimRight(TrimLeft(value));
    trimmed != "" && ByteLength(trimmed) <= maximum && forall c :: c in trimmed ==> !IsControl(c)
  }

  datatype DeviceMetadata = DeviceMetadata(name: string, platform: string, osVersion: string, agentVersion: string)

  predicate ValidDeviceMetadata(m: DeviceMetadata) {
    && ValidLabel(m.name, 256) && ValidLabel(m.platform, 64)
    && ValidLabel(m.osVersion, 256) && ValidLabel(m.agentVersion, 256)
  }

  /** A profile name, with the verdict of `profile.Resolve`. */
  datatype Profile = Preset(name: string) | UnknownPreset(name: string)

  datatype RemediationMode = Observe | Prompt | SafeAutomatic | OtherMode(text: string)
  datatype PolicyCheck = PolicyCheck(id: string, enabled: bool)

  datatype PolicyDocument = PolicyDocument(
    schema: string, schemaVersion: int, id: string, revision: nat, checks: seq<PolicyCheck>,
    profile: Profile, scanIntervalSeconds: nat, jitterSeconds: nat, reportingEnabled: bool,
    syncIntervalSeconds: nat, remediation: RemediationMode)

  predicate ValidPolicy(d: PolicyDocument) {
    && d.schema == POLICY_SCHEMA && d.schemaVersion == 1
    && ValidName(d.id) && d.revision != 0
    && 0 < |d.checks| <= MAX_POLICY_CHECKS
    && 60 <= d.scanIntervalSeconds <= MONTH_SECONDS
    && d.jitterSeconds < d.scanIntervalSeconds
    && (if d.reportingEnabled then 60 <= d.syncIntervalSeconds <= MONTH_SECONDS else d.syncIntervalSeconds == 0)
    && !d.remediation.OtherMode?
    && d.profile.Preset?
    && (forall check :: check in d.checks ==> ValidName(check.id))
    && (forall i, j :: 0 <= i < j < |d.checks| ==> d.checks[i].id != d.checks[j].id)
  }

  datatype RedactedFinding = RedactedFinding(
    detectorID: string, category: string, severity: Severity, state: FindingState,
    firstSeen: Time, lastSeen: Time, occurrences: nat)

  datatype Report = Report(
    schema: string, schemaVersion: int, reportedAt: Time, findings: seq<RedactedFinding>)

  function RedactedKey(f: RedactedFinding): (string, string) { (f.detectorID, f.category) }

  predicate ValidRedacted(f: RedactedFinding, reportedAt: Time) {
    && ValidName(f.detectorID) && ValidName(f.category) && f.severity.Valid()
    && f.firstSeen != ZERO_TIME && f.lastSeen != ZERO_TIME
    && f.firstSeen <= f.lastSeen <= reportedAt + FIVE_MINUTES
    && f.occurrences != 0
  }

  predicate UniqueKeys(findings: seq<RedactedFinding>) {
    forall i, j :: 0 <= i < j < |findings| ==> RedactedKey(findings[i]) != RedactedKey(findings[j])
  }

  predicate ValidReport(r: Report, now: Time) {
    && r.schema == REPORT_SCHEMA && r.schemaVersion == 1
    && r.reportedAt != ZERO_TIME && r.reportedAt <= now + FIVE_MINUTES
    && |r.findings| <= MAX_REPORT_FINDINGS
    && (forall f :: f in r.findings ==> ValidRedacted(f, r.reportedAt))
    && UniqueKeys(r.findings)
  }
}
