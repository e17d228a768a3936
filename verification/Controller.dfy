/** The controller's database of internal/controller/store.go.  Every exported operation is one
    transaction: it commits as a whole or changes nothing. */
module Controller {
  import opened Ordering
  import opened Instants
  import opened Model
  import opened Scan
  import opened Contracts

  const MAX_BEARER_TOKEN_BYTES := 4_096
  const WEEK := 7 * 24 * 3_600 * SECOND

  /** Times are stored as text, and the expiry is compared as text. */
  datatype Token = Token(
    group: string, expiresAt: string, createdAt: string, createdBy: string,
    usedAt: Option<string>, usedBy: Option<string>)

  datatype Device = Device(
    credentialHash: string, metadata: DeviceMetadata, group: string, enrolledAt: string,
    lastSeenAt: Option<string>, rotatedAt: string, revokedAt: Option<string>)

  datatype PolicyRow = PolicyRow(
    revision: nat, document: PolicyDocument, createdAt: string, updatedAt: string,
    createdBy: string, updatedBy: string)

  datatype Assignment = Assignment(policyID: string, updatedAt: string, updatedBy: string)

  datatype FindingRow = FindingRow(finding: RedactedFinding, reportedAt: Time)

  datatype AuditEntry = AuditEntry(
    sequence: nat, actor: string, action: string, targetType: string, targetID: string, createdAt: string)

  type FindingKey = (string, string, string)

  datatype Db = Db(
    tokens: map<string, Token>, devices: map<string, Device>, policies: map<string, PolicyRow>,
    assignments: map<string, Assignment>, findings: map<FindingKey, FindingRow>, audit: seq<AuditEntry>)

  const EMPTY_DB := Db(map[], map[], map[], map[], map[], [])

  datatype StoreError = NotFound | Conflict | Unauthenticated | InvalidInput | StorageFailed

  /** The transactions, with the values the store draws at random as arguments. */
  datatype Op =
    | CreateEnrollmentToken(actor: string, group: string, ttl: int, now: nat, token: string)
    | Enroll(token: string, metadata: DeviceMetadata, now: nat, deviceID: string, credential: string)
    | Heartbeat(deviceID: string, metadata: DeviceMetadata, now: nat)
    | RotateDeviceCredential(deviceID: string, now: nat, credential: string)
    | RevokeDevice(actor: string, deviceID: string, now: nat)
    | AssignDeviceGroup(actor: string, deviceID: string, group: string, now: nat)
    | CreatePolicy(actor: string, document: PolicyDocument, now: nat)
    | UpdatePolicy(actor: string, document: PolicyDocument, now: nat)
    | DeletePolicy(actor: string, policyID: string, now: nat)
    | AssignGroupPolicy(actor: string, group: string, policyID: string, now: nat)
    | UnassignGroupPolicy(actor: string, group: string, now: nat)
    | SyncReport(deviceID: string, report: Report, now: nat)

  /** `UPDATE devices … WHERE id = ? AND revoked_at IS NULL` touches a row. */
  predicate Active(db: Db, deviceID: string) {
    deviceID in db.devices && db.devices[deviceID].revokedAt.None?
  }

  function Audited(db: Db, actor: string, action: string, targetType: string, targetID: string, now: nat): Db {
    db.(audit := db.audit + [AuditEntry(|db.audit| + 1, actor, action, targetType, targetID, TimeText(now))])
  }

  function RowKey(deviceID: string, f: RedactedFinding): FindingKey { (deviceID, f.detectorID, f.category) }

  /** The upserts of a report, in order. */
  function Upsert(rows: map<FindingKey, FindingRow>, deviceID: string, findings: seq<RedactedFinding>,
                  reportedAt: Time): map<FindingKey, FindingRow>
  {
    if findings == [] then rows
    else
      var last := findings[|findings| - 1];
      Upsert(rows, deviceID, findings[..|findings| - 1], reportedAt)
        [RowKey(deviceID, last) := FindingRow(last, reportedAt)]
  }

  function Apply(db: Db, sha: string -> string, op: Op): (Db, Option<StoreError>) {
    match op
    case CreateEnrollmentToken(actor, group, ttl, now, token) =>
      if !ValidName(actor) || !ValidName(group) then (db, Some(InvalidInput))
      else if ttl < 60 * SECOND || ttl > WEEK then (db, Some(InvalidInput))
      else if sha(token) in db.tokens then (db, Some(StorageFailed))
      else
        var row := Token(group, TimeText(now + ttl), TimeText(now), actor, None, None);
        (Audited(db.(tokens := db.tokens[sha(token) := row]), actor, "enrollment_token.create", "group", group, now), None)

    case Enroll(token, metadata, now, deviceID, credential) =>
      if !ValidDeviceMetadata(metadata) then (db, Some(InvalidInput))
      else if token == "" || ByteLength(token) > MAX_BEARER_TOKEN_BYTES then (db, Some(Unauthenticated))
      else if sha(token) !in db.tokens then (db, Some(Unauthenticated))
      else
        var row := db.tokens[sha(token)];
        if row.usedAt.Some? || !StrLess(TimeText(now), row.expiresAt) then (db, Some(Unauthenticated))
        else if deviceID in db.devices then (db, Some(StorageFailed))
        else
          var used := row.(usedAt := Some(TimeText(now)), usedBy := Some(deviceID));
          var device := Device(sha(credential), metadata, row.group, TimeText(now), None, TimeText(now), None);
          (db.(tokens := db.tokens[sha(token) := used], devices := db.devices[deviceID := device]), None)

    case Heartbeat(deviceID, metadata, now) =>
      if !ValidDeviceMetadata(metadata) then (db, Some(InvalidInput))
      else if !Active(db, deviceID) then (db, Some(NotFound))
      else
        var device := db.devices[deviceID].(metadata := metadata, lastSeenAt := Some(TimeText(now)));
        (db.(devices := db.devices[deviceID := device]), None)

    case RotateDeviceCredential(deviceID, now, credential) =>
      if !Active(db, deviceID) then (db, Some(NotFound))
      else
        var device := db.devices[deviceID].(credentialHash := sha(credential), rotatedAt := TimeText(now));
        (db.(devices := db.devices[deviceID := device]), None)

    case RevokeDevice(actor, deviceID, now) =>
      if !ValidName(actor) || !ValidName(deviceID) then (db, Some(InvalidInput))
      else if !Active(db, deviceID) then (db, Some(NotFound))
      else
        var device := db.devices[deviceID].(revokedAt := Some(TimeText(now)));
        (Audited(db.(devices := db.devices[deviceID := device]), actor, "device.revoke", "device", deviceID, now), None)

    case AssignDeviceGroup(actor, deviceID, group, now) =>
      if !ValidName(actor) || !ValidName(deviceID) || !ValidName(group) then (db, Some(InvalidInput))
      else if deviceID !in db.devices then (db, Some(NotFound))
      else
        var device := db.devices[deviceID].(group := group);
        (Audited(db.(devices := db.devices[deviceID := device]), actor, "device.group.assign", "device", deviceID, now), None)

    case CreatePolicy(actor, document, now) =>
      if !ValidName(actor) || !ValidPolicy(document) || document.revision != 1 then (db, Some(InvalidInput))
      else if document.id in db.policies then (db, Some(Conflict))
      else
        var row := PolicyRow(1, document, TimeText(now), TimeText(now), actor, actor);
        (Audited(db.(policies := db.policies[document.id := row]), actor, "policy.create", "policy", document.id, now), None)

    case UpdatePolicy(actor, document, now) =>
      if !ValidName(actor) || !ValidPolicy(document) then (db, Some(InvalidInput))
      else if document.id !in db.policies || db.policies[document.id].revision != document.revision - 1
      then (db, Some(Conflict))
      else
        var row := db.policies[document.id].(revision := document.revision, document := document,
                                             updatedAt := TimeText(now), updatedBy := actor);
        (Audited(db.(policies := db.policies[document.id := row]), actor, "policy.update", "policy", document.id, now), None)

    case DeletePolicy(actor, policyID, now) =>
      if !ValidName(actor) || !ValidName(policyID) then (db, Some(InvalidInput))
      else if exists group :: group in db.assignments && db.assignments[group].policyID == policyID
      then (db, Some(Conflict))
      else if policyID !in db.policies then (db, Some(NotFound))
      else (Audited(db.(policies := db.policies - {policyID}), actor, "policy.delete", "policy", policyID, now), None)

    case AssignGroupPolicy(actor, group, policyID, now) =>
      if !ValidName(actor) || !ValidName(group) || !ValidName(policyID) then (db, Some(InvalidInput))
      else if policyID !in db.policies then (db, Some(NotFound))
      else
        var row := Assignment(policyID, TimeText(now), actor);
        (Audited(db.(assignments := db.assignments[group := row]), actor, "group.policy.assign", "group", group, now), None)

    case UnassignGroupPolicy(actor, group, now) =>
      if !ValidName(actor) || !ValidName(group) then (db, Some(InvalidInput))
      else if group !in db.assignments then (db, Some(NotFound))
      else (Audited(db.(assignments := db.assignments - {group}), actor, "group.policy.remove", "group", group, now), None)

    case SyncReport(deviceID, report, now) =>
      if !ValidReport(report, now) then (db, Some(InvalidInput))
      else if deviceID !in db.devices && report.findings != [] then (db, Some(StorageFailed))
      else if !Active(db, deviceID) then (db, Some(NotFound))
      else
        var device := db.devices[deviceID].(lastSeenAt := Some(TimeText(now)));
        (db.(findings := Upsert(db.findings, deviceID, report.findings, report.reportedAt),
             devices := db.devices[deviceID := device]), None)
  }

  function AuthenticateDevice(db: Db, sha: string -> string, deviceID: string, credential: string): Option<Device> {
    var candidate := sha(if ByteLength(credential) > MAX_BEARER_TOKEN_BYTES then "" else credential);
    if Active(db, deviceID) && db.devices[deviceID].credentialHash == candidate
    then Some(db.devices[deviceID])
    else None
  }

  function PolicyForDevice(db: Db, deviceID: string): Option<PolicyDocument> {
    if !Active(db, deviceID) then None
    else
      var group := db.devices[deviceID].group;
      if group !in db.assignments then None
      else
        var id := db.assignments[group].policyID;
        if id in db.policies then Some(db.policies[id].document) else None
  }
}
