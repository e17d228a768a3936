/** The store object: six tables, and one method per transaction. */
module ControllerStore {
  import opened Ordering
  import opened Instants
  import opened Model
  import opened Scan
  import opened Contracts
  import opened Controller

  class Store {
    const sha: string -> string
    var tokens: map<string, Token>
    var devices: map<string, Device>
    var policies: map<string, PolicyRow>
    var assignments: map<string, Assignment>
    var findings: map<FindingKey, FindingRow>
    var audit: seq<AuditEntry>

    constructor (sha: string -> string)
      ensures State() == EMPTY_DB && this.sha == sha
    {
      this.sha := sha;
      tokens, devices, policies, assignments, findings, audit := map[], map[], map[], map[], map[], [];
    }

    function State(): Db
      reads this
    {
      Db(tokens, devices, policies, assignments, findings, audit)
    }

    method AppendAudit(actor: string, action: string, targetType: string, targetID: string, now: nat)
      modifies this`audit
      ensures State() == Audited(old(State()), actor, action, targetType, targetID, now)
    {
      audit := audit + [AuditEntry(|audit| + 1, actor, action, targetType, targetID, TimeText(now))];
    }

    method CreateEnrollmentToken(actor: string, group: string, ttl: int, now: nat, token: string)
      returns (error: Option<StoreError>)
      modifies this
      ensures (State(), error) == Apply(old(State()), sha, Op.CreateEnrollmentToken(actor, group, ttl, now, token))
    {
      if !ValidName(actor) || !ValidName(group) || ttl < 60 * SECOND || ttl > WEEK {
        return Some(InvalidInput);
      }
      var hash := sha(token);
      if hash in tokens {
        return Some(StorageFailed);
      }
      tokens := tokens[hash := Token(group, TimeText(now + ttl), TimeText(now), actor, None, None)];
      AppendAudit(actor, "enrollment_token.create", "group", group, now);
      return None;
    }

    /** Consuming the token and creating the device commit together. */
    method Enroll(token: string, metadata: DeviceMetadata, now: nat, deviceID: string, credential: string)
      returns (error: Option<StoreError>)
      modifies this
      ensures (State(), error) == Apply(old(State()), sha, Op.Enroll(token, metadata, now, deviceID, credential))
    {
      if !ValidDeviceMetadata(metadata) {
        return Some(InvalidInput);
      }
      if token == "" || ByteLength(token) > MAX_BEARER_TOKEN_BYTES {
        return Some(Unauthenticated);
      }
      var hash := sha(token);
      if hash !in tokens || tokens[hash].usedAt.Some? || !StrLess(TimeText(now), tokens[hash].expiresAt) {
        return Some(Unauthenticated);
      }
      if deviceID in devices {
        return Some(StorageFailed);
      }
      var row := tokens[hash];
      tokens := tokens[hash := row.(usedAt := Some(TimeText(now)), usedBy := Some(deviceID))];
      devices := devices[deviceID :=
        Device(sha(credential), metadata, row.group, TimeText(now), None, TimeText(now), None)];
      return None;
    }

    method Heartbeat(deviceID: string, metadata: DeviceMetadata, now: nat) returns (error: Option<StoreError>)
      modifies this
      ensures (State(), error) == Apply(old(State()), sha, Op.Heartbeat(deviceID, metadata, now))
    {
      if !ValidDeviceMetadata(metadata) {
        return Some(InvalidInput);
      }
      if deviceID !in devices || devices[deviceID].revokedAt.Some? {
        return Some(NotFound);
      }
      devices := devices[deviceID := devices[deviceID].(metadata := metadata, lastSeenAt := Some(TimeText(now)))];
      return None;
    }

    method RotateDeviceCredential(deviceID: string, now: nat, credential: string)
      returns (error: Option<StoreError>)
      modifies this
      ensures (State(), error) == Apply(old(State()), sha, Op.RotateDeviceCredential(deviceID, now, credential))
    {
      if deviceID !in devices || devices[deviceID].revokedAt.Some? {
        return Some(NotFound);
      }
      devices := devices[deviceID :=
        devices[deviceID].(credentialHash := sha(credential), rotatedAt := TimeText(now))];
      return None;
    }

    method RevokeDevice(actor: string, deviceID: string, now: nat) returns (error: Option<StoreError>)
      modifies this
      ensures (State(), error) == Apply(old(State()), sha, Op.RevokeDevice(actor, deviceID, now))
    {
      if !ValidName(actor) || !ValidName(deviceID) {
        return Some(InvalidInput);
      }
      if deviceID !in devices || devices[deviceID].revokedAt.Some? {
        return Some(NotFound);
      }
      devices := devices[deviceID := devices[deviceID].(revokedAt := Some(TimeText(now)))];
      AppendAudit(actor, "device.revoke", "device", deviceID, now);
      return None;
    }

    method AssignDeviceGroup(actor: string, deviceID: string, group: string, now: nat)
      returns (error: Option<StoreError>)
      modifies this
      ensures (State(), error) == Apply(old(State()), sha, Op.AssignDeviceGroup(actor, deviceID, group, now))
    {
      if !ValidName(actor) || !ValidName(deviceID) || !ValidName(group) {
        return Some(InvalidInput);
      }
      if deviceID !in devices {
        return Some(NotFound);
      }
      devices := devices[deviceID := devices[deviceID].(group := group)];
      AppendAudit(actor, "device.group.assign", "device", deviceID, now);
      return None;
    }

    method CreatePolicy(actor: string, document: PolicyDocument, now: nat) returns (error: Option<StoreError>)
      modifies this
      ensures (State(), error) == Apply(old(State()), sha, Op.CreatePolicy(actor, document, now))
    {
      if !ValidName(actor) || !ValidPolicy(document) || document.revision != 1 {
        return Some(InvalidInput);
      }
      if document.id in policies {
        return Some(Conflict);
      }
      policies := policies[document.id := PolicyRow(1, document, TimeText(now), TimeText(now), actor, actor)];
      AppendAudit(actor, "policy.create", "policy", document.id, now);
      return None;
    }

    /** Compare-and-swap on the revision. */
    method UpdatePolicy(actor: string, document: PolicyDocument, now: nat) returns (error: Option<StoreError>)
      modifies this
      ensures (State(), error) == Apply(old(State()), sha, Op.UpdatePolicy(actor, document, now))
    {
      if !ValidName(actor) || !ValidPolicy(document) {
        return Some(InvalidInput);
      }
      if document.id !in policies || policies[document.id].revision != document.revision - 1 {
        return Some(Conflict);
      }
      policies := policies[document.id := policies[document.id].(
        revision := document.revision, document := document, updatedAt := TimeText(now), updatedBy := actor)];
      AppendAudit(actor, "policy.update", "policy", document.id, now);
      return None;
    }

    method DeletePolicy(actor: string, policyID: string, now: nat) returns (error: Option<StoreError>)
      modifies this
      ensures (State(), error) == Apply(old(State()), sha, Op.DeletePolicy(actor, policyID, now))
    {
      if !ValidName(actor) || !ValidName(policyID) {
        return Some(InvalidInput);
      }
      if exists group :: group in assignments && assignments[group].policyID == policyID {
        return Some(Conflict);
      }
      if policyID !in policies {
        return Some(NotFound);
      }
      policies := policies - {policyID};
      AppendAudit(actor, "policy.delete", "policy", policyID, now);
      return None;
    }

    method AssignGroupPolicy(actor: string, group: string, policyID: string, now: nat)
      returns (error: Option<StoreError>)
      modifies this
      ensures (State(), error) == Apply(old(State()), sha, Op.AssignGroupPolicy(actor, group, policyID, now))
    {
      if !ValidName(actor) || !ValidName(group) || !ValidName(policyID) {
        return Some(InvalidInput);
      }
      if policyID !in policies {
        return Some(NotFound);
      }
      assignments := assignments[group := Assignment(policyID, TimeText(now), actor)];
      AppendAudit(actor, "group.policy.assign", "group", group, now);
      return None;
    }

    method UnassignGroupPolicy(actor: string, group: string, now: nat) returns (error: Option<StoreError>)
      modifies this
      ensures (State(), error) == Apply(old(State()), sha, Op.UnassignGroupPolicy(actor, group, now))
    {
      if !ValidName(actor) || !ValidName(group) {
        return Some(InvalidInput);
      }
      if group !in assignments {
        return Some(NotFound);
      }
      assignments := assignments - {group};
      AppendAudit(actor, "group.policy.remove", "group", group, now);
      return None;
    }

    /** The upserts run before the device row is checked; a failed check rolls them back. */
    method SyncReport(deviceID: string, report: Report, now: nat) returns (error: Option<StoreError>)
      modifies this
      ensures (State(), error) == Apply(old(State()), sha, Op.SyncReport(deviceID, report, now))
    {
      if !ValidReport(report, now) {
        return Some(InvalidInput);
      }
      var rows := findings;
      for i := 0 to |report.findings|
        invariant rows == Upsert(findings, deviceID, report.findings[..i], report.reportedAt)
        invariant i > 0 ==> deviceID in devices
      {
        if deviceID !in devices {
          return Some(StorageFailed);
        }
        assert report.findings[..i + 1][..i] == report.findings[..i];
        rows := rows[RowKey(deviceID, report.findings[i]) := FindingRow(report.findings[i], report.reportedAt)];
      }
      assert report.findings[..|report.findings|] == report.findings;
      if deviceID !in devices || devices[deviceID].revokedAt.Some? {
        return Some(NotFound);
      }
      findings := rows;
      devices := devices[deviceID := devices[deviceID].(lastSeenAt := Some(TimeText(now)))];
      return None;
    }
  }
}
