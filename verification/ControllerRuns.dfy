/** Safety of the controller over whole runs of transactions. */
module ControllerRuns {
  import opened Ordering
  import opened Instants
  import opened Model
  import opened Scan
  import opened Contracts
  import opened Controller

  /** The database after a run, failed transactions included. */
  function After(sha: string -> string, ops: seq<Op>): Db {
    if ops == [] then EMPTY_DB else Apply(After(sha, ops[..|ops| - 1]), sha, ops[|ops| - 1]).0
  }

  predicate Succeeds(sha: string -> string, ops: seq<Op>, i: nat)
    requires i < |ops|
  {
    Apply(After(sha, ops[..i]), sha, ops[i]).1.None?
  }

  lemma AfterNext(sha: string -> string, ops: seq<Op>, i: nat)
    requires i < |ops|
    ensures After(sha, ops[..i + 1]) == Apply(After(sha, ops[..i]), sha, ops[i]).0
  {
    hide Apply;
    assert ops[..i + 1][..i] == ops[..i];
  }

  lemma FailureChangesNothing(db: Db, sha: string -> string, op: Op)
    requires Apply(db, sha, op).1.Some?
    ensures Apply(db, sha, op).0 == db
  {
    hide ValidName, ValidPolicy, ValidDeviceMetadata, ValidReport, Upsert, StrLess, TimeText;
  }

  // ----- audit -----

  predicate IsAdmin(op: Op) {
    !(op.Enroll? || op.Heartbeat? || op.RotateDeviceCredential? || op.SyncReport?)
  }

  /** What an admin operation is about. */
  function Target(op: Op): string
    requires IsAdmin(op)
  {
    if op.RevokeDevice? || op.AssignDeviceGroup? then op.deviceID
    else if op.CreatePolicy? || op.UpdatePolicy? then op.document.id
    else if op.DeletePolicy? then op.policyID
    else op.group
  }

  /** The kind of thing it is about, and what is done to it. */
  function Deed(op: Op): (string, string)
    requires IsAdmin(op)
  {
    match op
    case CreateEnrollmentToken(_, _, _, _, _) => ("group", "enrollment_token.create")
    case RevokeDevice(_, _, _) => ("device", "device.revoke")
    case AssignDeviceGroup(_, _, _, _) => ("device", "device.group.assign")
    case CreatePolicy(_, _, _) => ("policy", "policy.create")
    case UpdatePolicy(_, _, _) => ("policy", "policy.update")
    case DeletePolicy(_, _, _) => ("policy", "policy.delete")
    case AssignGroupPolicy(_, _, _, _) => ("group", "group.policy.assign")
    case UnassignGroupPolicy(_, _, _) => ("group", "group.policy.remove")
  }

  ghost predicate Describes(entry: AuditEntry, op: Op)
    requires IsAdmin(op)
  {
    && entry.actor == op.actor && entry.targetID == Target(op) && entry.createdAt == TimeText(op.now)
    && (entry.targetType, entry.action) == Deed(op)
  }

  /** A committed admin mutation adds exactly one entry, in its own name and with the next sequence
      number; nothing else touches the audit log. */
  lemma AuditGrowsByOne(db: Db, sha: string -> string, op: Op)
    ensures var (db', error) := Apply(db, sha, op);
      if IsAdmin(op) && error.None? then
        && |db'.audit| == |db.audit| + 1 && db'.audit[..|db.audit|] == db.audit
        && db'.audit[|db.audit|].sequence == |db'.audit| && Describes(db'.audit[|db.audit|], op)
      else db'.audit == db.audit
  {
    hide ValidName, ValidPolicy, ValidDeviceMetadata, ValidReport, Upsert, StrLess, TimeText;
  }

  function AdminCommits(sha: string -> string, ops: seq<Op>): nat {
    if ops == [] then 0
    else
      var n := |ops| - 1;
      AdminCommits(sha, ops[..n]) + (if IsAdmin(ops[n]) && Succeeds(sha, ops, n) then 1 else 0)
  }

  /** Over a run the audit log only grows, counts the committed admin mutations, and numbers its
      entries from 1. */
  lemma {:induction false} AuditCountsCommits(sha: string -> string, ops: seq<Op>, i: nat)
    requires i <= |ops|
    ensures |After(sha, ops).audit| == AdminCommits(sha, ops)
    ensures After(sha, ops[..i]).audit <= After(sha, ops).audit
    ensures forall k :: 0 <= k < |After(sha, ops).audit| ==> After(sha, ops).audit[k].sequence == k + 1
  {
    hide Apply;
    if ops != [] {
      var n := |ops| - 1;
      AuditCountsCommits(sha, ops[..n], if i <= n then i else n);
      AuditGrowsByOne(After(sha, ops[..n]), sha, ops[n]);
      if i <= n {
        assert ops[..n][..i] == ops[..i];
      } else {
        assert ops[..i] == ops;
      }
    }
  }

  // ----- policies and assignments -----

  ghost predicate AssignmentsNamePolicies(db: Db) {
    forall group :: group in db.assignments ==> db.assignments[group].policyID in db.policies
  }

  ghost predicate PoliciesMatchRows(db: Db) {
    forall id :: id in db.policies ==>
      && db.policies[id].document.id == id && db.policies[id].document.revision == db.policies[id].revision
      && ValidPolicy(db.policies[id].document)
  }

  lemma StepKeepsPolicies(db: Db, sha: string -> string, op: Op)
    requires AssignmentsNamePolicies(db) && PoliciesMatchRows(db)
    ensures AssignmentsNamePolicies(Apply(db, sha, op).0) && PoliciesMatchRows(Apply(db, sha, op).0)
  {
    hide ValidName, ValidPolicy, ValidDeviceMetadata, ValidReport, Upsert, StrLess, TimeText;
  }

  /** In every reachable database each group assignment names an existing policy, and each policy row
      holds a valid document of its own id and revision. */
  lemma {:induction false} AssignmentsAreSound(sha: string -> string, ops: seq<Op>)
    ensures AssignmentsNamePolicies(After(sha, ops)) && PoliciesMatchRows(After(sha, ops))
  {
    hide Apply, ValidPolicy;
    if ops != [] {
      AssignmentsAreSound(sha, ops[..|ops| - 1]);
      StepKeepsPolicies(After(sha, ops[..|ops| - 1]), sha, ops[|ops| - 1]);
    }
  }

  // ----- revocation and credentials -----

  lemma StepKeepsDevices(db: Db, sha: string -> string, op: Op, deviceID: string)
    requires deviceID in db.devices
    ensures deviceID in Apply(db, sha, op).0.devices
    ensures db.devices[deviceID].revokedAt.Some? ==>
      Apply(db, sha, op).0.devices[deviceID].(group := "") == db.devices[deviceID].(group := "")
  {
    hide ValidName, ValidPolicy, ValidDeviceMetadata, ValidReport, Upsert, StrLess, TimeText;
  }

  /** Once revoked, a device stays revoked at the same time and with the same credential, and neither
      authenticates nor gets a heartbeat, rotation or report through. */
  lemma {:induction false} RevocationIsPermanent(sha: string -> string, ops: seq<Op>, i: nat, deviceID: string)
    requires i <= |ops|
    requires deviceID in After(sha, ops[..i]).devices
    requires After(sha, ops[..i]).devices[deviceID].revokedAt.Some?
    ensures deviceID in After(sha, ops).devices
    ensures After(sha, ops).devices[deviceID].revokedAt == After(sha, ops[..i]).devices[deviceID].revokedAt
    ensures forall credential :: AuthenticateDevice(After(sha, ops), sha, deviceID, credential).None?
    ensures forall op :: OnBehalfOf(op, deviceID) ==> Apply(After(sha, ops), sha, op).1.Some?
    decreases |ops|
  {
    hide Apply;
    if i < |ops| {
      var n := |ops| - 1;
      assert ops[..n][..i] == ops[..i];
      RevocationIsPermanent(sha, ops[..n], i, deviceID);
      StepKeepsDevices(After(sha, ops[..n]), sha, ops[n], deviceID);
    } else {
      assert ops[..i] == ops;
    }
    forall op | OnBehalfOf(op, deviceID) ensures Apply(After(sha, ops), sha, op).1.Some? {
      RevokedIsRefused(After(sha, ops), sha, op, deviceID);
    }
  }

  predicate OnBehalfOf(op: Op, deviceID: string) {
    && (op.Heartbeat? || op.RotateDeviceCredential? || op.SyncReport?)
    && op.deviceID == deviceID
  }

  lemma RevokedIsRefused(db: Db, sha: string -> string, op: Op, deviceID: string)
    requires deviceID in db.devices && db.devices[deviceID].revokedAt.Some? && OnBehalfOf(op, deviceID)
    ensures Apply(db, sha, op).1.Some?
  {
    hide ValidDeviceMetadata, ValidReport, Upsert, TimeText;
  }

  /** The credential the store handed out last for a device in a run, if any. */
  function LatestCredential(sha: string -> string, ops: seq<Op>, deviceID: string): Option<string> {
    if ops == [] then None
    else
      var n := |ops| - 1;
      var op := ops[n];
      if (op.Enroll? || op.RotateDeviceCredential?) && op.deviceID == deviceID && Succeeds(sha, ops, n)
      then Some(op.credential)
      else LatestCredential(sha, ops[..n], deviceID)
  }

  lemma StepSetsCredential(db: Db, sha: string -> string, op: Op, deviceID: string)
    ensures var (db', error) := Apply(db, sha, op);
      if error.None? && (op.Enroll? || op.RotateDeviceCredential?) && op.deviceID == deviceID then
        deviceID in db'.devices && db'.devices[deviceID].credentialHash == sha(op.credential)
      else
        && (deviceID in db'.devices <==> deviceID in db.devices)
        && (deviceID in db.devices ==> db'.devices[deviceID].credentialHash == db.devices[deviceID].credentialHash)
  {
    hide ValidName, ValidPolicy, ValidDeviceMetadata, ValidReport, Upsert, StrLess, TimeText;
  }

  lemma {:induction false} StoredCredential(sha: string -> string, ops: seq<Op>, deviceID: string)
    ensures deviceID in After(sha, ops).devices <==> LatestCredential(sha, ops, deviceID).Some?
    ensures deviceID in After(sha, ops).devices ==>
      After(sha, ops).devices[deviceID].credentialHash == sha(LatestCredential(sha, ops, deviceID).value)
  {
    hide Apply;
    if ops != [] {
      var n := |ops| - 1;
      assert ops[..n + 1] == ops;
      StoredCredential(sha, ops[..n], deviceID);
      StepSetsCredential(After(sha, ops[..n]), sha, ops[n], deviceID);
    }
  }

  ghost predicate Injective(sha: string -> string) { forall x, y :: sha(x) == sha(y) ==> x == y }

  /** What `newCredential` draws: a text that is not empty and fits the bearer limit. */
  ghost predicate Drawn(credential: string) { credential != "" && ByteLength(credential) <= MAX_BEARER_TOKEN_BYTES }

  ghost predicate DrawsCredentials(ops: seq<Op>) {
    forall i :: 0 <= i < |ops| && (ops[i].Enroll? || ops[i].RotateDeviceCredential?) ==> Drawn(ops[i].credential)
  }

  lemma {:induction false} LatestIsDrawn(sha: string -> string, ops: seq<Op>, deviceID: string)
    requires DrawsCredentials(ops) && LatestCredential(sha, ops, deviceID).Some?
    ensures Drawn(LatestCredential(sha, ops, deviceID).value)
  {
    hide Drawn, Succeeds;
    if ops != [] {
      var n := |ops| - 1;
      var op := ops[n];
      if !((op.Enroll? || op.RotateDeviceCredential?) && op.deviceID == deviceID && Succeeds(sha, ops, n)) {
        LatestIsDrawn(sha, ops[..n], deviceID);
      }
    }
  }

  /** After any run, of all texts exactly the latest credential of an unrevoked device authenticates it;
      the empty text and texts beyond the bearer limit never do. */
  lemma OnlyLatestCredentialAuthenticates(sha: string -> string, ops: seq<Op>, deviceID: string, credential: string)
    requires Injective(sha) && DrawsCredentials(ops)
    ensures AuthenticateDevice(After(sha, ops), sha, deviceID, credential).Some? <==>
      Active(After(sha, ops), deviceID) && LatestCredential(sha, ops, deviceID) == Some(credential)
    ensures !Drawn(credential) ==> AuthenticateDevice(After(sha, ops), sha, deviceID, credential).None?
  {
    hide After, LatestCredential, DrawsCredentials, ByteLength;
    StoredCredential(sha, ops, deviceID);
    if LatestCredential(sha, ops, deviceID).Some? { LatestIsDrawn(sha, ops, deviceID); }
  }

  // ----- enrollment -----

  lemma StepKeepsTokens(db: Db, sha: string -> string, op: Op, hash: string)
    requires hash in db.tokens
    ensures var db' := Apply(db, sha, op).0;
      && hash in db'.tokens
      && db'.tokens[hash].expiresAt == db.tokens[hash].expiresAt && db'.tokens[hash].group == db.tokens[hash].group
      && (db.tokens[hash].usedAt.Some? ==> db'.tokens[hash] == db.tokens[hash])
  {
    hide ValidName, ValidPolicy, ValidDeviceMetadata, ValidReport, Upsert, StrLess, TimeText;
  }

  lemma EnrollmentUses(db: Db, sha: string -> string, op: Op)
    requires op.Enroll? && Apply(db, sha, op).1.None?
    ensures sha(op.token) in db.tokens && db.tokens[sha(op.token)].usedAt.None?
    ensures StrLess(TimeText(op.now), db.tokens[sha(op.token)].expiresAt)
    ensures var db' := Apply(db, sha, op).0;
      && sha(op.token) in db'.tokens && db'.tokens[sha(op.token)].usedAt.Some? && db'.tokens[sha(op.token)].usedBy == Some(op.deviceID)
      && op.deviceID !in db.devices && op.deviceID in db'.devices
      && db'.devices[op.deviceID].group == db.tokens[sha(op.token)].group
  {
    hide ValidDeviceMetadata, StrLess, TimeText;
  }

  /** A used token stays as it was consumed. */
  lemma {:induction false} UsedStaysUsed(sha: string -> string, ops: seq<Op>, i: nat, hash: string)
    requires i <= |ops| && hash in After(sha, ops[..i]).tokens
    requires After(sha, ops[..i]).tokens[hash].usedAt.Some?
    ensures hash in After(sha, ops).tokens
    ensures After(sha, ops).tokens[hash] == After(sha, ops[..i]).tokens[hash]
    decreases |ops|
  {
    hide Apply;
    if i < |ops| {
      var n := |ops| - 1;
      assert ops[..n][..i] == ops[..i];
      UsedStaysUsed(sha, ops[..n], i, hash);
      StepKeepsTokens(After(sha, ops[..n]), sha, ops[n], hash);
    } else {
      assert ops[..i] == ops;
    }
  }

  /** What an enrollment leaves behind, at once and in every later state. */
  ghost predicate Consumed(db: Db, hash: string, deviceID: string) {
    && hash in db.tokens && db.tokens[hash].usedAt.Some? && db.tokens[hash].usedBy == Some(deviceID)
    && deviceID in db.devices
  }

  lemma EnrollmentConsumes(sha: string -> string, ops: seq<Op>, i: nat)
    requires i < |ops| && ops[i].Enroll? && Succeeds(sha, ops, i)
    ensures Consumed(After(sha, ops), sha(ops[i].token), ops[i].deviceID)
  {
    hide Apply, After;
    AfterNext(sha, ops, i);
    EnrollmentUses(After(sha, ops[..i]), sha, ops[i]);
    UsedStaysUsed(sha, ops, i + 1, sha(ops[i].token));
    DeviceStays(sha, ops, i + 1, ops[i].deviceID);
  }

  lemma NoSecondEnrollment(sha: string -> string, ops: seq<Op>, i: nat, j: nat)
    requires i < j < |ops| && ops[i].Enroll? && Succeeds(sha, ops, i)
    requires ops[j].Enroll? && sha(ops[j].token) == sha(ops[i].token)
    ensures !Succeeds(sha, ops, j)
  {
    hide Apply, After;
    assert ops[..j][..i] == ops[..i] && ops[..j][i] == ops[i];
    EnrollmentConsumes(sha, ops[..j], i);
    if Succeeds(sha, ops, j) { EnrollmentUses(After(sha, ops[..j]), sha, ops[j]); }
  }

  /** Over every run a token yields at most one device, and names that device ever after. */
  lemma EnrollmentAtMostOnce(sha: string -> string, ops: seq<Op>, i: nat)
    requires i < |ops| && ops[i].Enroll? && Succeeds(sha, ops, i)
    ensures forall j :: i < j < |ops| && ops[j].Enroll? && sha(ops[j].token) == sha(ops[i].token) ==>
      !Succeeds(sha, ops, j)
    ensures Consumed(After(sha, ops), sha(ops[i].token), ops[i].deviceID)
  {
    hide Succeeds, Consumed, After;
    EnrollmentConsumes(sha, ops, i);
    forall j | i < j < |ops| && ops[j].Enroll? && sha(ops[j].token) == sha(ops[i].token)
      ensures !Succeeds(sha, ops, j)
    {
      NoSecondEnrollment(sha, ops, i, j);
    }
  }

  lemma {:induction false} DeviceStays(sha: string -> string, ops: seq<Op>, i: nat, deviceID: string)
    requires i <= |ops| && deviceID in After(sha, ops[..i]).devices
    ensures deviceID in After(sha, ops).devices
    decreases |ops|
  {
    hide Apply;
    if i < |ops| {
      var n := |ops| - 1;
      assert ops[..n][..i] == ops[..i];
      DeviceStays(sha, ops[..n], i, deviceID);
      StepKeepsDevices(After(sha, ops[..n]), sha, ops[n], deviceID);
    } else {
      assert ops[..i] == ops;
    }
  }

  /** The operation that put a token row in place. */
  ghost predicate Created(sha: string -> string, ops: seq<Op>, k: nat, hash: string, row: Token) {
    && k < |ops| && ops[k].CreateEnrollmentToken? && Succeeds(sha, ops, k)
    && sha(ops[k].token) == hash
    && row.group == ops[k].group && ops[k].ttl > 0
    && row.expiresAt == TimeText(ops[k].now + ops[k].ttl)
  }

  lemma NewTokenRows(db: Db, sha: string -> string, op: Op, hash: string)
    requires hash !in db.tokens && hash in Apply(db, sha, op).0.tokens
    ensures op.CreateEnrollmentToken? && Apply(db, sha, op).1.None? && sha(op.token) == hash && op.ttl > 0
    ensures var row := Apply(db, sha, op).0.tokens[hash];
      row.group == op.group && row.expiresAt == TimeText(op.now + op.ttl)
  {
    hide ValidName, ValidPolicy, ValidDeviceMetadata, ValidReport, Upsert, StrLess, TimeText;
  }

  lemma CreatedEarlier(sha: string -> string, ops: seq<Op>, i: nat, k: nat, hash: string, row: Token)
    requires i <= |ops| && Created(sha, ops[..i], k, hash, row)
    ensures Created(sha, ops, k, hash, row)
  {
    hide Apply, After, TimeText;
    assert ops[..i][..k] == ops[..k] && ops[..i][k] == ops[k];
  }

  lemma CreatedRow(sha: string -> string, ops: seq<Op>, k: nat, hash: string, row: Token, row': Token)
    requires Created(sha, ops, k, hash, row) && row'.group == row.group && row'.expiresAt == row.expiresAt
    ensures Created(sha, ops, k, hash, row')
  {
    hide Succeeds, TimeText;
  }

  lemma {:induction false} TokensComeFromCreation(sha: string -> string, ops: seq<Op>, hash: string)
    requires hash in After(sha, ops).tokens
    ensures exists k: nat :: Created(sha, ops, k, hash, After(sha, ops).tokens[hash])
  {
    hide Apply, TimeText;
    if ops != [] {
      var n := |ops| - 1;
      var front := ops[..n];
      var db := After(sha, front);
      if hash in db.tokens {
        hide Created;
        TokensComeFromCreation(sha, front, hash);
        var k: nat :| Created(sha, front, k, hash, db.tokens[hash]);
        StepKeepsTokens(db, sha, ops[n], hash);
        CreatedEarlier(sha, ops, n, k, hash, db.tokens[hash]);
        CreatedRow(sha, ops, k, hash, db.tokens[hash], After(sha, ops).tokens[hash]);
      } else {
        NewTokenRows(db, sha, ops[n], hash);
        assert Created(sha, ops, n, hash, After(sha, ops).tokens[hash]);
      }
    }
  }

  ghost predicate InGroup(db: Db, deviceID: string, group: string) {
    deviceID in db.devices && db.devices[deviceID].group == group
  }

  /** Operation `k` created the token with which operation `i` enrolled its device: earlier, for the
      same group, and not yet expired (for times in the four-digit years). */
  ghost predicate Admits(sha: string -> string, ops: seq<Op>, k: nat, i: nat) {
    && k < i < |ops| && ops[i].Enroll? && ops[k].CreateEnrollmentToken? && Succeeds(sha, ops, k)
    && sha(ops[k].token) == sha(ops[i].token) && ops[k].ttl > 0
    && InGroup(After(sha, ops[..i + 1]), ops[i].deviceID, ops[k].group)
    && (InRange(ops[i].now) && InRange(ops[k].now + ops[k].ttl) ==> ops[i].now < ops[k].now + ops[k].ttl)
  }

  /** A device is enrolled only with a token created earlier in the run, strictly before that token
      expires, and starts in the token's group. */
  lemma EnrollmentBeforeExpiry(sha: string -> string, ops: seq<Op>, i: nat)
    requires i < |ops| && ops[i].Enroll? && Succeeds(sha, ops, i)
    ensures exists k: nat :: Admits(sha, ops, k, i)
  {
    hide Apply, After, InRange, TimeText, StrLess;
    var front, hash := ops[..i], sha(ops[i].token);
    var db := After(sha, front);
    EnrollmentUses(db, sha, ops[i]);
    AfterNext(sha, ops, i);
    TokensComeFromCreation(sha, front, hash);
    var k: nat :| Created(sha, front, k, hash, db.tokens[hash]);
    CreatedEarlier(sha, ops, i, k, hash, db.tokens[hash]);
    var expiry: nat := ops[k].now + ops[k].ttl;
    if InRange(ops[i].now) && InRange(expiry) { TimeTextOrder(ops[i].now, expiry); }
    assert Admits(sha, ops, k, i);
  }
}
