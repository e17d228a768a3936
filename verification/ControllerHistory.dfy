/** The controller's tables in terms of the run that led to them: which committed transaction each field
    of each row comes from, and exactly which transactions commit. */
module ControllerHistory {
  import opened Ordering
  import opened Instants
  import opened Model
  import opened Scan
  import opened Contracts
  import opened Controller
  import opened ControllerRuns

  // ----- which transactions commit -----

  /** What the store checks before it looks at the database. */
  ghost predicate WellFormed(op: Op) {
    match op
    case CreateEnrollmentToken(actor, group, ttl, _, _) =>
      ValidName(actor) && ValidName(group) && 60 * SECOND <= ttl <= 7 * 24 * 60 * 60 * SECOND
    case Enroll(_, metadata, _, _, _) => ValidDeviceMetadata(metadata)
    case Heartbeat(_, metadata, _) => ValidDeviceMetadata(metadata)
    case RotateDeviceCredential(_, _, _) => true
    case RevokeDevice(actor, deviceID, _) => ValidName(actor) && ValidName(deviceID)
    case AssignDeviceGroup(actor, deviceID, group, _) => ValidName(actor) && ValidName(deviceID) && ValidName(group)
    case CreatePolicy(actor, document, _) => ValidName(actor) && ValidPolicy(document) && document.revision == 1
    case UpdatePolicy(actor, document, _) => ValidName(actor) && ValidPolicy(document)
    case DeletePolicy(actor, policyID, _) => ValidName(actor) && ValidName(policyID)
    case AssignGroupPolicy(actor, group, policyID, _) => ValidName(actor) && ValidName(group) && ValidName(policyID)
    case UnassignGroupPolicy(actor, group, _) => ValidName(actor) && ValidName(group)
    case SyncReport(_, report, now) => ValidReport(report, now)
  }

  /** A token that may still be consumed. */
  ghost predicate Redeemable(db: Db, sha: string -> string, token: string, now: nat) {
    && token != "" && ByteLength(token) <= 4_096 && sha(token) in db.tokens
    && db.tokens[sha(token)].usedAt.None? && StrLess(TimeText(now), db.tokens[sha(token)].expiresAt)
  }

  ghost predicate InUse(db: Db, policyID: string) {
    exists group :: group in db.assignments && db.assignments[group].policyID == policyID
  }

  /** What the database must hold. */
  ghost predicate Admissible(db: Db, sha: string -> string, op: Op) {
    match op
    case CreateEnrollmentToken(_, _, _, _, token) => sha(token) !in db.tokens
    case Enroll(token, _, now, deviceID, _) => Redeemable(db, sha, token, now) && deviceID !in db.devices
    case Heartbeat(deviceID, _, _) => deviceID in db.devices && db.devices[deviceID].revokedAt.None?
    case RotateDeviceCredential(deviceID, _, _) => deviceID in db.devices && db.devices[deviceID].revokedAt.None?
    case RevokeDevice(_, deviceID, _) => deviceID in db.devices && db.devices[deviceID].revokedAt.None?
    case AssignDeviceGroup(_, deviceID, _, _) => deviceID in db.devices
    case CreatePolicy(_, document, _) => document.id !in db.policies
    case UpdatePolicy(_, document, _) =>
      document.id in db.policies && document.revision == db.policies[document.id].revision + 1
    case DeletePolicy(_, policyID, _) => policyID in db.policies && !InUse(db, policyID)
    case AssignGroupPolicy(_, _, policyID, _) => policyID in db.policies
    case UnassignGroupPolicy(_, group, _) => group in db.assignments
    case SyncReport(deviceID, _, _) => deviceID in db.devices && db.devices[deviceID].revokedAt.None?
  }

  /** How a well-formed transaction fails that the database does not admit. */
  ghost predicate Refuses(db: Db, sha: string -> string, op: Op, error: StoreError) {
    match op
    case CreateEnrollmentToken(_, _, _, _, _) => error == StorageFailed
    case Enroll(token, _, now, _, _) => error == if Redeemable(db, sha, token, now) then StorageFailed else Unauthenticated
    case CreatePolicy(_, _, _) => error == Conflict
    case UpdatePolicy(_, _, _) => error == Conflict
    case DeletePolicy(_, policyID, _) => error == if InUse(db, policyID) then Conflict else NotFound
    case SyncReport(deviceID, report, _) =>
      error == if deviceID !in db.devices && report.findings != [] then StorageFailed else NotFound
    case _ => error == NotFound
  }

  /** A transaction commits exactly when it is well formed and the database admits it, and otherwise
      says which of the two fails. */
  lemma CommitsExactly(db: Db, sha: string -> string, op: Op)
    ensures var error := Apply(db, sha, op).1;
      && (error.None? <==> WellFormed(op) && Admissible(db, sha, op))
      && (!WellFormed(op) ==> error == Some(InvalidInput))
      && (WellFormed(op) && !Admissible(db, sha, op) ==> error.Some? && Refuses(db, sha, op, error.value))
  {
    hide ValidName, ValidPolicy, ValidDeviceMetadata, ValidReport, Upsert, StrLess, TimeText, ByteLength;
  }

  // ----- the last transaction of a kind -----

  /** The last committed transaction of this kind. */
  function Latest(sha: string -> string, ops: seq<Op>, kind: Op -> bool): Option<Op> {
    if ops == [] then None
    else
      var n := |ops| - 1;
      if kind(ops[n]) && Succeeds(sha, ops, n) then Some(ops[n]) else Latest(sha, ops[..n], kind)
  }

  /** It is one of the run, committed, and none of its kind commits after it. */
  lemma {:induction false} LatestAt(sha: string -> string, ops: seq<Op>, kind: Op -> bool) returns (i: nat)
    requires Latest(sha, ops, kind).Some?
    ensures i < |ops| && kind(ops[i]) && Succeeds(sha, ops, i) && Latest(sha, ops, kind) == Some(ops[i])
    ensures forall j :: i < j < |ops| && kind(ops[j]) ==> !Succeeds(sha, ops, j)
  {
    hide After, Apply;
    var n := |ops| - 1;
    if kind(ops[n]) && Succeeds(sha, ops, n) {
      i := n;
    } else {
      i := LatestAt(sha, ops[..n], kind);
      forall j | 0 <= j < n ensures ops[..n][..j] == ops[..j] {}
    }
  }

  lemma {:induction false} NoneLatest(sha: string -> string, ops: seq<Op>, kind: Op -> bool, i: nat)
    requires Latest(sha, ops, kind).None? && i < |ops| && kind(ops[i])
    ensures !Succeeds(sha, ops, i)
  {
    hide After, Apply;
    var n := |ops| - 1;
    if i < n {
      NoneLatest(sha, ops[..n], kind, i);
      assert ops[..n][..i] == ops[..i];
    }
  }

  function Enrolls(deviceID: string): Op -> bool { (op: Op) => op.Enroll? && op.deviceID == deviceID }

  function Describing(deviceID: string): Op -> bool {
    (op: Op) => (op.Enroll? || op.Heartbeat?) && op.deviceID == deviceID
  }

  function Crediting(deviceID: string): Op -> bool {
    (op: Op) => (op.Enroll? || op.RotateDeviceCredential?) && op.deviceID == deviceID
  }

  function Grouping(deviceID: string): Op -> bool {
    (op: Op) => (op.Enroll? || op.AssignDeviceGroup?) && op.deviceID == deviceID
  }

  function Contacting(deviceID: string): Op -> bool {
    (op: Op) => (op.Heartbeat? || op.SyncReport?) && op.deviceID == deviceID
  }

  function Revoking(deviceID: string): Op -> bool { (op: Op) => op.RevokeDevice? && op.deviceID == deviceID }

  // ----- devices -----

  /** Only enrollment adds a device. */
  lemma StepEnrolls(db: Db, sha: string -> string, op: Op, id: string)
    ensures var (db', error) := Apply(db, sha, op); var ok := error.None?;
      && (id in db'.devices <==> id in db.devices || (ok && Enrolls(id)(op)))
      && (ok && Enrolls(id)(op) ==>
            && id !in db.devices && sha(op.token) in db.tokens
            && db'.devices[id] == Device(sha(op.credential), op.metadata, db.tokens[sha(op.token)].group,
                                         TimeText(op.now), None, TimeText(op.now), None))
  {
    hide ValidName, ValidPolicy, ValidDeviceMetadata, ValidReport, Upsert, StrLess, TimeText, ByteLength;
  }

  /** What a committed transaction leaves of the fields the device and the administrator set. */
  ghost predicate Describes(row: Device, next: Device, op: Op, id: string) {
    && next.enrolledAt == row.enrolledAt
    && next.metadata == (if Describing(id)(op) then op.metadata else row.metadata)
    && next.group == (if op.AssignDeviceGroup? && op.deviceID == id then op.group else row.group)
    && next.lastSeenAt == (if Contacting(id)(op) then Some(TimeText(op.now)) else row.lastSeenAt)
  }

  /** What it leaves of those that decide whether the device authenticates. */
  ghost predicate Credits(row: Device, next: Device, sha: string -> string, op: Op, id: string) {
    && next.credentialHash == (if Crediting(id)(op) then sha(op.credential) else row.credentialHash)
    && next.rotatedAt == (if Crediting(id)(op) then TimeText(op.now) else row.rotatedAt)
    && next.revokedAt == (if Revoking(id)(op) then Some(TimeText(op.now)) else row.revokedAt)
  }

  lemma StepDescribes(db: Db, sha: string -> string, op: Op, id: string)
    requires id in db.devices && id in Apply(db, sha, op).0.devices
    ensures var (db', error) := Apply(db, sha, op);
      if error.None? then Describes(db.devices[id], db'.devices[id], op, id) && !Enrolls(id)(op)
      else db'.devices[id] == db.devices[id]
  {
    hide ValidName, ValidPolicy, ValidDeviceMetadata, ValidReport, Upsert, StrLess, TimeText, ByteLength;
  }

  lemma StepCredits(db: Db, sha: string -> string, op: Op, id: string)
    requires id in db.devices && id in Apply(db, sha, op).0.devices && Apply(db, sha, op).1.None?
    ensures Credits(db.devices[id], Apply(db, sha, op).0.devices[id], sha, op, id)
  {
    hide ValidName, ValidPolicy, ValidDeviceMetadata, ValidReport, Upsert, StrLess, TimeText, ByteLength;
  }

  /** When a transaction of this kind committed last, if any did. */
  function When(sha: string -> string, ops: seq<Op>, kind: Op -> bool): Option<string> {
    match Latest(sha, ops, kind)
    case None => None
    case Some(op) => Some(TimeText(op.now))
  }

  /** The device's row comes from its enrollment, its latest heartbeat, rotation, contact and revocation,
      field by field. */
  ghost predicate RowFollows(sha: string -> string, ops: seq<Op>, id: string, row: Device) {
    var describing, crediting := Latest(sha, ops, Describing(id)), Latest(sha, ops, Crediting(id));
    && Some(row.enrolledAt) == When(sha, ops, Enrolls(id))
    && (describing.Some? && (describing.value.Enroll? || describing.value.Heartbeat?)
        && row.metadata == describing.value.metadata)
    && (crediting.Some? && (crediting.value.Enroll? || crediting.value.RotateDeviceCredential?)
        && row.credentialHash == sha(crediting.value.credential) && row.rotatedAt == TimeText(crediting.value.now))
    && row.lastSeenAt == When(sha, ops, Contacting(id))
    && row.revokedAt == When(sha, ops, Revoking(id))
  }

  ghost predicate DeviceFollows(sha: string -> string, ops: seq<Op>, id: string) {
    var db := After(sha, ops);
    if id in db.devices then Latest(sha, ops, Enrolls(id)).Some? && RowFollows(sha, ops, id, db.devices[id])
    else
      && Latest(sha, ops, Enrolls(id)).None? && Latest(sha, ops, Revoking(id)).None?
      && Latest(sha, ops, Contacting(id)).None?
  }

  /** A transaction about a device that is not there does not commit. */
  lemma AbsentDevice(db: Db, sha: string -> string, op: Op, id: string)
    requires id !in db.devices && (Revoking(id)(op) || Contacting(id)(op))
    ensures Apply(db, sha, op).1.Some?
  {
    hide ValidName, ValidDeviceMetadata, ValidReport, Upsert, TimeText;
  }

  lemma {:induction false} DeviceHistory(sha: string -> string, ops: seq<Op>, id: string)
    ensures DeviceFollows(sha, ops, id)
  {
    hide Apply, TimeText;
    if ops != [] {
      var n := |ops| - 1;
      var db, op := After(sha, ops[..n]), ops[n];
      assert ops[..n + 1] == ops;
      DeviceHistory(sha, ops[..n], id);
      StepEnrolls(db, sha, op, id);
      if id in db.devices {
        StepDescribes(db, sha, op, id);
        if Apply(db, sha, op).1.None? { StepCredits(db, sha, op, id); }
      } else if Revoking(id)(op) || Contacting(id)(op) {
        AbsentDevice(db, sha, op, id);
      }
    }
  }

  /** The group is the one assigned last, or that of the token the device enrolled with. */
  ghost predicate GroupFollows(sha: string -> string, ops: seq<Op>, id: string) {
    var db, grouping := After(sha, ops), Latest(sha, ops, Grouping(id));
    id in db.devices ==>
      && grouping.Some?
      && (if grouping.value.AssignDeviceGroup? then db.devices[id].group == grouping.value.group
          else grouping.value.Enroll? && sha(grouping.value.token) in db.tokens
               && db.devices[id].group == db.tokens[sha(grouping.value.token)].group)
  }

  lemma {:induction false} GroupHistory(sha: string -> string, ops: seq<Op>, id: string)
    ensures GroupFollows(sha, ops, id)
  {
    hide Apply;
    if ops != [] {
      var n := |ops| - 1;
      var db, op := After(sha, ops[..n]), ops[n];
      assert ops[..n + 1] == ops;
      GroupHistory(sha, ops[..n], id);
      StepEnrolls(db, sha, op, id);
      if id in db.devices { StepDescribes(db, sha, op, id); }
      forall hash | hash in db.tokens
        ensures hash in Apply(db, sha, op).0.tokens && Apply(db, sha, op).0.tokens[hash].group == db.tokens[hash].group
      {
        StepKeepsTokens(db, sha, op, hash);
      }
    }
  }

  // ----- revocation -----

  lemma RevocationRevokes(sha: string -> string, ops: seq<Op>, i: nat)
    requires i < |ops| && ops[i].RevokeDevice? && Succeeds(sha, ops, i)
    ensures var db := After(sha, ops[..i + 1]); var id := ops[i].deviceID;
      id in db.devices && db.devices[id].revokedAt == Some(TimeText(ops[i].now))
  {
    hide ValidName, TimeText, After;
    AfterNext(sha, ops, i);
  }

  /** A committed revocation revokes: from then on, in every run, the device is not active, has this
      revocation time, no text authenticates it, and nothing gets through on its behalf. */
  lemma RevocationTakesEffect(sha: string -> string, ops: seq<Op>, i: nat)
    requires i < |ops| && ops[i].RevokeDevice? && Succeeds(sha, ops, i)
    ensures var db, id := After(sha, ops), ops[i].deviceID;
      && id in db.devices && db.devices[id].revokedAt == Some(TimeText(ops[i].now)) && !Active(db, id)
      && (forall credential :: AuthenticateDevice(db, sha, id, credential).None?)
      && (forall op :: OnBehalfOf(op, id) ==> Apply(db, sha, op).1.Some?)
      && PolicyForDevice(db, id).None?
  {
    hide Apply, After, Succeeds, TimeText;
    RevocationRevokes(sha, ops, i);
    RevocationIsPermanent(sha, ops, i + 1, ops[i].deviceID);
  }

  /** Conversely, a device that is not active was never enrolled, or was revoked by such a transaction. */
  lemma RevokedByTransaction(sha: string -> string, ops: seq<Op>, id: string)
    ensures Active(After(sha, ops), id) <==>
      (exists i :: 0 <= i < |ops| && Enrolls(id)(ops[i]) && Succeeds(sha, ops, i))
      && (forall i :: 0 <= i < |ops| && Revoking(id)(ops[i]) ==> !Succeeds(sha, ops, i))
  {
    hide Apply, After, Succeeds, Latest, TimeText;
    DeviceHistory(sha, ops, id);
    if Latest(sha, ops, Enrolls(id)).Some? { var i := LatestAt(sha, ops, Enrolls(id)); }
    if Latest(sha, ops, Revoking(id)).Some? { var i := LatestAt(sha, ops, Revoking(id)); }
    forall i | 0 <= i < |ops| ensures
      && (Enrolls(id)(ops[i]) && Latest(sha, ops, Enrolls(id)).None? ==> !Succeeds(sha, ops, i))
      && (Revoking(id)(ops[i]) && Latest(sha, ops, Revoking(id)).None? ==> !Succeeds(sha, ops, i))
    {
      if Enrolls(id)(ops[i]) && Latest(sha, ops, Enrolls(id)).None? { NoneLatest(sha, ops, Enrolls(id), i); }
      if Revoking(id)(ops[i]) && Latest(sha, ops, Revoking(id)).None? { NoneLatest(sha, ops, Revoking(id), i); }
    }
  }

  // ----- tokens -----

  function Creating(sha: string -> string, hash: string): Op -> bool {
    (op: Op) => op.CreateEnrollmentToken? && sha(op.token) == hash
  }

  function Using(sha: string -> string, hash: string): Op -> bool { (op: Op) => op.Enroll? && sha(op.token) == hash }

  /** A new token, valid from now for its lifetime. */
  function Issued(op: Op): Token
    requires op.CreateEnrollmentToken? && op.ttl >= 0
  {
    Token(op.group, TimeText(op.now + op.ttl), TimeText(op.now), op.actor, None, None)
  }

  lemma StepToken(db: Db, sha: string -> string, op: Op, hash: string)
    ensures var (db', error) := Apply(db, sha, op); var ok := error.None?;
      && (hash in db'.tokens <==> hash in db.tokens || (ok && Creating(sha, hash)(op)))
      && (ok && Creating(sha, hash)(op) ==> hash !in db.tokens && op.ttl >= 0 && db'.tokens[hash] == Issued(op))
      && (ok && Using(sha, hash)(op) ==> hash in db.tokens && db.tokens[hash].usedAt.None?)
      && (hash in db.tokens ==>
            db'.tokens[hash] == if ok && Using(sha, hash)(op)
                                then db.tokens[hash].(usedAt := Some(TimeText(op.now)), usedBy := Some(op.deviceID))
                                else db.tokens[hash])
  {
    hide ValidName, ValidPolicy, ValidDeviceMetadata, ValidReport, Upsert, StrLess, TimeText, ByteLength;
  }

  /** A token's row is as issued, and marked by the enrollment that used it. */
  ghost predicate TokenFollows(sha: string -> string, ops: seq<Op>, hash: string) {
    var db, created, used := After(sha, ops), Latest(sha, ops, Creating(sha, hash)), Latest(sha, ops, Using(sha, hash));
    && (hash in db.tokens <==> created.Some?)
    && (used.Some? ==> hash in db.tokens && used.value.Enroll?)
    && (hash in db.tokens ==>
          && created.value.CreateEnrollmentToken? && created.value.ttl >= 0
          && db.tokens[hash] ==
               match used
               case None => Issued(created.value)
               case Some(u) =>
                 Issued(created.value).(usedAt := Some(TimeText(u.now)), usedBy := Some(u.deviceID)))
  }

  lemma {:induction false} TokenHistory(sha: string -> string, ops: seq<Op>, hash: string)
    ensures TokenFollows(sha, ops, hash)
  {
    hide Apply, TimeText;
    if ops != [] {
      var n := |ops| - 1;
      assert ops[..n + 1] == ops;
      TokenHistory(sha, ops[..n], hash);
      StepToken(After(sha, ops[..n]), sha, ops[n], hash);
    }
  }

  // ----- policies and assignments -----

  function Writing(id: string): Op -> bool {
    (op: Op) =>
      ((op.CreatePolicy? || op.UpdatePolicy?) && op.document.id == id) || (op.DeletePolicy? && op.policyID == id)
  }

  function Founding(id: string): Op -> bool { (op: Op) => op.CreatePolicy? && op.document.id == id }

  lemma StepPolicy(db: Db, sha: string -> string, op: Op, id: string)
    ensures var (db', error) := Apply(db, sha, op);
      if error.None? && Writing(id)(op) then
        && (id in db'.policies <==> !op.DeletePolicy?)
        && (!op.DeletePolicy? ==>
              var row := db'.policies[id];
              && row.document == op.document && row.revision == op.document.revision
              && row.updatedAt == TimeText(op.now) && row.updatedBy == op.actor
              && (op.CreatePolicy? <==> id !in db.policies)
              && row.createdAt == (if op.CreatePolicy? then TimeText(op.now) else db.policies[id].createdAt)
              && row.createdBy == (if op.CreatePolicy? then op.actor else db.policies[id].createdBy))
      else
        && (id in db'.policies <==> id in db.policies)
        && (id in db.policies ==> db'.policies[id] == db.policies[id])
  {
    hide ValidName, ValidPolicy, ValidDeviceMetadata, ValidReport, Upsert, StrLess, TimeText, ByteLength;
  }

  /** A policy is there when it was written last and not deleted, with the document written last, and
      was created by the latest creation. */
  ghost predicate PolicyFollows(sha: string -> string, ops: seq<Op>, id: string) {
    var db, written, founded := After(sha, ops), Latest(sha, ops, Writing(id)), Latest(sha, ops, Founding(id));
    && (id in db.policies <==> written.Some? && !written.value.DeletePolicy?)
    && (id in db.policies ==>
          var row := db.policies[id];
          && (written.value.CreatePolicy? || written.value.UpdatePolicy?)
          && row.document == written.value.document && row.revision == written.value.document.revision
          && row.updatedAt == TimeText(written.value.now) && row.updatedBy == written.value.actor
          && founded.Some? && founded.value.CreatePolicy?
          && row.createdAt == TimeText(founded.value.now) && row.createdBy == founded.value.actor)
  }

  lemma {:induction false} PolicyHistory(sha: string -> string, ops: seq<Op>, id: string)
    ensures PolicyFollows(sha, ops, id)
  {
    hide Apply, TimeText;
    if ops != [] {
      var n := |ops| - 1;
      assert ops[..n + 1] == ops;
      PolicyHistory(sha, ops[..n], id);
      StepPolicy(After(sha, ops[..n]), sha, ops[n], id);
    }
  }

  function Assigning(group: string): Op -> bool {
    (op: Op) => (op.AssignGroupPolicy? || op.UnassignGroupPolicy?) && op.group == group
  }

  lemma StepAssignment(db: Db, sha: string -> string, op: Op, group: string)
    ensures var (db', error) := Apply(db, sha, op);
      if error.None? && Assigning(group)(op) then
        && (group in db'.assignments <==> op.AssignGroupPolicy?)
        && (op.AssignGroupPolicy? ==> db'.assignments[group] == Assignment(op.policyID, TimeText(op.now), op.actor))
      else
        && (group in db'.assignments <==> group in db.assignments)
        && (group in db.assignments ==> db'.assignments[group] == db.assignments[group])
  {
    hide ValidName, ValidPolicy, ValidDeviceMetadata, ValidReport, Upsert, StrLess, TimeText, ByteLength;
  }

  /** A group has a policy when the last of its assignments and removals is an assignment. */
  ghost predicate AssignmentFollows(sha: string -> string, ops: seq<Op>, group: string) {
    var db, last := After(sha, ops), Latest(sha, ops, Assigning(group));
    && (group in db.assignments <==> last.Some? && last.value.AssignGroupPolicy?)
    && (group in db.assignments ==>
          db.assignments[group] == Assignment(last.value.policyID, TimeText(last.value.now), last.value.actor))
  }

  lemma {:induction false} AssignmentHistory(sha: string -> string, ops: seq<Op>, group: string)
    ensures AssignmentFollows(sha, ops, group)
  {
    hide Apply, TimeText;
    if ops != [] {
      var n := |ops| - 1;
      assert ops[..n + 1] == ops;
      AssignmentHistory(sha, ops[..n], group);
      StepAssignment(After(sha, ops[..n]), sha, ops[n], group);
    }
  }

  /** What an active device is served: the document written last to the policy assigned last to the
      group of the device; nothing when the group has no policy. */
  lemma ServedPolicy(sha: string -> string, ops: seq<Op>, id: string)
    requires Active(After(sha, ops), id)
    ensures var group := After(sha, ops).devices[id].group;
            var assigning, served := Latest(sha, ops, Assigning(group)), PolicyForDevice(After(sha, ops), id);
      if assigning.Some? && assigning.value.AssignGroupPolicy? then
        var written := Latest(sha, ops, Writing(assigning.value.policyID));
        && written.Some? && !written.value.DeletePolicy? && (written.value.CreatePolicy? || written.value.UpdatePolicy?)
        && served == Some(written.value.document)
      else served == None
  {
    hide Apply, After, Latest, TimeText;
    var group := After(sha, ops).devices[id].group;
    AssignmentHistory(sha, ops, group);
    AssignmentsAreSound(sha, ops);
    if group in After(sha, ops).assignments { PolicyHistory(sha, ops, After(sha, ops).assignments[group].policyID); }
  }

  // ----- findings -----

  /** The report has a finding with this device, detector and category. */
  predicate Covers(op: Op, key: FindingKey) {
    op.SyncReport? && exists f :: f in op.report.findings && RowKey(op.deviceID, f) == key
  }

  function Covering(key: FindingKey): Op -> bool { (op: Op) => Covers(op, key) }

  lemma {:induction false} UpsertRow(rows: map<FindingKey, FindingRow>, deviceID: string, findings: seq<RedactedFinding>,
                                     at: Time, key: FindingKey)
    ensures var after := Upsert(rows, deviceID, findings, at);
      if exists f :: f in findings && RowKey(deviceID, f) == key then
        key in after && after[key].reportedAt == at && after[key].finding in findings
        && RowKey(deviceID, after[key].finding) == key
      else (key in after <==> key in rows) && (key in rows ==> after[key] == rows[key])
  {
    if findings != [] {
      var front, last := findings[..|findings| - 1], findings[|findings| - 1];
      assert findings == front + [last];
      UpsertRow(rows, deviceID, front, at, key);
    }
  }

  lemma StepFinding(db: Db, sha: string -> string, op: Op, key: FindingKey)
    ensures var (db', error) := Apply(db, sha, op);
      if error.None? && Covers(op, key) then
        key in db'.findings && db'.findings[key].reportedAt == op.report.reportedAt
        && db'.findings[key].finding in op.report.findings && RowKey(op.deviceID, db'.findings[key].finding) == key
      else (key in db'.findings <==> key in db.findings) && (key in db.findings ==> db'.findings[key] == db.findings[key])
  {
    hide ValidName, ValidPolicy, ValidDeviceMetadata, ValidReport, Upsert, StrLess, TimeText, ByteLength;
    if op.SyncReport? {
      UpsertRow(db.findings, op.deviceID, op.report.findings, op.report.reportedAt, key);
    }
  }

  /** A finding's row is that of the last committed report of its device that has it. */
  ghost predicate FindingFollows(sha: string -> string, ops: seq<Op>, key: FindingKey) {
    var db, last := After(sha, ops), Latest(sha, ops, Covering(key));
    && (key in db.findings <==> last.Some?)
    && (key in db.findings ==>
          && last.value.SyncReport? && db.findings[key].reportedAt == last.value.report.reportedAt
          && db.findings[key].finding in last.value.report.findings
          && RowKey(last.value.deviceID, db.findings[key].finding) == key)
  }

  lemma {:induction false} FindingHistory(sha: string -> string, ops: seq<Op>, key: FindingKey)
    ensures FindingFollows(sha, ops, key)
  {
    hide Apply, Covers;
    if ops != [] {
      var n := |ops| - 1;
      assert ops[..n + 1] == ops;
      FindingHistory(sha, ops[..n], key);
      StepFinding(After(sha, ops[..n]), sha, ops[n], key);
      if Latest(sha, ops, Covering(key)).Some? { CoversReports(Latest(sha, ops, Covering(key)).value, sha, ops, key); }
    } else {
      NothingReported(sha, key);
    }
  }

  lemma NothingReported(sha: string -> string, key: FindingKey)
    ensures FindingFollows(sha, [], key)
  {
  }

  lemma CoversReports(op: Op, sha: string -> string, ops: seq<Op>, key: FindingKey)
    requires Latest(sha, ops, Covering(key)) == Some(op)
    ensures op.SyncReport?
  {
    hide After, Apply;
    var i := LatestAt(sha, ops, Covering(key));
  }

  // ----- the audit log -----

  /** Every committed administrative transaction has its entry, at the place its turn gives it, from then
      on. */
  lemma AuditedForEver(sha: string -> string, ops: seq<Op>, i: nat)
    requires i < |ops| && IsAdmin(ops[i]) && Succeeds(sha, ops, i)
    ensures var k := AdminCommits(sha, ops[..i]);
      && k < |After(sha, ops).audit| && ControllerRuns.Describes(After(sha, ops).audit[k], ops[i])
  {
    hide Apply, After, ControllerRuns.Describes;
    AfterNext(sha, ops, i);
    AuditGrowsByOne(After(sha, ops[..i]), sha, ops[i]);
    AuditCountsCommits(sha, ops[..i], i);
    AuditCountsCommits(sha, ops, i + 1);
  }
}
