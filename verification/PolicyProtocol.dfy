/** The controller and one agent together: compare-and-swap revisions on one side, the revision
    ledger on the other. */
module PolicyProtocol {
  import opened Ordering
  import opened Instants
  import opened Model
  import opened Contracts
  import opened Controller
  import opened ControllerRuns
  import opened PolicyLedger
  import opened PolicyCache
  import Cache = PolicyCacheRuns

  /** What a deployment keeps fixed: the controller's hash and signature, the agent's pinned trust, and
      the agent's device. */
  datatype Deployment = Deployment(
    sha: string -> string, sign: PolicyDocument -> SignedPolicy, trust: Trust, deviceID: string)

  /** The agent pinned the controller's key. */
  ghost predicate Paired(p: Deployment) {
    && PolicyCache.Lawful(p.trust)
    && forall d :: ValidPolicy(d) ==> p.trust.verify(p.sign(d)) && p.sign(d).document == d
  }

  /** The controller's database, the agent's disk, and the policy response on its way to the agent.
      The last two fields are history: ids ever created, and ids created again after a deletion. */
  datatype World = World(
    db: Db, disk: Disk, inFlight: Option<SignedPolicy>, created: set<string>, recreated: set<string>)

  const START := World(EMPTY_DB, Disk(None, None), None, {}, {})

  datatype Step =
    | Control(op: Op)
    | Fetch                   // the controller answers the agent's policy request
    | Persist(writes: nat)    // the agent handles the answer, and dies if it does fewer than two writes
    | Lose                    // the answer never arrives

  predicate Creates(w: World, sha: string -> string, op: Op) {
    op.CreatePolicy? && Apply(w.db, sha, op).1.None?
  }

  function Next(p: Deployment, w: World, step: Step): World {
    match step
    case Control(op) =>
      var w' := w.(db := Apply(w.db, p.sha, op).0);
      if !Creates(w, p.sha, op) then w'
      else if op.document.id in w.created then w'.(recreated := w.recreated + {op.document.id})
      else w'.(created := w.created + {op.document.id})
    case Fetch =>
      var current := PolicyForDevice(w.db, p.deviceID);
      if w.inFlight.Some? || current.None? then w else w.(inFlight := Some(p.sign(current.value)))
    case Persist(writes) =>
      if w.inFlight.None? then w
      else w.(disk := PersistPrefix(p.trust, w.disk, w.inFlight.value, writes), inFlight := None)
    case Lose => w.(inFlight := None)
  }

  function Run(p: Deployment, steps: seq<Step>): World {
    if steps == [] then START else Next(p, Run(p, steps[..|steps| - 1]), steps[|steps| - 1])
  }

  // ----- the invariant -----

  ghost predicate InOrder(p: Deployment, e: Entry, d: PolicyDocument) {
    e.highest < d.revision || e == EntryOf(p.trust.digest, d)
  }

  function Remembered(d: Disk, id: string): Option<Entry> {
    if d.ledger.Some? then Recall(d.ledger.value, id) else None
  }

  ghost predicate OnTheWay(w: World, id: string) { w.inFlight.Some? && w.inFlight.value.document.id == id }

  /** Ledger entry, answer on the way and policy row of one id come in revision order. */
  ghost predicate Ordered(p: Deployment, w: World, id: string) {
    && (Remembered(w.disk, id).Some? && OnTheWay(w, id) ==>
          InOrder(p, Remembered(w.disk, id).value, w.inFlight.value.document))
    && (Remembered(w.disk, id).Some? && id in w.db.policies ==>
          InOrder(p, Remembered(w.disk, id).value, w.db.policies[id].document))
    && (OnTheWay(w, id) && id in w.db.policies ==>
          InOrder(p, EntryOf(p.trust.digest, w.inFlight.value.document), w.db.policies[id].document))
  }

  ghost predicate Known(w: World, id: string) {
    id in w.db.policies || Remembered(w.disk, id).Some? || OnTheWay(w, id)
  }

  ghost predicate DiskSound(p: Deployment, d: Disk) {
    && (d.ledger.Some? ==> ValidLedger(d.ledger.value))
    && (d.policy.Some? ==> d.ledger.Some? && p.trust.verify(d.policy.value))
  }

  ghost predicate Sound(p: Deployment, w: World) {
    && AssignmentsNamePolicies(w.db) && PoliciesMatchRows(w.db)
    && DiskSound(p, w.disk)
    && (w.inFlight.Some? ==> p.trust.verify(w.inFlight.value))
    && (forall id :: Known(w, id) ==> id in w.created)
    && (forall id :: id !in w.recreated ==> Ordered(p, w, id))
  }

  /** A committed transaction leaves a policy row alone, raises its revision, deletes it, or creates
      it. */
  lemma PolicyRowMoves(db: Db, sha: string -> string, op: Op, id: string)
    requires PoliciesMatchRows(db)
    ensures var (db', error) := Apply(db, sha, op);
      id in db'.policies ==>
        || (id in db.policies && db'.policies[id].document == db.policies[id].document)
        || (id in db.policies && db'.policies[id].document.revision == db.policies[id].document.revision + 1)
        || (id !in db.policies && op.CreatePolicy? && error.None? && op.document.id == id)
    ensures op.CreatePolicy? && Apply(db, sha, op).1.None? ==> op.document.id in Apply(db, sha, op).0.policies
  {
    hide ValidName, ValidPolicy, ValidReport, ValidDeviceMetadata, Upsert, StrLess, TimeText;
  }

  lemma ControlKeepsSound(p: Deployment, w: World, op: Op)
    requires Sound(p, w)
    ensures Sound(p, Next(p, w, Control(op)))
  {
    hide Apply, Recall, ValidLedger, AssignmentsNamePolicies, PoliciesMatchRows;
    StepKeepsPolicies(w.db, p.sha, op);
    var w' := Next(p, w, Control(op));
    forall id ensures Known(w', id) ==> id in w'.created {
      PolicyRowMoves(w.db, p.sha, op, id);
      assert Known(w', id) && id !in w'.db.policies ==> Known(w, id);
      assert id in w.db.policies ==> Known(w, id);
    }
    forall id | id !in w'.recreated ensures Ordered(p, w', id) {
      PolicyRowMoves(w.db, p.sha, op, id);
      assert Ordered(p, w, id);
      assert Known(w, id) ==> id in w.created;
    }
  }

  lemma FetchKeepsSound(p: Deployment, w: World)
    requires Paired(p) && Sound(p, w)
    ensures Sound(p, Next(p, w, Fetch))
  {
    hide Recall, ValidLedger, AssignmentsNamePolicies, ValidPolicy, PolicyCache.Lawful;
    var w' := Next(p, w, Fetch);
    if w' != w {
      var document := PolicyForDevice(w.db, p.deviceID).value;
      FetchedIsCurrent(p, w);
      forall id ensures Known(w', id) ==> id in w'.created {
        assert Known(w', id) ==> Known(w, id);
      }
      forall id | id !in w'.recreated ensures Ordered(p, w', id) {
        assert Ordered(p, w, id);
      }
    }
  }

  lemma FetchedIsCurrent(p: Deployment, w: World)
    requires Paired(p) && PoliciesMatchRows(w.db) && PolicyForDevice(w.db, p.deviceID).Some?
    ensures var d := PolicyForDevice(w.db, p.deviceID).value;
      && d.id in w.db.policies && w.db.policies[d.id].document == d
      && p.trust.verify(p.sign(d)) && p.sign(d).document == d
  {
    hide ValidPolicy, PolicyCache.Lawful;
  }

  /** Whatever is still written of a persist, the ledger then recalls for each id what it did before
      or the entry of the new document. */
  lemma PersistedDisk(p: Deployment, d: Disk, s: SignedPolicy, writes: nat)
    requires Paired(p) && DiskSound(p, d) && p.trust.verify(s)
    ensures var d' := PersistPrefix(p.trust, d, s, writes);
      && DiskSound(p, d')
      && (forall id :: id != s.document.id ==> Remembered(d', id) == Remembered(d, id))
      && (Remembered(d', s.document.id) == Remembered(d, s.document.id)
          || Remembered(d', s.document.id) == Some(EntryOf(p.trust.digest, s.document)))
  {
    hide ObserveEntry, Recall, ValidLedger, PolicyCache.Lawful, ValidPolicy;
    if StartingEntries(p.trust, d).Ok? {
      StartIsValid(p.trust, d);
      StorableLedger(p.trust, d, s);
      assert forall id :: Recall([], id).None? by { NothingRecalled(); }
    }
  }

  lemma NothingRecalled()
    ensures forall id :: Recall([], id).None?
  {
  }

  lemma PersistKeepsSound(p: Deployment, w: World, writes: nat)
    requires Paired(p) && Sound(p, w)
    ensures Sound(p, Next(p, w, Persist(writes)))
  {
    hide PersistPrefix, Remembered, DiskSound, PolicyCache.Lawful, AssignmentsNamePolicies, PoliciesMatchRows;
    if w.inFlight.Some? {
      var s := w.inFlight.value;
      PersistedDisk(p, w.disk, s, writes);
      var w' := Next(p, w, Persist(writes));
      forall id ensures Known(w', id) ==> id in w'.created {
        assert Known(w', id) ==> Known(w, id);
      }
      forall id | id !in w'.recreated ensures Ordered(p, w', id) {
        assert Ordered(p, w, id);
      }
    }
  }

  lemma LoseKeepsSound(p: Deployment, w: World)
    requires Sound(p, w)
    ensures Sound(p, Next(p, w, Lose))
  {
    hide Remembered, DiskSound, AssignmentsNamePolicies, PoliciesMatchRows;
    var w' := Next(p, w, Lose);
    forall id ensures Known(w', id) ==> id in w'.created { assert Known(w', id) ==> Known(w, id); }
    forall id | id !in w'.recreated ensures Ordered(p, w', id) { assert Ordered(p, w, id); }
  }

  lemma {:induction false} RunIsSound(p: Deployment, steps: seq<Step>)
    requires Paired(p)
    ensures Sound(p, Run(p, steps))
  {
    hide Next, Paired;
    if steps != [] {
      hide Sound;
      var w, step := Run(p, steps[..|steps| - 1]), steps[|steps| - 1];
      RunIsSound(p, steps[..|steps| - 1]);
      match step {
        case Control(op) => ControlKeepsSound(p, w, op);
        case Fetch => FetchKeepsSound(p, w);
        case Persist(writes) => PersistKeepsSound(p, w, writes);
        case Lose => LoseKeepsSound(p, w);
      }
    } else {
      StartIsSound(p);
    }
  }

  lemma StartIsSound(p: Deployment)
    ensures Sound(p, START)
  {
  }

  // ----- no false rejection -----

  lemma SoundAnswerIsAccepted(p: Deployment, w: World)
    requires Paired(p) && Sound(p, w) && w.inFlight.Some? && w.inFlight.value.document.id !in w.recreated
    ensures var plan := Prepare(p.trust, w.disk, w.inFlight.value);
      plan.Ok? || (plan == Err(Rejected(LedgerFull)) && w.disk.ledger.Some? && |w.disk.ledger.value| >= MAX_REMEMBERED)
  {
    hide PolicyCache.Lawful, ObserveEntry, Recall, ValidPolicy, PoliciesMatchRows, AssignmentsNamePolicies;
    var s := w.inFlight.value;
    var id := s.document.id;
    assert Ordered(p, w, id);
    assert StartingEntries(p.trust, w.disk).Ok?;
    var start := StartingEntries(p.trust, w.disk).value;
    assert start == if w.disk.ledger.Some? then w.disk.ledger.value else [];
    assert Recall([], id).None? by { NothingRecalled(); }
    ObserveMeaning(start, EntryOf(p.trust.digest, s.document));
  }

  /** Over every interleaving of controller transactions with fetches, losses and crashes of the agent,
      the answer on its way is accepted, or finds the ledger full; it is never taken for a rollback or
      an equivocation, unless its policy id was deleted and created again. */
  lemma NoFalseRejection(p: Deployment, steps: seq<Step>)
    requires Paired(p)
    requires var w := Run(p, steps); w.inFlight.Some? && w.inFlight.value.document.id !in w.recreated
    ensures var w := Run(p, steps); var plan := Prepare(p.trust, w.disk, w.inFlight.value);
      plan.Ok? || (plan == Err(Rejected(LedgerFull)) && w.disk.ledger.Some? && |w.disk.ledger.value| >= MAX_REMEMBERED)
  {
    hide Run, Paired, Sound, Prepare;
    RunIsSound(p, steps);
    SoundAnswerIsAccepted(p, Run(p, steps));
  }

  /** A persisted policy is then the one `LoadPolicy` returns, and the controller serves this document
      (or one that collides with it), a later revision, or no policy of this id. */
  lemma DeliveredPolicyIsServed(p: Deployment, steps: seq<Step>)
    requires Paired(p)
    requires var w := Run(p, steps); w.inFlight.Some? && w.inFlight.value.document.id !in w.recreated
    requires var w := Run(p, steps); w.disk.ledger.Some? ==> |w.disk.ledger.value| < MAX_REMEMBERED
    ensures var w := Run(p, steps); var s := w.inFlight.value;
            var (disk, error) := PolicyCache.Persist(p.trust, w.disk, s);
      && error.None?
      && Load(p.trust, disk.policy, disk.ledger) == Ok(s.document)
      && (s.document.id in w.db.policies ==>
            || w.db.policies[s.document.id].document == s.document
            || Cache.Collision(p.trust, s.document, w.db.policies[s.document.id].document)
            || s.document.revision < w.db.policies[s.document.id].document.revision)
  {
    hide Run, PolicyCache.Lawful, Recall, ValidPolicy, Load, Prepare, PolicyCache.Persist, Remembered;
    NoFalseRejection(p, steps);
    RunIsSound(p, steps);
    var w := Run(p, steps);
    ServedAfterPersist(p, w.disk, w.inFlight.value);
    assert Ordered(p, w, w.inFlight.value.document.id);
  }

  lemma ServedAfterPersist(p: Deployment, d: Disk, s: SignedPolicy)
    requires Paired(p) && DiskSound(p, d) && Prepare(p.trust, d, s).Ok?
    ensures PolicyCache.Persist(p.trust, d, s).1.None?
    ensures Load(p.trust, PolicyCache.Persist(p.trust, d, s).0.policy, PolicyCache.Persist(p.trust, d, s).0.ledger)
         == Ok(s.document)
  {
    hide PolicyCache.Lawful, ValidPolicy, Load, ValidLedger, Recall, ObserveEntry, StartingEntries;
    Cache.RetryServesInterrupted(p.trust, d, s, 0);
  }

  // ----- the exception is real -----

  /** Deleting a policy the agent has cached at revision 2 or higher and creating it again at revision
      1 is taken for a rollback, in every such world; at cached revision 1 another document is taken for
      an equivocation. */
  lemma RecreationIsRejected(p: Deployment, w: World, actor: string, d: PolicyDocument, group: string, now: nat)
    requires Paired(p) && Sound(p, w) && w.inFlight.None?
    requires Remembered(w.disk, d.id).Some? && d.id !in w.db.policies
    requires Active(w.db, p.deviceID) && w.db.devices[p.deviceID].group == group
    requires ValidName(actor) && ValidName(group) && ValidPolicy(d) && d.revision == 1
    ensures var w' := Next(p, Next(p, Next(p, w, Control(Op.CreatePolicy(actor, d, now))),
                                   Control(Op.AssignGroupPolicy(actor, group, d.id, now))), Fetch);
            var e := Remembered(w.disk, d.id).value;
      && w'.inFlight == Some(p.sign(d)) && d.id in w'.recreated
      && (e.highest >= 2 ==> Prepare(p.trust, w'.disk, p.sign(d)) == Err(Rejected(Rollback)))
      && (e.highest == 1 && e.digest != p.trust.digest(d) ==>
            Prepare(p.trust, w'.disk, p.sign(d)) == Err(Rejected(Equivocation)))
  {
    hide PolicyCache.Lawful, ValidName, Recall, ObserveEntry, AssignmentsNamePolicies, PoliciesMatchRows;
    var w1 := Next(p, w, Control(Op.CreatePolicy(actor, d, now)));
    CreatedAgain(p, w, actor, d, now);
    var w2 := Next(p, w1, Control(Op.AssignGroupPolicy(actor, group, d.id, now)));
    AssignedNow(p, w1, actor, d, group, now);
    ObserveMeaning(w.disk.ledger.value, EntryOf(p.trust.digest, d));
  }

  lemma CreatedAgain(p: Deployment, w: World, actor: string, d: PolicyDocument, now: nat)
    requires Sound(p, w) && Remembered(w.disk, d.id).Some? && d.id !in w.db.policies
    requires ValidName(actor) && ValidPolicy(d) && d.revision == 1
    ensures var w' := Next(p, w, Control(Op.CreatePolicy(actor, d, now)));
      && w'.disk == w.disk && w'.inFlight == w.inFlight && d.id in w'.recreated
      && w'.db.devices == w.db.devices && d.id in w'.db.policies && w'.db.policies[d.id].document == d
  {
    hide ValidName, ValidPolicy, Recall, ValidLedger, AssignmentsNamePolicies, PoliciesMatchRows;
    assert Known(w, d.id);
  }

  lemma AssignedNow(p: Deployment, w: World, actor: string, d: PolicyDocument, group: string, now: nat)
    requires ValidName(actor) && ValidName(group) && ValidName(d.id)
    requires d.id in w.db.policies && w.db.policies[d.id].document == d
    requires Active(w.db, p.deviceID) && w.db.devices[p.deviceID].group == group
    ensures var w' := Next(p, w, Control(Op.AssignGroupPolicy(actor, group, d.id, now)));
      && w'.disk == w.disk && w'.inFlight == w.inFlight && w'.recreated == w.recreated
      && PolicyForDevice(w'.db, p.deviceID) == Some(d)
  {
    hide ValidName;
  }

  // ----- a run that shows the exception -----

  ghost predicate Reachable(p: Deployment, w: World) { exists steps :: Run(p, steps) == w }

  lemma ReachableNext(p: Deployment, w: World, step: Step)
    requires Reachable(p, w)
    ensures Reachable(p, Next(p, w, step))
  {
    hide Next;
    var steps :| Run(p, steps) == w;
    assert (steps + [step])[..|steps|] == steps;
    assert Run(p, steps + [step]) == Next(p, w, step);
  }

  /** What an administrator and an agent need to take part in the run below. */
  datatype Cast = Cast(
    actor: string, group: string, token: string, credential: string, metadata: DeviceMetadata, now: nat)

  ghost predicate CanAct(p: Deployment, k: Cast) {
    && ValidName(k.actor) && ValidName(k.group) && ValidDeviceMetadata(k.metadata)
    && k.token != "" && Scan.ByteLength(k.token) <= MAX_BEARER_TOKEN_BYTES
    && InRange(k.now) && InRange(k.now + WEEK)
    && ValidName(p.deviceID)
  }

  /** Two revisions of one policy. */
  ghost predicate Revisions(first: PolicyDocument, second: PolicyDocument) {
    && ValidPolicy(first) && ValidPolicy(second) && first.id == second.id
    && first.revision == 1 && second.revision == 2
  }

  /** Created, updated and assigned to the group; no device yet. */
  ghost predicate Published(w: World, k: Cast, d: PolicyDocument) {
    && w.disk == Disk(None, None) && w.inFlight.None? && w.created == {d.id} && w.recreated == {}
    && w.db.devices == map[] && w.db.tokens == map[]
    && w.db.policies.Keys == {d.id} && w.db.policies[d.id].document == d && w.db.policies[d.id].revision == d.revision
    && w.db.assignments.Keys == {k.group} && w.db.assignments[k.group].policyID == d.id
  }

  lemma PublishPolicy(p: Deployment, k: Cast, first: PolicyDocument, second: PolicyDocument) returns (w: World)
    requires CanAct(p, k) && Revisions(first, second)
    ensures Reachable(p, w) && Published(w, k, second)
  {
    hide ValidPolicy, ValidName, ValidDeviceMetadata, InRange, Scan.ByteLength;
    assert ValidName(first.id) by { PolicyIDIsName(first); }
    var create := Control(Op.CreatePolicy(k.actor, first, k.now));
    var update := Control(Op.UpdatePolicy(k.actor, second, k.now));
    var assign := Control(Op.AssignGroupPolicy(k.actor, k.group, first.id, k.now));
    assert Run(p, []) == START;
    assert Reachable(p, START);
    var w1 := Next(p, START, create);
    ReachableNext(p, START, create);
    CreateFirst(p, k, first);
    var w2 := Next(p, w1, update);
    ReachableNext(p, w1, update);
    UpdateSecond(p, k, w1, first, second);
    w := Next(p, w2, assign);
    ReachableNext(p, w2, assign);
    AssignPublished(p, k, w2, second);
  }

  lemma PolicyIDIsName(d: PolicyDocument)
    requires ValidPolicy(d)
    ensures ValidName(d.id)
  {
    hide ValidName;
  }

  /** Stored at this revision; nothing else has happened. */
  ghost predicate Stored(w: World, d: PolicyDocument) {
    && w.disk == Disk(None, None) && w.inFlight.None? && w.created == {d.id} && w.recreated == {}
    && w.db.devices == map[] && w.db.tokens == map[] && w.db.assignments == map[]
    && w.db.policies.Keys == {d.id} && w.db.policies[d.id].document == d && w.db.policies[d.id].revision == d.revision
  }

  lemma CreateFirst(p: Deployment, k: Cast, d: PolicyDocument)
    requires ValidName(k.actor) && ValidPolicy(d) && d.revision == 1
    ensures Stored(Next(p, START, Control(Op.CreatePolicy(k.actor, d, k.now))), d)
  {
    hide ValidPolicy, ValidName, TimeText;
  }

  lemma UpdateSecond(p: Deployment, k: Cast, w: World, first: PolicyDocument, second: PolicyDocument)
    requires ValidName(k.actor) && Revisions(first, second) && Stored(w, first)
    ensures Stored(Next(p, w, Control(Op.UpdatePolicy(k.actor, second, k.now))), second)
  {
    hide ValidPolicy, ValidName, TimeText;
  }

  lemma AssignPublished(p: Deployment, k: Cast, w: World, d: PolicyDocument)
    requires ValidName(k.actor) && ValidName(k.group) && ValidName(d.id) && Stored(w, d)
    ensures Published(Next(p, w, Control(Op.AssignGroupPolicy(k.actor, k.group, d.id, k.now))), k, d)
  {
    hide ValidName, TimeText;
  }

  /** The device is enrolled in the group. */
  ghost predicate Joined(p: Deployment, w: World, k: Cast, d: PolicyDocument) {
    && w.disk == Disk(None, None) && w.inFlight.None? && w.created == {d.id} && w.recreated == {}
    && Active(w.db, p.deviceID) && w.db.devices[p.deviceID].group == k.group
    && w.db.policies.Keys == {d.id} && w.db.policies[d.id].document == d
    && w.db.assignments.Keys == {k.group} && w.db.assignments[k.group].policyID == d.id
  }

  lemma JoinGroup(p: Deployment, k: Cast, w: World, d: PolicyDocument) returns (w': World)
    requires CanAct(p, k) && Reachable(p, w) && Published(w, k, d)
    ensures Reachable(p, w') && Joined(p, w', k, d)
  {
    hide ValidName, ValidDeviceMetadata, InRange, Scan.ByteLength, TimeText, Apply;
    var token := Control(Op.CreateEnrollmentToken(k.actor, k.group, WEEK, k.now, k.token));
    var enroll := Control(Op.Enroll(k.token, k.metadata, k.now, p.deviceID, k.credential));
    var w1 := Next(p, w, token);
    ReachableNext(p, w, token);
    TokenIsIssued(p, k, w);
    w' := Next(p, w1, enroll);
    ReachableNext(p, w1, enroll);
    TimeTextOrder(k.now, k.now + WEEK);
    DeviceEnrolls(p, k, w1);
  }

  /** The same but for the token and device tables. */
  ghost predicate SameButDevices(w: World, w': World) {
    && w'.disk == w.disk && w'.inFlight == w.inFlight && w'.created == w.created && w'.recreated == w.recreated
    && w'.db.policies == w.db.policies && w'.db.assignments == w.db.assignments
  }

  lemma TokenIsIssued(p: Deployment, k: Cast, w: World)
    requires ValidName(k.actor) && ValidName(k.group) && w.db.tokens == map[]
    ensures var w' := Next(p, w, Control(Op.CreateEnrollmentToken(k.actor, k.group, WEEK, k.now, k.token)));
      && SameButDevices(w, w') && w'.db.devices == w.db.devices
      && p.sha(k.token) in w'.db.tokens && w'.db.tokens[p.sha(k.token)].usedAt.None?
      && w'.db.tokens[p.sha(k.token)].group == k.group
      && w'.db.tokens[p.sha(k.token)].expiresAt == TimeText(k.now + WEEK)
  {
    hide ValidName, TimeText;
  }

  lemma DeviceEnrolls(p: Deployment, k: Cast, w: World)
    requires ValidDeviceMetadata(k.metadata) && k.token != "" && Scan.ByteLength(k.token) <= MAX_BEARER_TOKEN_BYTES
    requires p.sha(k.token) in w.db.tokens && w.db.tokens[p.sha(k.token)].usedAt.None?
    requires w.db.tokens[p.sha(k.token)].group == k.group
    requires StrLess(TimeText(k.now), w.db.tokens[p.sha(k.token)].expiresAt) && p.deviceID !in w.db.devices
    ensures var w' := Next(p, w, Control(Op.Enroll(k.token, k.metadata, k.now, p.deviceID, k.credential)));
      SameButDevices(w, w') && Active(w'.db, p.deviceID) && w'.db.devices[p.deviceID].group == k.group
  {
    hide ValidDeviceMetadata, TimeText, StrLess, Scan.ByteLength;
  }

  /** The agent has cached the document, and the policy is gone. */
  ghost predicate Orphaned(p: Deployment, w: World, k: Cast, d: PolicyDocument) {
    && w.inFlight.None? && d.id !in w.db.policies && d.id in w.created
    && Active(w.db, p.deviceID) && w.db.devices[p.deviceID].group == k.group
    && Remembered(w.disk, d.id) == Some(EntryOf(p.trust.digest, d))
  }

  lemma CacheThenDelete(p: Deployment, k: Cast, w: World, d: PolicyDocument) returns (w': World)
    requires Paired(p) && CanAct(p, k) && ValidPolicy(d) && Reachable(p, w) && Joined(p, w, k, d)
    ensures Reachable(p, w') && Orphaned(p, w', k, d)
  {
    hide ValidName, ValidPolicy, ValidDeviceMetadata, InRange, Scan.ByteLength, Apply, PersistPrefix, Remembered;
    hide PolicyCache.Lawful, PolicyForDevice;
    var unassign := Control(Op.UnassignGroupPolicy(k.actor, k.group, k.now));
    var delete := Control(Op.DeletePolicy(k.actor, d.id, k.now));
    var w1 := Next(p, w, Fetch);
    ReachableNext(p, w, Fetch);
    assert PolicyForDevice(w.db, p.deviceID) == Some(d) by { JoinedIsServed(p, w, k, d); }
    var w2 := Next(p, w1, Persist(2));
    ReachableNext(p, w1, Persist(2));
    FirstPersist(p, d);
    var w3 := Next(p, w2, unassign);
    ReachableNext(p, w2, unassign);
    w' := Next(p, w3, delete);
    ReachableNext(p, w3, delete);
    PolicyIDIsName(d);
    UnassignThenDelete(p, k, w2, d);
  }

  lemma JoinedIsServed(p: Deployment, w: World, k: Cast, d: PolicyDocument)
    requires Joined(p, w, k, d)
    ensures PolicyForDevice(w.db, p.deviceID) == Some(d)
  {
  }

  /** A first policy is persisted without objection. */
  lemma FirstPersist(p: Deployment, d: PolicyDocument)
    requires Paired(p) && ValidPolicy(d)
    ensures Remembered(PersistPrefix(p.trust, Disk(None, None), p.sign(d), 2), d.id) == Some(EntryOf(p.trust.digest, d))
  {
    hide PolicyCache.Lawful, ValidPolicy, ObserveEntry, Recall, ValidLedger;
    var disk := Disk(None, None);
    assert p.trust.verify(p.sign(d)) && p.sign(d).document == d;
    StorableLedger(p.trust, disk, p.sign(d));
    assert Recall([], d.id).None? by { NothingRecalled(); }
    EmptyLedgerIsValid();
    ObserveMeaning([], EntryOf(p.trust.digest, d));
  }

  lemma EmptyLedgerIsValid()
    ensures ValidLedger([])
  {
  }

  lemma UnassignThenDelete(p: Deployment, k: Cast, w: World, d: PolicyDocument)
    requires ValidName(k.actor) && ValidName(k.group) && ValidName(d.id)
    requires w.inFlight.None? && w.db.policies.Keys == {d.id} && d.id in w.created
    requires w.db.assignments.Keys == {k.group}
    ensures var w' := Next(p, Next(p, w, Control(Op.UnassignGroupPolicy(k.actor, k.group, k.now))),
                           Control(Op.DeletePolicy(k.actor, d.id, k.now)));
      && w'.inFlight.None? && w'.disk == w.disk && d.id !in w'.db.policies && d.id in w'.created
      && w'.db.devices == w.db.devices
  {
    hide ValidName, TimeText;
  }

  /** From the empty controller and an agent without files, through administration and one delivery
      alone: an agent that cached revision 2 refuses the policy that was deleted and created again, as a
      rollback. */
  lemma RecreationHappens(p: Deployment, k: Cast, first: PolicyDocument, second: PolicyDocument) returns (w: World)
    requires Paired(p) && CanAct(p, k) && Revisions(first, second)
    ensures Reachable(p, w) && w.inFlight == Some(p.sign(first)) && first.id in w.recreated
    ensures Prepare(p.trust, w.disk, p.sign(first)) == Err(Rejected(Rollback))
  {
    hide Paired, CanAct, Published, Joined, ValidPolicy, Prepare, Next, Sound;
    var w1 := PublishPolicy(p, k, first, second);
    var w2 := JoinGroup(p, k, w1, second);
    var w3 := CacheThenDelete(p, k, w2, second);
    var create := Control(Op.CreatePolicy(k.actor, first, k.now));
    var assign := Control(Op.AssignGroupPolicy(k.actor, k.group, first.id, k.now));
    ReachableNext(p, w3, create);
    ReachableNext(p, Next(p, w3, create), assign);
    w := Next(p, Next(p, Next(p, w3, create), assign), Fetch);
    ReachableNext(p, Next(p, Next(p, w3, create), assign), Fetch);
    ReachableIsSound(p, w3);
    assert ValidName(k.actor) && ValidName(k.group) by { CastIsNamed(p, k); }
    RecreationIsRejected(p, w3, k.actor, first, k.group, k.now);
    RecreationKeepsDisk(p, w3, create, assign);
  }

  lemma CastIsNamed(p: Deployment, k: Cast)
    requires CanAct(p, k)
    ensures ValidName(k.actor) && ValidName(k.group)
  {
    hide ValidName, ValidDeviceMetadata, InRange;
  }

  lemma RecreationKeepsDisk(p: Deployment, w: World, a: Step, b: Step)
    requires a.Control? && b.Control?
    ensures Next(p, Next(p, Next(p, w, a), b), Fetch).disk == w.disk
  {
    hide Apply, PolicyForDevice;
  }

  lemma ReachableIsSound(p: Deployment, w: World)
    requires Paired(p) && Reachable(p, w)
    ensures Sound(p, w)
  {
    hide Sound, Paired;
    var steps :| Run(p, steps) == w;
    RunIsSound(p, steps);
  }
}
