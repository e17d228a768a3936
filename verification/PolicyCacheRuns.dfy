/** The policy cache under crashes, concurrent writers and readers that take no lock. */
module PolicyCacheRuns {
  import opened Ordering
  import opened Model
  import opened Contracts
  import opened PolicyLedger
  import opened PolicyCache

  /** The process holding the write lock, and how far it got. */
  datatype Writer = Idle | BeforeLedger(plan: Plan) | BeforePolicy(plan: Plan)

  /** The disk, the lock holder, and the policy file each running reader has already read. */
  datatype Cache = Cache(disk: Disk, writer: Writer, readers: map<nat, Option<SignedPolicy>>)

  datatype Step =
    | Begin(signed: SignedPolicy)   // take the lock, read both files, decide
    | Proceed                       // the lock holder's next write
    | Crash                         // the lock holder dies; the lock goes with it
    | ReadPolicyFile(reader: nat)
    | ReadLedgerFile(reader: nat)

  function Next(t: Trust, c: Cache, step: Step): Cache {
    match step
    case Begin(signed) =>
      if c.writer != Idle then c
      else
        (match Prepare(t, c.disk, signed)
         case Err(_) => c
         case Ok(plan) => c.(writer := BeforeLedger(plan)))
    case Proceed =>
      (match c.writer
       case Idle => c
       case BeforeLedger(plan) => c.(disk := WriteLedger(c.disk, plan), writer := BeforePolicy(plan))
       case BeforePolicy(plan) => c.(disk := WritePolicy(c.disk, plan), writer := Idle))
    case Crash => c.(writer := Idle)
    case ReadPolicyFile(reader) => c.(readers := c.readers[reader := c.disk.policy])
    case ReadLedgerFile(reader) => c.(readers := c.readers - {reader})
  }

  /** A run from a directory without a ledger file: new, or left by a version before the ledger. */
  function Run(t: Trust, policy: Option<SignedPolicy>, steps: seq<Step>): Cache {
    if steps == [] then Cache(Disk(policy, None), Idle, map[])
    else Next(t, Run(t, policy, steps[..|steps| - 1]), steps[|steps| - 1])
  }

  /** Step `i` is a reader's last, and its `LoadPolicy` returns this document. */
  ghost predicate Loads(t: Trust, policy: Option<SignedPolicy>, steps: seq<Step>, i: nat, d: PolicyDocument) {
    && i < |steps| && steps[i].ReadLedgerFile?
    && var c := Run(t, policy, steps[..i]);
       && steps[i].reader in c.readers
       && Load(t, c.readers[steps[i].reader], c.disk.ledger) == Ok(d)
  }

  /** Step `i` installs this document as the cached policy. */
  ghost predicate Installs(t: Trust, policy: Option<SignedPolicy>, steps: seq<Step>, i: nat, d: PolicyDocument) {
    && i < |steps| && steps[i].Proceed?
    && var c := Run(t, policy, steps[..i]);
       c.writer.BeforePolicy? && c.writer.plan.signed.document == d
  }

  // ----- what every step keeps -----

  /** Every entry stays, or gives way to a higher revision. */
  ghost predicate Covers(a: seq<Entry>, b: seq<Entry>) {
    forall id :: Recall(a, id).Some? ==>
      && Recall(b, id).Some?
      && (Recall(b, id) == Recall(a, id) || Recall(a, id).value.highest < Recall(b, id).value.highest)
  }

  ghost predicate LedgerCovers(a: Option<seq<Entry>>, b: Option<seq<Entry>>) {
    a.Some? ==> b.Some? && Covers(a.value, b.value)
  }

  ghost predicate Holds(t: Trust, ledger: Option<seq<Entry>>, d: PolicyDocument) {
    ledger.Some? && Recall(ledger.value, d.id) == Some(EntryOf(t.digest, d))
  }

  ghost predicate PlanFits(t: Trust, d: Disk, p: Plan) {
    && t.verify(p.signed)
    && Holds(t, WriteLedger(d, p).ledger, p.signed.document)
    && LedgerCovers(d.ledger, WriteLedger(d, p).ledger)
    && ValidLedger(WriteLedger(d, p).ledger.value)
  }

  ghost predicate Sound(t: Trust, c: Cache) {
    && (c.disk.ledger.Some? ==> ValidLedger(c.disk.ledger.value))
    && (c.writer.BeforeLedger? ==> PlanFits(t, c.disk, c.writer.plan))
    && (c.writer.BeforePolicy? ==>
          t.verify(c.writer.plan.signed) && Holds(t, c.disk.ledger, c.writer.plan.signed.document))
  }

  lemma CoversIsTransitive(a: seq<Entry>, b: seq<Entry>, c: seq<Entry>)
    requires Covers(a, b) && Covers(b, c)
    ensures Covers(a, c)
  {
  }

  lemma PreparedFits(t: Trust, d: Disk, s: SignedPolicy)
    requires Lawful(t) && Prepare(t, d, s).Ok?
    ensures PlanFits(t, d, Prepare(t, d, s).value)
    ensures Prepare(t, d, s).value.signed == s
  {
    hide ObserveEntry, Lawful, ValidLedger, StartingEntries;
    StorableLedger(t, d, s);
    StartIsValid(t, d);
    var start, e := StartingEntries(t, d).value, EntryOf(t.digest, s.document);
    if d.ledger.Some? {
      ObserveMeaning(start, e);
    }
  }

  lemma StepKeepsSound(t: Trust, c: Cache, step: Step)
    requires Lawful(t) && Sound(t, c)
    ensures Sound(t, Next(t, c, step))
    ensures LedgerCovers(c.disk.ledger, Next(t, c, step).disk.ledger)
  {
    hide Prepare, Lawful, ValidLedger, Recall;
    if step.Begin? && Prepare(t, c.disk, step.signed).Ok? { PreparedFits(t, c.disk, step.signed); }
  }

  lemma {:induction false} RunIsSound(t: Trust, policy: Option<SignedPolicy>, steps: seq<Step>)
    requires Lawful(t)
    ensures Sound(t, Run(t, policy, steps))
  {
    hide Next, Lawful;
    if steps == [] {
    } else {
      RunIsSound(t, policy, steps[..|steps| - 1]);
      StepKeepsSound(t, Run(t, policy, steps[..|steps| - 1]), steps[|steps| - 1]);
    }
  }

  /** Along a run no entry disappears and each id's highest revision never falls; while it stays, so
      does its digest. */
  lemma {:induction false} HighestNeverFalls(t: Trust, policy: Option<SignedPolicy>, steps: seq<Step>, i: nat)
    requires Lawful(t) && i <= |steps|
    ensures LedgerCovers(Run(t, policy, steps[..i]).disk.ledger, Run(t, policy, steps).disk.ledger)
    decreases |steps|
  {
    hide Next, Lawful, Covers, Sound;
    if i == |steps| {
      assert steps[..i] == steps;
      CoversItself(Run(t, policy, steps).disk.ledger);
    } else {
      var n := |steps| - 1;
      assert steps[..n][..i] == steps[..i];
      HighestNeverFalls(t, policy, steps[..n], i);
      RunIsSound(t, policy, steps[..n]);
      StepKeepsSound(t, Run(t, policy, steps[..n]), steps[n]);
      var a, b, c := Run(t, policy, steps[..i]).disk.ledger, Run(t, policy, steps[..n]).disk.ledger,
                     Run(t, policy, steps).disk.ledger;
      if a.Some? { CoversIsTransitive(a.value, b.value, c.value); }
    }
  }

  lemma CoversItself(ledger: Option<seq<Entry>>)
    ensures LedgerCovers(ledger, ledger)
  {
  }

  // ----- accepted and returned documents -----

  /** A document `LoadPolicy` returns is genuine and is the ledger's current entry for its id at the
      moment the ledger is read, whatever happened since the policy file was read. */
  lemma LoadedIsCurrent(t: Trust, policy: Option<SignedPolicy>, steps: seq<Step>, i: nat, d: PolicyDocument)
    requires Loads(t, policy, steps, i, d)
    ensures Holds(t, Run(t, policy, steps[..i]).disk.ledger, d)
    ensures exists s :: t.verify(s) && s.document == d
  {
    hide ValidLedger, Recall;
    var c := Run(t, policy, steps[..i]);
    var s := c.readers[steps[i].reader];
    assert t.verify(s.value) && s.value.document == d;
  }

  lemma InstalledIsCurrent(t: Trust, policy: Option<SignedPolicy>, steps: seq<Step>, i: nat, d: PolicyDocument)
    requires Lawful(t) && Installs(t, policy, steps, i, d)
    ensures Holds(t, Run(t, policy, steps[..i]).disk.ledger, d)
    ensures exists s :: t.verify(s) && s.document == d
  {
    hide ValidLedger, Recall, Lawful;
    RunIsSound(t, policy, steps[..i]);
    var s := Run(t, policy, steps[..i]).writer.plan.signed;
    assert t.verify(s) && s.document == d;
  }

  ghost predicate Surfaces(t: Trust, policy: Option<SignedPolicy>, steps: seq<Step>, i: nat, d: PolicyDocument) {
    Loads(t, policy, steps, i, d) || Installs(t, policy, steps, i, d)
  }

  /** Different documents with one SHA-256. */
  ghost predicate Collision(t: Trust, d: PolicyDocument, e: PolicyDocument) {
    d != e && t.digest(d) == t.digest(e)
  }

  /** Over every interleaving of writers, crashes and readers: of two documents with one id that are
      installed or returned, the later one has a higher revision or is the same document, unless the two
      collide. */
  lemma NeitherRollbackNorEquivocation(t: Trust, policy: Option<SignedPolicy>, steps: seq<Step>,
                                       i: nat, d: PolicyDocument, j: nat, e: PolicyDocument)
    requires Lawful(t) && i <= j
    requires Surfaces(t, policy, steps, i, d) && Surfaces(t, policy, steps, j, e)
    requires d.id == e.id
    ensures d == e || d.revision < e.revision || (d.revision == e.revision && Collision(t, d, e))
  {
    hide Load, Run, ValidPolicy;
    if Loads(t, policy, steps, i, d) { LoadedIsCurrent(t, policy, steps, i, d); }
    else { InstalledIsCurrent(t, policy, steps, i, d); }
    if Loads(t, policy, steps, j, e) { LoadedIsCurrent(t, policy, steps, j, e); }
    else { InstalledIsCurrent(t, policy, steps, j, e); }
    assert steps[..j][..i] == steps[..i];
    HighestNeverFalls(t, policy, steps[..j], i);
    assert EntryOf(t.digest, d) == EntryOf(t.digest, e) ==> t.digest(d) == t.digest(e);
  }

  // ----- crash and retry -----

  ghost predicate Readable(d: Disk) { d.ledger.Some? ==> ValidLedger(d.ledger.value) }

  /** When the ledger already holds the document, persisting it again writes at most the policy file,
      and `LoadPolicy` then returns it. */
  lemma HeldPolicyPersists(t: Trust, d: Disk, s: SignedPolicy)
    requires Lawful(t) && Readable(d) && t.verify(s) && Holds(t, d.ledger, s.document)
    requires d.policy.Some? ==> t.verify(d.policy.value)
    ensures Prepare(t, d, s).Ok? && Prepare(t, d, s).value.ledger.None?
    ensures Persist(t, d, s).1.None?
    ensures Load(t, Persist(t, d, s).0.policy, Persist(t, d, s).0.ledger) == Ok(s.document)
  {
    hide ObserveEntry, Lawful, ValidLedger, Recall;
    ObserveMeaning(d.ledger.value, EntryOf(t.digest, s.document));
  }

  /** A writer that dies after any number of its writes and is started again reaches the disk of an
      uninterrupted one, with the same verdict; if that is success, `LoadPolicy` then returns the
      document. */
  lemma RetryServesInterrupted(t: Trust, d: Disk, s: SignedPolicy, k: nat)
    requires Lawful(t) && Readable(d)
    ensures Persist(t, PersistPrefix(t, d, s, k), s) == Persist(t, d, s)
    ensures Persist(t, d, s).1.None? ==>
      Load(t, Persist(t, d, s).0.policy, Persist(t, d, s).0.ledger) == Ok(s.document)
  {
    hide Lawful, ValidLedger, Recall, ObserveEntry, StartingEntries, Load;
    if Prepare(t, d, s).Ok? {
      var p := Prepare(t, d, s).value;
      PreparedFits(t, d, s);
      PreparedTrustsCache(t, d, s);
      var d1 := WriteLedger(d, p);
      var d2 := WritePolicy(d1, p);
      HeldPolicyPersists(t, d1, s);
      HeldPolicyPersists(t, d2, s);
    }
  }

  lemma PreparedTrustsCache(t: Trust, d: Disk, s: SignedPolicy)
    requires Prepare(t, d, s).Ok?
    ensures t.verify(s) && (d.policy.Some? ==> t.verify(d.policy.value))
  {
    hide ObserveEntry, ValidLedger;
  }

  /** When persisting fails, exactly: the signature or the cached file is not genuine, or the ledger
      (or, without one, the cached policy) knows a higher revision, knows another document at this
      revision, or has no room. */
  lemma PersistFailsExactly(t: Trust, d: Disk, s: SignedPolicy)
    requires Lawful(t) && Readable(d)
    ensures Persist(t, d, s).1.Some? <==>
      || !t.verify(s)
      || (d.policy.Some? && !t.verify(d.policy.value))
      || var known := Known(t, d, s.document.id);
         (if known.Some? then
            || s.document.revision < known.value.highest
            || (s.document.revision == known.value.highest && t.digest(s.document) != known.value.digest)
          else d.ledger.Some? && |d.ledger.value| >= MAX_REMEMBERED)
    ensures Persist(t, d, s).1.Some? ==> Persist(t, d, s).0 == d
  {
    hide ObserveEntry, Lawful, ValidLedger, Recall;
    if t.verify(s) && (d.policy.Some? ==> t.verify(d.policy.value)) {
      if d.ledger.None? && d.policy.Some? {
        StartObservesCached(t, d);
      }
      assert d.ledger.None? && d.policy.None? ==> Recall([], s.document.id).None? by { RecallNothing([], s.document.id); }
      StartIsValid(t, d);
      ObserveMeaning(StartingEntries(t, d).value, EntryOf(t.digest, s.document));
    }
  }

  lemma StartObservesCached(t: Trust, d: Disk)
    requires Lawful(t) && d.ledger.None? && d.policy.Some? && t.verify(d.policy.value)
    ensures StartingEntries(t, d).Ok? && |StartingEntries(t, d).value| == 1
  {
    hide Sort, Lawful;
    var e := EntryOf(t.digest, d.policy.value.document);
    SortPermutes(ByPolicyID(), [] + [e]);
  }

  /** The entry a writer compares with: from the ledger, or without one from the cached policy. */
  function Known(t: Trust, d: Disk, id: string): Option<Entry> {
    if d.ledger.Some? then Recall(d.ledger.value, id)
    else if d.policy.Some? && d.policy.value.document.id == id then Some(EntryOf(t.digest, d.policy.value.document))
    else None
  }
}
