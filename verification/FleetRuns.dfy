/** The agent's managed sync as the four requests it makes, between which scans are ingested and the
    controller goes on: internal/managed/sync.go and client.go. */
module FleetRuns {
  import opened Instants
  import opened Model
  import opened Journal
  import opened JournalRuns
  import opened Scan
  import opened Ingest
  import opened Contracts
  import opened Redact
  import opened Fleet
  import PolicyCache
  import PolicyLedger
  import Protocol = PolicyProtocol

  /** How far a sync got: greeted with a heartbeat, the policy asked for, cached, and the findings listed
      and redacted.  `source` is the journal at the listing. */
  datatype Phase =
    | Idle
    | Greeted(now: Time)
    | Asked(now: Time)
    | Approved(now: Time)
    | Collected(now: Time, source: Tables, listing: seq<Finding>, rows: seq<RedactedFinding>)

  /** The agent's journal, controller and policy cache as one protocol, the running sync, and the number of
      reports accepted so far. */
  datatype World = World(agent: Tables, net: Protocol.World, phase: Phase, reports: nat)

  datatype Setup = Setup(codec: Codec, net: Protocol.Deployment)

  datatype Step =
    | Ingested(s: ScanSnapshot)
    | Recorded(e: Event)
    | Control(op: C.Op)
    | Greet(metadata: DeviceMetadata, now: Time, serverNow: nat)
    | Ask
    | Cache(writes: nat)
    | Collect(listing: seq<Finding>, rows: seq<RedactedFinding>)
    | Submit(serverNow: nat)
    | GiveUp

  const START := World(EMPTY, Protocol.START, Idle, 0)

  function GreetStep(p: Setup, w: World, metadata: DeviceMetadata, now: Time, serverNow: nat): World {
    var quiet := w.(net := Protocol.Next(p.net, w.net, Protocol.Lose), phase := Idle);
    if now == ZERO_TIME then quiet
    else
      var op := C.Op.Heartbeat(p.net.deviceID, metadata, serverNow);
      quiet.(net := Protocol.Next(p.net, quiet.net, Protocol.Control(op)),
             phase := if C.Apply(w.net.db, p.net.sha, op).1.None? then Greeted(now) else Idle)
  }

  /** The agent asks, and the controller answers if its group has a policy. */
  function AskStep(p: Setup, w: World): World {
    if !w.phase.Greeted? then w
    else
      var answered := Protocol.Next(p.net, w.net, Protocol.Fetch);
      if answered.inFlight.None? then w.(phase := Idle) else w.(net := answered, phase := Asked(w.phase.now))
  }

  /** The agent caches the answer, or dies if it does fewer than two writes.  A policy without reporting
      ends the sync. */
  function CacheStep(p: Setup, w: World, writes: nat): World {
    if !w.phase.Asked? || w.net.inFlight.None? then w.(phase := Idle)
    else
      var signed := w.net.inFlight.value;
      var cached := PolicyCache.Prepare(p.net.trust, w.net.disk, signed).Ok? && writes >= 2;
      w.(net := Protocol.Next(p.net, w.net, Protocol.Persist(writes)),
         phase := if cached && signed.document.reportingEnabled then Approved(w.phase.now) else Idle)
  }

  function CollectStep(w: World, listing: seq<Finding>, rows: seq<RedactedFinding>): World {
    if !w.phase.Approved? then w
    else if Aggregate(listing).None? then w.(phase := Idle)
    else w.(phase := Collected(w.phase.now, w.agent, listing, rows))
  }

  function SubmitStep(p: Setup, w: World, serverNow: nat): World {
    if !w.phase.Collected? then w
    else
      var report := Fleet.ReportOf(w.phase.now, w.phase.rows);
      if !ValidReport(report, w.phase.now) then w.(phase := Idle)
      else
        var op := C.Op.SyncReport(p.net.deviceID, report, serverNow);
        w.(net := Protocol.Next(p.net, w.net, Protocol.Control(op)), phase := Idle,
           reports := w.reports + (if C.Apply(w.net.db, p.net.sha, op).1.None? then 1 else 0))
  }

  function Next(p: Setup, w: World, step: Step): World {
    match step
    case Ingested(s) => w.(agent := IngestScan(w.agent, p.codec, s).0)
    case Recorded(e) => w.(agent := AppendEvent(w.agent, e).0)
    case Control(op) => w.(net := Protocol.Next(p.net, w.net, Protocol.Control(op)))
    case Greet(metadata, now, serverNow) => GreetStep(p, w, metadata, now, serverNow)
    case Ask => AskStep(p, w)
    case Cache(writes) => CacheStep(p, w, writes)
    case Collect(listing, rows) => CollectStep(w, listing, rows)
    case Submit(serverNow) => SubmitStep(p, w, serverNow)
    case GiveUp => w.(phase := Idle)
  }

  /** The device's reports come from this agent; a listing lists the current findings in some order, and
      is redacted. */
  ghost predicate Legal(p: Setup, w: World, step: Step) {
    match step
    case Recorded(e) => WellNamed(e)
    case Control(op) => !(op.SyncReport? && op.deviceID == p.net.deviceID)
    case Collect(listing, rows) =>
      IsListing(w.agent.findings, listing) && (Aggregate(listing).Some? ==> Lists(Aggregate(listing).value, rows))
    case _ => true
  }

  function Run(p: Setup, steps: seq<Step>): World {
    if steps == [] then START else Next(p, Run(p, steps[..|steps| - 1]), steps[|steps| - 1])
  }

  ghost predicate LegalRun(p: Setup, steps: seq<Step>) {
    forall i :: 0 <= i < |steps| ==> Legal(p, Run(p, steps[..i]), steps[i])
  }

  // ----- the invariant -----

  ghost predicate Lawfully(p: Setup) { Ingest.Lawful(p.codec) && Protocol.Paired(p.net) }

  /** What a collected report is of: findings of an earlier journal that the present one still has, and
      that cover the device's rows. */
  ghost predicate SoundPhase(p: Setup, w: World) {
    w.phase.Collected? ==>
      && SoundAgent(w.phase.source) && KeepsNames(w.phase.source, w.agent)
      && Redacts(w.phase.source.findings, w.phase.listing, w.phase.rows)
      && NoStaleRows(p.net.deviceID, w.net.db, w.phase.source)
  }

  ghost predicate Sound(p: Setup, w: World) {
    && SoundAgent(w.agent) && NoStaleRows(p.net.deviceID, w.net.db, w.agent)
    && SoundPhase(p, w) && Protocol.Sound(p.net, w.net)
  }

  ghost predicate SameRows(deviceID: string, a: C.Db, b: C.Db) {
    forall key: C.FindingKey :: key.0 == deviceID ==>
      && (key in b.findings <==> key in a.findings)
      && (key in a.findings ==> b.findings[key] == a.findings[key])
  }

  lemma SameRowsStayFresh(deviceID: string, a: C.Db, b: C.Db, t: Tables)
    requires NoStaleRows(deviceID, a, t) && SameRows(deviceID, a, b)
    ensures NoStaleRows(deviceID, b, t)
  {
    hide Found;
  }

  lemma AgentStepKeepsSound(p: Setup, w: World, t: Tables)
    requires Sound(p, w) && SoundAgent(t) && KeepsNames(w.agent, t)
    ensures Sound(p, w.(agent := t))
  {
    hide SoundAgent, Protocol.Sound, Redacts, NoStaleRows, KeepsNames;
    RowsStayFresh(p.net.deviceID, w.net.db, w.agent, t);
    if w.phase.Collected? { KeepsNamesTransitive(w.phase.source, w.agent, t); }
  }

  /** Steps on the protocol side that leave the device's rows alone, with a phase that claims no more. */
  lemma NetStepKeepsSound(p: Setup, w: World, net: Protocol.World, phase: Phase)
    requires Sound(p, w) && Protocol.Sound(p.net, net) && SameRows(p.net.deviceID, w.net.db, net.db)
    requires phase.Collected? ==> phase == w.phase
    ensures Sound(p, w.(net := net, phase := phase))
  {
    hide SoundAgent, Protocol.Sound, Redacts, NoStaleRows, KeepsNames, SameRows;
    SameRowsStayFresh(p.net.deviceID, w.net.db, net.db, w.agent);
    if phase.Collected? { SameRowsStayFresh(p.net.deviceID, w.net.db, net.db, phase.source); }
  }

  lemma ControlKeepsRows(p: Setup, w: Protocol.World, op: C.Op)
    requires !(op.SyncReport? && op.deviceID == p.net.deviceID)
    ensures SameRows(p.net.deviceID, w.db, Protocol.Next(p.net, w, Protocol.Control(op)).db)
  {
    hide C.Apply;
    OthersKeepRows(w.db, p.net.sha, op, p.net.deviceID);
  }

  lemma OtherNetKeepsRows(p: Setup, w: Protocol.World, step: Protocol.Step)
    requires !step.Control?
    ensures Protocol.Next(p.net, w, step).db == w.db && SameRows(p.net.deviceID, w.db, w.db)
  {
    hide C.PolicyForDevice, PolicyCache.PersistPrefix;
  }

  lemma GreetKeepsSound(p: Setup, w: World, metadata: DeviceMetadata, now: Time, serverNow: nat)
    requires Lawfully(p) && Sound(p, w)
    ensures Sound(p, GreetStep(p, w, metadata, now, serverNow))
  {
    hide Sound, Lawfully, SameRows, Protocol.Next, C.Apply;
    SoundNet(p, w);
    var lost := Protocol.Next(p.net, w.net, Protocol.Lose);
    Protocol.LoseKeepsSound(p.net, w.net);
    OtherNetKeepsRows(p, w.net, Protocol.Lose);
    NetStepKeepsSound(p, w, lost, Idle);
    if now != ZERO_TIME {
      var op := C.Op.Heartbeat(p.net.deviceID, metadata, serverNow);
      Protocol.ControlKeepsSound(p.net, lost, op);
      ControlKeepsRows(p, lost, op);
      NetStepKeepsSound(p, w.(net := lost, phase := Idle), Protocol.Next(p.net, lost, Protocol.Control(op)),
                        GreetStep(p, w, metadata, now, serverNow).phase);
    }
  }

  lemma SoundNet(p: Setup, w: World)
    requires Sound(p, w)
    ensures Protocol.Sound(p.net, w.net)
  {
    hide SoundAgent, Protocol.Sound, NoStaleRows, SoundPhase;
  }

  lemma LawfulParts(p: Setup)
    requires Lawfully(p)
    ensures Ingest.Lawful(p.codec) && Protocol.Paired(p.net)
  {
    hide Ingest.Lawful, Protocol.Paired;
  }

  lemma AskAndCacheKeepSound(p: Setup, w: World, writes: nat)
    requires Lawfully(p) && Sound(p, w)
    ensures Sound(p, AskStep(p, w)) && Sound(p, CacheStep(p, w, writes))
  {
    hide Sound, Lawfully, SameRows, Protocol.Next, PolicyCache.Prepare, Protocol.Paired;
    LawfulParts(p);
    SoundNet(p, w);
    Protocol.FetchKeepsSound(p.net, w.net);
    Protocol.PersistKeepsSound(p.net, w.net, writes);
    OtherNetKeepsRows(p, w.net, Protocol.Fetch);
    OtherNetKeepsRows(p, w.net, Protocol.Persist(writes));
    NetStepKeepsSound(p, w, w.net, Idle);
    NetStepKeepsSound(p, w, w.net, w.phase);
    NetStepKeepsSound(p, w, Protocol.Next(p.net, w.net, Protocol.Fetch), AskStep(p, w).phase);
    NetStepKeepsSound(p, w, Protocol.Next(p.net, w.net, Protocol.Persist(writes)), CacheStep(p, w, writes).phase);
  }

  lemma CollectKeepsSound(p: Setup, w: World, listing: seq<Finding>, rows: seq<RedactedFinding>)
    requires Sound(p, w) && Legal(p, w, Collect(listing, rows))
    ensures Sound(p, CollectStep(w, listing, rows))
  {
    hide SoundAgent, Protocol.Sound, NoStaleRows, Aggregate, IsListing, Lists;
  }

  /** When a report is accepted, the rows it leaves, and that otherwise the table stays. */
  lemma SubmitEffect(p: Setup, w: World, serverNow: nat)
    requires Sound(p, w) && w.phase.Collected?
    ensures var w' := SubmitStep(p, w, serverNow); var report := Fleet.ReportOf(w.phase.now, w.phase.rows);
      && (w'.reports > w.reports <==>
            ValidReport(report, w.phase.now) && ValidReport(report, serverNow) && C.Active(w.net.db, p.net.deviceID))
      && (w'.reports > w.reports ==>
            && RowsAre(w'.net.db, p.net.deviceID, w.phase.rows, w.phase.now)
            && NoStaleRows(p.net.deviceID, w'.net.db, w.phase.source))
      && (w'.reports == w.reports ==> w'.net.db.findings == w.net.db.findings)
  {
    hide SoundAgent, Protocol.Sound, Redacts, NoStaleRows, KeepsNames, RowsAre, C.Apply, C.Upsert, ValidReport;
    var report := Fleet.ReportOf(w.phase.now, w.phase.rows);
    SubmitStores(w.net.db, p.net.sha, p.net.deviceID, report, serverNow);
    ReportReplacesRows(p.net.deviceID, w.net.db, w.phase.source, w.phase.listing, w.phase.rows, w.phase.now);
    var after := C.Apply(w.net.db, p.net.sha, C.Op.SyncReport(p.net.deviceID, report, serverNow)).0;
    RowsSeeFindings(p.net.deviceID, w.net.db.(findings := after.findings), after, w.phase.source, w.phase.rows, w.phase.now);
  }

  lemma RowsSeeFindings(deviceID: string, a: C.Db, b: C.Db, t: Tables, rows: seq<RedactedFinding>, at: Time)
    requires a.findings == b.findings
    ensures RowsAre(a, deviceID, rows, at) <==> RowsAre(b, deviceID, rows, at)
    ensures NoStaleRows(deviceID, a, t) <==> NoStaleRows(deviceID, b, t)
  {
    hide Found;
  }

  lemma SubmitKeepsSound(p: Setup, w: World, serverNow: nat)
    requires Sound(p, w)
    ensures Sound(p, SubmitStep(p, w, serverNow))
  {
    if w.phase.Collected? {
      var w' := SubmitStep(p, w, serverNow);
      SubmitEffect(p, w, serverNow);
      hide SoundAgent, Protocol.Sound, Redacts, KeepsNames, NoStaleRows, Protocol.Next, C.Apply, ValidReport;
      var op := C.Op.SyncReport(p.net.deviceID, Fleet.ReportOf(w.phase.now, w.phase.rows), serverNow);
      Protocol.ControlKeepsSound(p.net, w.net, op);
      if w'.reports > w.reports {
        RowsStayFresh(p.net.deviceID, w'.net.db, w.phase.source, w.agent);
      } else {
        RowsSeeFindings(p.net.deviceID, w.net.db, w'.net.db, w.agent, [], w.phase.now);
      }
    }
  }

  lemma StepKeepsSound(p: Setup, w: World, step: Step)
    requires Lawfully(p) && Sound(p, w) && Legal(p, w, step)
    ensures Sound(p, Next(p, w, step))
  {
    hide Lawfully, Sound, SoundAgent, KeepsNames, IngestScan, AppendEvent, Protocol.Next, Protocol.Sound;
    hide GreetStep, AskStep, CacheStep, CollectStep, SubmitStep, IsListing, Lists, Aggregate, Protocol.Paired;
    LawfulParts(p);
    SoundNet(p, w);
    assert SoundAgent(w.agent) by { SoundParts(p, w); }
    match step
    case Ingested(s) =>
      IngestKeepsNames(w.agent, p.codec, s);
      AgentStepKeepsSound(p, w, IngestScan(w.agent, p.codec, s).0);
    case Recorded(e) =>
      AppendKeepsNames(w.agent, e);
      AgentStepKeepsSound(p, w, AppendEvent(w.agent, e).0);
    case Control(op) =>
      Protocol.ControlKeepsSound(p.net, w.net, op);
      ControlKeepsRows(p, w.net, op);
      NetStepKeepsSound(p, w, Protocol.Next(p.net, w.net, Protocol.Control(op)), w.phase);
    case Greet(metadata, now, serverNow) => GreetKeepsSound(p, w, metadata, now, serverNow);
    case Ask => AskAndCacheKeepSound(p, w, 0);
    case Cache(writes) => AskAndCacheKeepSound(p, w, writes);
    case Collect(listing, rows) => CollectKeepsSound(p, w, listing, rows);
    case Submit(serverNow) => SubmitKeepsSound(p, w, serverNow);
    case GiveUp =>
      OtherNetKeepsRows(p, w.net, Protocol.Lose);
      NetStepKeepsSound(p, w, w.net, Idle);
  }

  lemma SoundParts(p: Setup, w: World)
    requires Sound(p, w)
    ensures SoundAgent(w.agent) && NoStaleRows(p.net.deviceID, w.net.db, w.agent) && SoundPhase(p, w)
  {
    hide SoundAgent, Protocol.Sound, NoStaleRows, SoundPhase;
  }

  lemma StartIsSound(p: Setup)
    ensures Sound(p, START)
  {
    EmptyIsConsistent();
    Protocol.StartIsSound(p.net);
    hide Consistent, Protocol.Sound;
  }

  lemma {:induction false} RunIsSound(p: Setup, steps: seq<Step>)
    requires Lawfully(p) && LegalRun(p, steps)
    ensures Sound(p, Run(p, steps))
  {
    hide Legal, Lawfully, Next, Sound;
    if steps == [] {
      StartIsSound(p);
    } else {
      var front, step := steps[..|steps| - 1], steps[|steps| - 1];
      forall i | 0 <= i < |front| ensures Legal(p, Run(p, front[..i]), front[i]) {
        assert front[..i] == steps[..i];
      }
      RunIsSound(p, front);
      assert Legal(p, Run(p, front), step);
      StepKeepsSound(p, Run(p, front), step);
    }
  }

  /** Step `i` listed the findings the running sync will report; the sync has been waiting since. */
  ghost predicate ListedAt(p: Setup, steps: seq<Step>, i: nat) {
    var phase := Run(p, steps).phase;
    && i < |steps| && phase.Collected? && steps[i] == Collect(phase.listing, phase.rows)
    && phase.source == Run(p, steps[..i]).agent
    && (forall j :: i < j <= |steps| ==> Run(p, steps[..j]).phase == phase)
  }

  lemma CollectedMoves(p: Setup, w: World, step: Step)
    requires Next(p, w, step).phase.Collected?
    ensures Next(p, w, step).phase == w.phase
         || (step.Collect? && Next(p, w, step).phase.(now := 0) == Collected(0, w.agent, step.listing, step.rows))
  {
    hide Protocol.Next, IngestScan, AppendEvent, C.Apply, Aggregate, ValidReport, PolicyCache.Prepare;
  }

  lemma {:induction false} CollectedWasListed(p: Setup, steps: seq<Step>) returns (i: nat)
    requires Run(p, steps).phase.Collected?
    ensures ListedAt(p, steps, i)
  {
    hide Next;
    var n := |steps| - 1;
    var front := steps[..n];
    CollectedMoves(p, Run(p, front), steps[n]);
    assert steps[..|steps|] == steps;
    if Run(p, steps).phase == Run(p, front).phase {
      i := CollectedWasListed(p, front);
      assert front[..i] == steps[..i];
      forall j | i < j <= |steps| ensures Run(p, steps[..j]).phase == Run(p, steps).phase {
        if j <= n { assert front[..j] == steps[..j]; }
      }
    } else {
      i := n;
    }
  }

  // ----- the theorems -----

  /** Over every run in which scans, lifecycle events and controller transactions fall between the
      requests of the agent's syncs, with crashes and lost answers: an accepted report leaves, as the
      device's rows, exactly the redaction of the findings the agent had when it listed them, each group
      once, none missing and none stale; a refused one changes no row.  If no finding changed since the
      listing, these are the current findings. */
  lemma FleetViewAgrees(p: Setup, steps: seq<Step>, serverNow: nat) returns (i: nat)
    requires Lawfully(p) && LegalRun(p, steps) && Run(p, steps).phase.Collected?
    ensures ListedAt(p, steps, i)
    ensures var w := Run(p, steps); var w' := Next(p, w, Step.Submit(serverNow));
      && Redacts(Run(p, steps[..i]).agent.findings, w.phase.listing, w.phase.rows)
      && (w'.reports > w.reports ==> RowsAre(w'.net.db, p.net.deviceID, w.phase.rows, w.phase.now))
      && (w'.reports == w.reports ==> w'.net.db.findings == w.net.db.findings)
      && (w.agent.findings == Run(p, steps[..i]).agent.findings ==>
            Redacts(w.agent.findings, w.phase.listing, w.phase.rows))
  {
    hide Legal, Lawfully, SubmitStep, Run, Redacts, RowsAre, Sound, LegalRun;
    RunIsSound(p, steps);
    SoundParts(p, Run(p, steps));
    SubmitEffect(p, Run(p, steps), serverNow);
    i := CollectedWasListed(p, steps);
  }

  /** In no state of such a run does the controller hold a row of the device for which the agent has no
      finding. */
  lemma RowsAreNeverStale(p: Setup, steps: seq<Step>)
    requires Lawfully(p) && LegalRun(p, steps)
    ensures NoStaleRows(p.net.deviceID, Run(p, steps).net.db, Run(p, steps).agent)
  {
    hide Lawfully, LegalRun, Run, NoStaleRows, Sound;
    RunIsSound(p, steps);
    SoundParts(p, Run(p, steps));
  }

  /** A revoked device's report is refused, also when the revocation came after the listing. */
  lemma RevokedReportIsRefused(p: Setup, w: World, serverNow: nat)
    requires Sound(p, w) && w.net.db.devices.Keys >= {p.net.deviceID}
    requires w.net.db.devices[p.net.deviceID].revokedAt.Some?
    ensures Next(p, w, Step.Submit(serverNow)).net.db.findings == w.net.db.findings
    ensures Next(p, w, Step.Submit(serverNow)).reports == w.reports
  {
    hide Sound, ValidReport, SubmitStep;
    if w.phase.Collected? {
      SubmitEffect(p, w, serverNow);
      ReportsOnlyGrow(p, w, serverNow);
    } else {
      NothingToSubmit(p, w, serverNow);
    }
  }

  lemma ReportsOnlyGrow(p: Setup, w: World, serverNow: nat)
    ensures SubmitStep(p, w, serverNow).reports >= w.reports
  {
    hide ValidReport, C.Apply, Protocol.Next;
  }

  lemma NothingToSubmit(p: Setup, w: World, serverNow: nat)
    requires !w.phase.Collected?
    ensures SubmitStep(p, w, serverNow) == w
  {
  }

  // ----- consent -----

  /** The policy the agent has cached, as `LoadPolicy` returns it, asks for reports. */
  ghost predicate Consents(p: Setup, w: World) {
    var cached := PolicyCache.Load(p.net.trust, w.net.disk.policy, w.net.disk.ledger);
    cached.Ok? && cached.value.reportingEnabled
  }

  predicate Reporting(w: World) { w.phase.Approved? || w.phase.Collected? }

  lemma CachingAsksConsent(p: Setup, w: World, writes: nat)
    requires Lawfully(p) && Sound(p, w) && Reporting(CacheStep(p, w, writes))
    ensures Consents(p, CacheStep(p, w, writes))
  {
    hide PolicyCache.Load, PolicyCache.Prepare, Protocol.Sound, Protocol.Paired, Sound, Lawfully;
    LawfulParts(p);
    SoundNet(p, w);
    var signed := w.net.inFlight.value;
    SoundDisk(p, w.net);
    Protocol.ServedAfterPersist(p.net, w.net.disk, signed);
  }

  lemma SoundDisk(p: Setup, w: Protocol.World)
    requires Protocol.Sound(p.net, w)
    ensures Protocol.DiskSound(p.net, w.disk)
  {
    hide Protocol.DiskSound, Protocol.Ordered;
  }

  lemma StepKeepsConsent(p: Setup, w: World, step: Step)
    requires Lawfully(p) && Sound(p, w) && (Reporting(w) ==> Consents(p, w))
    ensures Reporting(Next(p, w, step)) ==> Consents(p, Next(p, w, step))
  {
    hide PolicyCache.Load, PolicyCache.Prepare, PolicyCache.PersistPrefix, C.Apply, C.PolicyForDevice, Sound, Lawfully;
    hide IngestScan, AppendEvent, Aggregate, ValidReport;
    if step.Cache? && Reporting(Next(p, w, step)) { CachingAsksConsent(p, w, step.writes); }
  }

  lemma {:induction false} ReportingHasConsent(p: Setup, steps: seq<Step>)
    requires Lawfully(p) && LegalRun(p, steps)
    ensures Reporting(Run(p, steps)) ==> Consents(p, Run(p, steps))
  {
    hide Legal, Lawfully, Next, Sound, Consents;
    if steps != [] {
      var front := steps[..|steps| - 1];
      forall i | 0 <= i < |front| ensures Legal(p, Run(p, front[..i]), front[i]) {
        assert front[..i] == steps[..i];
      }
      ReportingHasConsent(p, front);
      RunIsSound(p, front);
      StepKeepsConsent(p, Run(p, front), steps[|front|]);
    }
  }

  /** Over every such run, a report is accepted only from an agent whose cached policy, once it has been
      written in full, asks for reports: a sync that died while caching sends none. */
  lemma ReportsNeedConsent(p: Setup, steps: seq<Step>, step: Step)
    requires Lawfully(p) && LegalRun(p, steps)
    requires Next(p, Run(p, steps), step).reports != Run(p, steps).reports
    ensures step.Submit? && Consents(p, Run(p, steps))
  {
    hide Run, LegalRun, Lawfully, Consents, Next;
    ReportingHasConsent(p, steps);
    OnlySubmissionsReport(p, Run(p, steps), step);
  }

  lemma OnlySubmissionsReport(p: Setup, w: World, step: Step)
    requires Next(p, w, step).reports != w.reports
    ensures step.Submit? && w.phase.Collected?
  {
    hide Protocol.Next, IngestScan, AppendEvent, C.Apply, Aggregate, ValidReport, PolicyCache.Prepare;
  }

  // ----- a sync that nothing interrupts -----

  datatype Call = Call(metadata: DeviceMetadata, now: Time, serverNow: nat, listing: seq<Finding>, rows: seq<RedactedFinding>)

  /** The rest of a sync after the heartbeat. */
  function AfterGreeting(p: Setup, w: World, call: Call): World {
    SubmitStep(p, CollectStep(CacheStep(p, AskStep(p, w), 2), call.listing, call.rows), call.serverNow)
  }

  function Sync(p: Setup, w: World, call: Call): World {
    AfterGreeting(p, GreetStep(p, w, call.metadata, call.now, call.serverNow), call)
  }

  /** The policy the controller would send is one the agent caches, and asks for reports. */
  ghost predicate Approves(p: Setup, w: World) {
    var current := C.PolicyForDevice(w.net.db, p.net.deviceID);
    && current.Some? && current.value.reportingEnabled
    && PolicyCache.Prepare(p.net.trust, w.net.disk, p.net.sign(current.value)).Ok?
  }

  lemma IdleStays(p: Setup, w: World, call: Call)
    requires w.phase.Idle?
    ensures AfterGreeting(p, w, call) == w
  {
    hide C.Apply, Aggregate, ValidReport, PolicyCache.Prepare, Protocol.Next;
  }

  lemma GreetOutcome(p: Setup, w: World, call: Call)
    ensures var w' := GreetStep(p, w, call.metadata, call.now, call.serverNow);
      && w'.phase == (if call.now != ZERO_TIME && ValidDeviceMetadata(call.metadata)
                         && C.Active(w.net.db, p.net.deviceID) then Greeted(call.now) else Idle)
      && w'.agent == w.agent && w'.reports == w.reports
      && w'.net.disk == w.net.disk && w'.net.inFlight.None?
      && w'.net.db.findings == w.net.db.findings
      && (w'.phase.Greeted? ==>
            && C.Active(w'.net.db, p.net.deviceID)
            && C.PolicyForDevice(w'.net.db, p.net.deviceID) == C.PolicyForDevice(w.net.db, p.net.deviceID))
      && (!C.Active(w.net.db, p.net.deviceID) ==> w'.net.db == w.net.db)
  {
    hide C.Apply, C.PolicyForDevice, ValidDeviceMetadata;
    HeartbeatKeepsRows(w.net.db, p.net.sha, p.net.deviceID, call.metadata, call.serverNow);
  }

  lemma ApprovalOutcome(p: Setup, w: World)
    requires Lawfully(p) && Protocol.Sound(p.net, w.net) && w.phase.Greeted? && w.net.inFlight.None?
    ensures var w' := CacheStep(p, AskStep(p, w), 2);
      && w'.phase == (if Approves(p, w) then Approved(w.phase.now) else Idle)
      && w'.agent == w.agent && w'.reports == w.reports && w'.net.db == w.net.db
  {
    hide C.PolicyForDevice, PolicyCache.Prepare, PolicyCache.PersistPrefix, PolicyCache.Lawful, Ingest.Lawful, ValidPolicy;
    if C.PolicyForDevice(w.net.db, p.net.deviceID).Some? { Protocol.FetchedIsCurrent(p.net, w.net); }
  }

  lemma SubmissionOutcome(p: Setup, w: World, call: Call)
    requires Lawfully(p) && Sound(p, w) && w.phase.Approved?
    requires Legal(p, w, Collect(call.listing, call.rows))
    ensures var w' := SubmitStep(p, CollectStep(w, call.listing, call.rows), call.serverNow); var at := w.phase.now;
      && (w'.reports > w.reports <==>
            && C.Active(w.net.db, p.net.deviceID)
            && at != ZERO_TIME && at <= call.serverNow + FIVE_MINUTES && |call.rows| <= MAX_REPORT_FINDINGS
            && (forall id :: id in w.agent.findings ==> w.agent.findings[id].lastSeen <= at + FIVE_MINUTES))
      && (w'.reports > w.reports ==> RowsAre(w'.net.db, p.net.deviceID, call.rows, at))
      && (w'.reports == w.reports ==> w'.net.db.findings == w.net.db.findings)
  {
    hide SoundAgent, Protocol.Sound, NoStaleRows, SubmitStep, Aggregate, IsListing, Lists, ValidReport, RowsAre, Lawfully;
    SoundParts(p, w);
    NothingOverflows(w.agent, call.listing);
    CollectKeepsSound(p, w, call.listing, call.rows);
    SubmitEffect(p, CollectStep(w, call.listing, call.rows), call.serverNow);
    RowsAreReportable(w.agent, call.listing, call.rows, w.phase.now, w.phase.now);
    RowsAreReportable(w.agent, call.listing, call.rows, w.phase.now, call.serverNow);
  }

  /** In every sound state, a sync that nothing interrupts reports exactly when the device is active, its
      metadata is valid, the agent caches its group's policy and the policy asks for reports, and the report
      fits the size and clock limits: the redacted rows themselves are never refused, and no count ever
      overflows.  The device's rows are then the redaction of the current findings. */
  lemma SyncReportsExactly(p: Setup, w: World, call: Call)
    requires Lawfully(p) && Sound(p, w)
    requires IsListing(w.agent.findings, call.listing)
    requires Aggregate(call.listing).Some? ==> Lists(Aggregate(call.listing).value, call.rows)
    ensures var w' := Sync(p, w, call);
      && (w'.reports > w.reports <==>
            && call.now != ZERO_TIME && ValidDeviceMetadata(call.metadata) && C.Active(w.net.db, p.net.deviceID)
            && Approves(p, w)
            && call.now <= call.serverNow + FIVE_MINUTES && |call.rows| <= MAX_REPORT_FINDINGS
            && (forall id :: id in w.agent.findings ==> w.agent.findings[id].lastSeen <= call.now + FIVE_MINUTES))
      && (w'.reports > w.reports ==> RowsAre(w'.net.db, p.net.deviceID, call.rows, call.now))
      && (w'.reports == w.reports ==> w'.net.db.findings == w.net.db.findings)
  {
    hide Lawfully, Sound, IsListing, Aggregate, Lists, RowsAre, ValidDeviceMetadata, C.PolicyForDevice, C.Active;
    hide GreetStep, AskStep, CacheStep, CollectStep, SubmitStep, PolicyCache.Prepare, Protocol.Sound;
    GreetOutcome(p, w, call);
    GreetKeepsSound(p, w, call.metadata, call.now, call.serverNow);
    var greeted := GreetStep(p, w, call.metadata, call.now, call.serverNow);
    if greeted.phase.Idle? {
      IdleStays(p, greeted, call);
    } else {
      SoundNet(p, greeted);
      ApprovalOutcome(p, greeted);
      AskAndCacheKeepSound(p, greeted, 0);
      AskAndCacheKeepSound(p, AskStep(p, greeted), 2);
      var approved := CacheStep(p, AskStep(p, greeted), 2);
      if approved.phase.Approved? {
        SubmissionOutcome(p, approved, call);
      } else {
        NothingToCollect(p, approved, call);
      }
    }
  }

  lemma NothingToCollect(p: Setup, w: World, call: Call)
    requires w.phase.Idle?
    ensures SubmitStep(p, CollectStep(w, call.listing, call.rows), call.serverNow) == w
  {
    hide C.Apply, Aggregate, ValidReport, Protocol.Next;
  }

  /** The agent refuses a policy only because its ledger is full, unless its id was deleted and created
      again: in every sound state, hence over every run, a policy that asks for reports is approved. */
  lemma ReachedApproval(p: Setup, w: World)
    requires Lawfully(p) && Sound(p, w)
    requires var current := C.PolicyForDevice(w.net.db, p.net.deviceID);
      current.Some? && current.value.reportingEnabled && current.value.id !in w.net.recreated
    requires w.net.disk.ledger.Some? ==> |w.net.disk.ledger.value| < PolicyLedger.MAX_REMEMBERED
    ensures Approves(p, w)
  {
    hide C.PolicyForDevice, Lawfully, Sound, PolicyCache.Prepare, Protocol.Paired, Protocol.Sound;
    LawfulParts(p);
    SoundNet(p, w);
    var lost := Protocol.Next(p.net, w.net, Protocol.Lose);
    Protocol.LoseKeepsSound(p.net, w.net);
    Protocol.FetchKeepsSound(p.net, lost);
    FetchedDocument(p, lost);
    Protocol.SoundAnswerIsAccepted(p.net, Protocol.Next(p.net, lost, Protocol.Fetch));
  }

  lemma FetchedDocument(p: Setup, w: Protocol.World)
    requires Protocol.Paired(p.net) && Protocol.Sound(p.net, w)
    requires C.PolicyForDevice(w.db, p.net.deviceID).Some?
    ensures p.net.sign(C.PolicyForDevice(w.db, p.net.deviceID).value).document == C.PolicyForDevice(w.db, p.net.deviceID).value
  {
    hide C.PolicyForDevice, PolicyCache.Lawful, ValidPolicy;
    Protocol.FetchedIsCurrent(p.net, w);
  }

  /** A revoked device's sync changes nothing at the controller. */
  lemma RevokedSyncChangesNothing(p: Setup, w: World, call: Call)
    requires p.net.deviceID in w.net.db.devices && w.net.db.devices[p.net.deviceID].revokedAt.Some?
    ensures Sync(p, w, call).net.db == w.net.db && Sync(p, w, call).reports == w.reports
  {
    hide GreetStep, AfterGreeting, ValidDeviceMetadata;
    GreetOutcome(p, w, call);
    IdleStays(p, GreetStep(p, w, call.metadata, call.now, call.serverNow), call);
  }
}
