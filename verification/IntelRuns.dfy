/** The intelligence directory under crashes and readers that take no lock, and its freedom from
    rollback. */
module IntelRuns {
  import opened Model
  import opened IntelCanonical
  import opened IntelSign
  import opened IntelInstall

  // ----- what installing keeps -----

  /** Every file's content hashes to its name, and `current.json` names a complete bundle. */
  ghost predicate SoundStore(s: Site, st: Store) {
    && (forall name :: name in st.bundles ==> name == FileName(s.hash(st.bundles[name])))
    && (st.current.Some? ==> Follows(s, st.current.value, st.bundles))
  }

  ghost predicate Follows(s: Site, m: Metadata, bundles: map<string, string>) {
    && Follow(s, Some(m), bundles).Ok?
    && m.bundleFile in bundles && Follow(s, Some(m), bundles).value == Current(m, bundles[m.bundleFile])
  }

  lemma FileNameInjective(a: string, b: string)
    requires FileName(a) == FileName(b)
    ensures a == b
  {
    assert |FileName(a)| == |a| + 12 && |FileName(b)| == |b| + 12;
    assert FileName(a)[7..7 + |a|] == a && FileName(b)[7..7 + |b|] == b;
  }

  /** A verified bundle fits the metadata made from it. */
  lemma VerifiedFits(s: Site, a: Attempt, last: Option<Acceptance>)
    requires LawfulSite(s) && VerifyAgainst(s, a, last).Ok?
    ensures var v := VerifyAgainst(s, a, last).value;
      && v.canonical == a.encoded
      && ValidMetadata(s, MetadataOf(s, v)) && Fits(s, NormalizeLimits(s.limits).value, MetadataOf(s, v), v.canonical)
      && SequenceRule(v.bundle, last) == Ok(v.replay)
  {
    hide Verify, PrepareBundle, NormalizeLimits, BoundedIdentifier, Sha256Text, SequenceRule;
    AcceptedMeans(s.crypto, a.encoded, s.trust, VerifyOptions(s.limits, a.now, a.clockSkew, a.agentSchema, last), a.clock);
  }

  /** In a sound store the write of a bundle file never meets other content. */
  lemma PutSucceeds(s: Site, st: Store, content: string)
    requires LawfulSite(s) && SoundStore(s, st)
    ensures PutBundle(st.bundles, FileName(s.hash(content)), content)
         == Some(st.bundles[FileName(s.hash(content)) := content])
  {
    hide Follow, FileName, Sha256Text;
    var name := FileName(s.hash(content));
    if name in st.bundles {
      FileNameInjective(s.hash(content), s.hash(st.bundles[name]));
      assert st.bundles[name := content] == st.bundles;
    }
  }

  /** The plan of an install names what will be written. */
  ghost predicate PlanFits(s: Site, current: Option<Metadata>, p: Plan) {
    p.Publish? ==>
      && p.metadata.bundleFile == FileName(s.hash(p.bytes))
      && ValidMetadata(s, p.metadata) && NormalizeLimits(s.limits).Some?
      && Fits(s, NormalizeLimits(s.limits).value, p.metadata, p.bytes)
      && Ahead(current, Some(p.metadata))
  }

  /** The sequence rises, or stays with bundle id and payload digest. */
  ghost predicate Ahead(a: Option<Metadata>, b: Option<Metadata>) {
    a.Some? ==>
      && b.Some? && a.value.sequence <= b.value.sequence
      && (a.value.sequence == b.value.sequence ==>
            a.value.bundleID == b.value.bundleID && a.value.payloadSHA256 == b.value.payloadSHA256)
  }

  lemma SoundReads(s: Site, st: Store)
    requires LawfulSite(s) && SoundStore(s, st)
    ensures st.current.None? ==> ReadCurrent(s, st) == Err(NoCurrentBundle)
    ensures st.current.Some? ==> ReadCurrent(s, st).Ok? && ReadCurrent(s, st).value.metadata == st.current.value
    ensures st.current.Some? ==>
      st.current.value.sequence > 0 && st.current.value.bundleFile in st.bundles
      && ReadCurrent(s, st).value.bytes == st.bundles[st.current.value.bundleFile]
  {
    hide Fits, IntelSign.Lawful, NormalizeLimits, BoundedIdentifier, Sha256Text, FileName;
  }

  lemma DecisionFits(s: Site, st: Store, a: Attempt)
    requires LawfulSite(s) && SoundStore(s, st) && Decide(s, st, a).Ok?
    ensures PlanFits(s, st.current, Decide(s, st, a).value)
  {
    hide Fits, IntelSign.Lawful, NormalizeLimits, ValidMetadata, VerifyAgainst, Follow, FileName, ReadCurrent;
    SoundReads(s, st);
    if st.current.None? {
      VerifiedFits(s, a, a.lastAccepted);
    } else {
      VerifiedFits(s, a, Some(StrongerAcceptance(a.lastAccepted, AcceptanceOf(st.current.value)).value));
    }
  }

  /** Adding a file under its own hash keeps every pair of metadata and file. */
  lemma NewFileKeepsPairs(s: Site, st: Store, content: string, m: Metadata)
    requires LawfulSite(s) && SoundStore(s, st) && Follows(s, m, st.bundles)
    ensures Follows(s, m, st.bundles[FileName(s.hash(content)) := content])
  {
    hide Fits, ValidMetadata, FileName, NormalizeLimits, IntelSign.Lawful, Sha256Text;
    PutSucceeds(s, st, content);
    var name := FileName(s.hash(content));
    assert m.bundleFile == name ==> st.bundles[name] == content;
  }

  lemma NewFileKeepsSound(s: Site, st: Store, content: string)
    requires LawfulSite(s) && SoundStore(s, st)
    ensures SoundStore(s, st.(bundles := st.bundles[FileName(s.hash(content)) := content]))
  {
    hide Follows, FileName, LawfulSite;
    if st.current.Some? { NewFileKeepsPairs(s, st, content, st.current.value); }
  }

  // ----- the machine -----

  datatype Writer = Idle | BeforeBundle(plan: Plan) | BeforeCurrent(plan: Plan)

  /** The directory, the install holding the lock, and the metadata each running reader has taken. */
  datatype System = System(store: Store, writer: Writer, readers: map<nat, Option<Metadata>>)

  datatype Step =
    | Begin(attempt: Attempt)   // take the lock, read, verify, decide
    | Proceed                   // the lock holder's next write
    | Crash                     // the lock holder dies or is cancelled
    | TakeCurrent(reader: nat)
    | Finish(reader: nat)       // the reader opens the bundle file

  function Next(s: Site, c: System, step: Step): System {
    match step
    case Begin(a) =>
      if c.writer != Idle then c
      else
        (match Decide(s, c.store, a)
         case Ok(Publish(metadata, bytes, replay)) => c.(writer := BeforeBundle(Publish(metadata, bytes, replay)))
         case _ => c)
    case Proceed =>
      (match c.writer
       case BeforeBundle(Publish(metadata, bytes, replay)) =>
         (match PutBundle(c.store.bundles, metadata.bundleFile, bytes)
          case None => c.(writer := Idle)
          case Some(bundles) =>
            c.(store := c.store.(bundles := bundles), writer := BeforeCurrent(Publish(metadata, bytes, replay))))
       case BeforeCurrent(plan) => c.(store := c.store.(current := Some(plan.metadata)), writer := Idle)
       case _ => c)
    case Crash => c.(writer := Idle)
    case TakeCurrent(reader) => c.(readers := c.readers[reader := c.store.current])
    case Finish(reader) => c.(readers := c.readers - {reader})
  }

  function Run(s: Site, steps: seq<Step>): System {
    if steps == [] then System(EMPTY_STORE, Idle, map[])
    else Next(s, Run(s, steps[..|steps| - 1]), steps[|steps| - 1])
  }

  ghost predicate Sound(s: Site, c: System) {
    && SoundStore(s, c.store)
    && (c.writer.BeforeBundle? ==> PlanFits(s, c.store.current, c.writer.plan))
    && (c.writer.BeforeCurrent? ==>
          c.writer.plan.Publish? && PlanFits(s, c.store.current, c.writer.plan)
          && Follows(s, c.writer.plan.metadata, c.store.bundles))
    && (forall r :: r in c.readers && c.readers[r].Some? ==> Follows(s, c.readers[r].value, c.store.bundles))
  }

  lemma WrittenFollows(s: Site, bundles: map<string, string>, p: Plan)
    requires p.Publish? && PlanFits(s, None, p)
    ensures Follows(s, p.metadata, bundles[p.metadata.bundleFile := p.bytes])
  {
    hide Fits, ValidMetadata, NormalizeLimits, FileName;
  }

  lemma BundleStep(s: Site, c: System)
    requires LawfulSite(s) && Sound(s, c) && c.writer.BeforeBundle?
    ensures Sound(s, Next(s, c, Proceed)) && Next(s, c, Proceed).store.current == c.store.current
  {
    hide LawfulSite, SoundStore, Follows, Fits, ValidMetadata, FileName, NormalizeLimits, PutBundle;
    if c.writer.plan.Publish? {
      var p := c.writer.plan;
      PutSucceeds(s, c.store, p.bytes);
      NewFileKeepsSound(s, c.store, p.bytes);
      WrittenFollows(s, c.store.bundles, p);
      forall r | r in c.readers && c.readers[r].Some?
        ensures Follows(s, c.readers[r].value, c.store.bundles[p.metadata.bundleFile := p.bytes])
      {
        NewFileKeepsPairs(s, c.store, p.bytes, c.readers[r].value);
      }
    }
  }

  lemma StepKeepsSound(s: Site, c: System, step: Step)
    requires LawfulSite(s) && Sound(s, c)
    ensures Sound(s, Next(s, c, step)) && Ahead(c.store.current, Next(s, c, step).store.current)
  {
    hide LawfulSite, Follows, Fits, ValidMetadata, FileName, Decide, NormalizeLimits, PutBundle;
    if step.Begin? && Decide(s, c.store, step.attempt).Ok? {
      DecisionFits(s, c.store, step.attempt);
    }
    if step.Proceed? && c.writer.BeforeBundle? { BundleStep(s, c); }
  }

  lemma {:induction false} RunIsSound(s: Site, steps: seq<Step>)
    requires LawfulSite(s)
    ensures Sound(s, Run(s, steps))
  {
    hide Next, LawfulSite;
    if steps != [] {
      hide Sound;
      RunIsSound(s, steps[..|steps| - 1]);
      StepKeepsSound(s, Run(s, steps[..|steps| - 1]), steps[|steps| - 1]);
    }
  }

  lemma AheadIsTransitive(a: Option<Metadata>, b: Option<Metadata>, c: Option<Metadata>)
    requires Ahead(a, b) && Ahead(b, c)
    ensures Ahead(a, c)
  {
  }

  /** Along every run the current sequence never decreases, and while it is unchanged bundle id and
      payload digest are; once there is a current bundle there always is one. */
  lemma {:induction false} NoRollback(s: Site, steps: seq<Step>, i: nat)
    requires LawfulSite(s) && i <= |steps|
    ensures Ahead(Run(s, steps[..i]).store.current, Run(s, steps).store.current)
    decreases |steps|
  {
    hide Next, LawfulSite, Sound;
    if i == |steps| {
      assert steps[..i] == steps;
    } else {
      var n := |steps| - 1;
      assert steps[..n][..i] == steps[..i];
      NoRollback(s, steps[..n], i);
      RunIsSound(s, steps[..n]);
      StepKeepsSound(s, Run(s, steps[..n]), steps[n]);
      AheadIsTransitive(Run(s, steps[..i]).store.current, Run(s, steps[..n]).store.current, Run(s, steps).store.current);
    }
  }

  /** In every reachable state each bundle file's content hashes to its name, and `current.json` names an
      existing, complete bundle that matches it. */
  lemma StoreIsAlwaysSound(s: Site, steps: seq<Step>)
    requires LawfulSite(s)
    ensures var st := Run(s, steps).store;
      && (forall name :: name in st.bundles ==> name == FileName(s.hash(st.bundles[name])))
      && (st.current.Some? ==> ReadCurrent(s, st).Ok? && ReadCurrent(s, st).value.metadata == st.current.value)
  {
    hide LawfulSite, Follow, Run;
    RunIsSound(s, steps);
  }

  /** A reader that read `current.json`, however many installs and crashes ago, gets the bundle it
      named, and its bytes hash to the digest in it; a reader misses only if it looked before
      the first commit. */
  lemma ReaderGetsMatchingPair(s: Site, steps: seq<Step>, i: nat, reader: nat)
    requires LawfulSite(s) && i < |steps| && steps[i] == TakeCurrent(reader)
    requires forall j :: i < j < |steps| ==> steps[j] != TakeCurrent(reader) && steps[j] != Finish(reader)
    ensures var taken, now := Run(s, steps[..i]).store.current, Run(s, steps);
      && reader in now.readers && now.readers[reader] == taken
      && (taken.None? ==> Follow(s, taken, now.store.bundles) == Err(NoCurrentBundle))
      && (taken.Some? ==> Matches(s, Follow(s, taken, now.store.bundles), taken.value))
  {
    hide LawfulSite, Follow, Run, Next;
    ReaderKeepsMetadata(s, steps, i, reader);
    RunIsSound(s, steps);
    MissOrMatch(s, Run(s, steps[..i]).store.current, Run(s, steps).store.bundles);
  }

  ghost predicate Matches(s: Site, r: Result<Current, InstallError>, m: Metadata) {
    r.Ok? && r.value.metadata == m && s.hash(r.value.bytes) == m.bundleSHA256
  }

  lemma MissOrMatch(s: Site, m: Option<Metadata>, bundles: map<string, string>)
    requires LawfulSite(s)
    requires m.Some? ==> Follows(s, m.value, bundles)
    ensures m.None? ==> Follow(s, m, bundles) == Err(NoCurrentBundle)
    ensures m.Some? ==> Matches(s, Follow(s, m, bundles), m.value)
  {
    hide ValidMetadata, NormalizeLimits, IntelSign.Lawful, PrepareBundle, Sha256Text;
  }

  lemma {:induction false} ReaderKeepsMetadata(s: Site, steps: seq<Step>, i: nat, reader: nat)
    requires i < |steps| && steps[i] == TakeCurrent(reader)
    requires forall j :: i < j < |steps| ==> steps[j] != TakeCurrent(reader) && steps[j] != Finish(reader)
    ensures reader in Run(s, steps).readers
    ensures Run(s, steps).readers[reader] == Run(s, steps[..i]).store.current
    decreases |steps|
  {
    hide Decide, PutBundle;
    var n := |steps| - 1;
    if i < n {
      assert steps[..n][..i] == steps[..i];
      ReaderKeepsMetadata(s, steps[..n], i, reader);
    }
  }

  // ----- whole installs -----

  lemma InstallKeepsSound(s: Site, st: Store, a: Attempt)
    requires LawfulSite(s) && SoundStore(s, st)
    ensures SoundStore(s, Install(s, st, a).0) && Ahead(st.current, Install(s, st, a).0.current)
    ensures Install(s, st, a).1.Ok? <==> Decide(s, st, a).Ok?
    ensures Install(s, st, a).1.Err? ==> Install(s, st, a).0 == st
    ensures Install(s, st, a).1.Ok? ==>
      Install(s, st, a).0.current == Some(Decide(s, st, a).value.metadata)
  {
    hide LawfulSite, Follows, Fits, ValidMetadata, FileName, Decide, NormalizeLimits, PutBundle;
    if Decide(s, st, a).Ok? {
      var p := Decide(s, st, a).value;
      DecisionFits(s, st, a);
      if p.Publish? {
        PutSucceeds(s, st, p.bytes);
        NewFileKeepsSound(s, st, p.bytes);
        WrittenFollows(s, st.bundles, p);
      } else {
        KeptIsCurrent(s, st, a);
      }
    }
  }

  lemma KeptIsCurrent(s: Site, st: Store, a: Attempt)
    requires Decide(s, st, a).Ok? && Decide(s, st, a).value.Keep?
    ensures st.current == Some(Decide(s, st, a).value.metadata)
  {
    hide Fits, ValidMetadata, VerifyAgainst, NormalizeLimits, StrongerAcceptance;
  }

  /** An attempt whose bundle is acceptable but for its sequence. */
  ghost predicate Acceptable(s: Site, a: Attempt) { VerifyAgainst(s, a, None).Ok? }

  ghost function BundleOf(s: Site, a: Attempt): Bundle
    requires Acceptable(s, a)
  {
    VerifyAgainst(s, a, None).value.bundle
  }

  /** A previous acceptance only brings in the sequence rule. */
  lemma VerifyWithLast(s: Site, a: Attempt, last: Option<Acceptance>)
    ensures VerifyAgainst(s, a, last).Ok? <==> Acceptable(s, a) && SequenceRule(BundleOf(s, a), last).Ok?
    ensures VerifyAgainst(s, a, last).Ok? ==>
      VerifyAgainst(s, a, last).value ==
        VerifyAgainst(s, a, None).value.(replay := SequenceRule(BundleOf(s, a), last).value)
  {
    hide VerifyForm, NormalizeLimits;
  }

  /** Two states that accepted different content under one sequence. */
  ghost predicate Conflicts(caller: Option<Acceptance>, m: Metadata) {
    caller.Some? && caller.value.sequence == m.sequence
    && (caller.value.bundleID != m.bundleID || caller.value.payloadSHA256 != m.payloadSHA256)
  }

  /** When an install succeeds, exactly: the bundle is acceptable, and the sequence rule allows it both
      against the caller's state and against the current bundle, which do not conflict. */
  lemma InstallSucceedsExactly(s: Site, st: Store, a: Attempt)
    requires LawfulSite(s) && SoundStore(s, st)
    ensures Install(s, st, a).1.Ok? <==>
      && Acceptable(s, a) && SequenceRule(BundleOf(s, a), a.lastAccepted).Ok?
      && (st.current.Some? ==>
            && !Conflicts(a.lastAccepted, st.current.value)
            && SequenceRule(BundleOf(s, a), Some(AcceptanceOf(st.current.value))).Ok?)
    ensures Install(s, st, a).1.Ok? ==>
      Install(s, st, a).0.current == Some(MetadataOf(s, VerifyAgainst(s, a, None).value))
  {
    hide LawfulSite, SoundStore, VerifyAgainst, ReadCurrent, FileName;
    InstallKeepsSound(s, st, a);
    SoundReads(s, st);
    if st.current.None? {
      VerifyWithLast(s, a, a.lastAccepted);
    } else {
      var last := StrongerAcceptance(a.lastAccepted, AcceptanceOf(st.current.value));
      if last.Ok? { VerifyWithLast(s, a, Some(last.value)); }
    }
  }

  /** Different bytes at the accepted sequence do get in: a bundle that shares bundle id, sequence and
      payload digest with the current one, but differs in its bytes, is installed as a replay and takes
      its place. */
  lemma ReplayReplacesCurrent(s: Site, st: Store, a: Attempt)
    requires LawfulSite(s) && SoundStore(s, st) && st.current.Some?
    requires Acceptable(s, a) && a.lastAccepted.None?
    requires AcceptanceOf(MetadataOf(s, VerifyAgainst(s, a, None).value)) == AcceptanceOf(st.current.value)
    requires a.encoded != st.bundles[st.current.value.bundleFile]
    ensures var (after, r) := Install(s, st, a);
      && r.Ok? && r.value.installed && r.value.replay
      && after.current == Some(MetadataOf(s, VerifyAgainst(s, a, None).value)) && after.current != st.current
      && after.bundles[after.current.value.bundleFile] == a.encoded
  {
    hide LawfulSite, SoundStore, VerifyAgainst, FileName, ReadCurrent, Decide, PutBundle;
    SoundReads(s, st);
    InstallSucceedsExactly(s, st, a);
    ReplayIsDecided(s, st, a);
    VerifiedFits(s, a, None);
    PutSucceeds(s, st, a.encoded);
    DifferentHash(s, st, a.encoded);
  }

  lemma ReplayIsDecided(s: Site, st: Store, a: Attempt)
    requires LawfulSite(s) && SoundStore(s, st) && st.current.Some?
    requires Acceptable(s, a) && a.lastAccepted.None?
    requires AcceptanceOf(MetadataOf(s, VerifyAgainst(s, a, None).value)) == AcceptanceOf(st.current.value)
    requires a.encoded != st.bundles[st.current.value.bundleFile]
    ensures Decide(s, st, a) == Ok(Publish(MetadataOf(s, VerifyAgainst(s, a, None).value), a.encoded, true))
  {
    hide LawfulSite, SoundStore, VerifyAgainst, FileName, ReadCurrent;
    SoundReads(s, st);
    VerifyWithLast(s, a, Some(AcceptanceOf(st.current.value)));
    VerifiedFits(s, a, None);
  }

  lemma DifferentHash(s: Site, st: Store, bytes: string)
    requires LawfulSite(s) && SoundStore(s, st) && st.current.Some?
    requires bytes != st.bundles[st.current.value.bundleFile]
    ensures s.hash(bytes) != st.current.value.bundleSHA256
  {
    hide ValidMetadata, NormalizeLimits, IntelSign.Lawful, PrepareBundle;
  }

  // ----- any order -----

  function InstallAll(s: Site, st: Store, attempts: seq<Attempt>): Store {
    if attempts == [] then st
    else Install(s, InstallAll(s, st, attempts[..|attempts| - 1]), attempts[|attempts| - 1]).0
  }

  /** Acceptable bundles offered without a caller state; equal sequences mean equal content. */
  ghost predicate Offers(s: Site, attempts: seq<Attempt>) {
    && (forall i :: 0 <= i < |attempts| ==> Acceptable(s, attempts[i]) && attempts[i].lastAccepted.None?)
    && (forall i, j :: 0 <= i < j < |attempts| && SequenceOf(s, attempts[i]) == SequenceOf(s, attempts[j]) ==>
          attempts[i].encoded == attempts[j].encoded)
  }

  ghost function SequenceOf(s: Site, a: Attempt): nat {
    if Acceptable(s, a) then BundleOf(s, a).sequence else 0
  }

  /** The current bundle is one of the offered, with the highest sequence of all. */
  ghost predicate HoldsMaximum(s: Site, current: Option<Metadata>, attempts: seq<Attempt>) {
    && (exists i :: 0 <= i < |attempts| && Acceptable(s, attempts[i])
          && current == Some(MetadataOf(s, VerifyAgainst(s, attempts[i], None).value)))
    && (forall i :: 0 <= i < |attempts| ==> SequenceOf(s, attempts[i]) <= current.value.sequence)
  }

  lemma SameBytesSameMetadata(s: Site, a: Attempt, b: Attempt)
    requires LawfulSite(s) && Acceptable(s, a) && Acceptable(s, b) && a.encoded == b.encoded
    ensures MetadataOf(s, VerifyAgainst(s, a, None).value) == MetadataOf(s, VerifyAgainst(s, b, None).value)
  {
    hide Verify, NormalizeLimits, PrepareBundle, InWindow, SequenceRule, Sha256Text;
    AcceptedMeans(s.crypto, a.encoded, s.trust, VerifyOptions(s.limits, a.now, a.clockSkew, a.agentSchema, None), a.clock);
    AcceptedMeans(s.crypto, b.encoded, s.trust, VerifyOptions(s.limits, b.now, b.clockSkew, b.agentSchema, None), b.clock);
  }

  /** Installing valid bundles with distinct sequences in any order, any of them repeatedly, ends with
      the bundle of the highest sequence. */
  lemma {:induction false} FinalSequenceIsMaximum(s: Site, attempts: seq<Attempt>)
    requires LawfulSite(s) && Offers(s, attempts) && attempts != []
    ensures SoundStore(s, InstallAll(s, EMPTY_STORE, attempts))
    ensures HoldsMaximum(s, InstallAll(s, EMPTY_STORE, attempts).current, attempts)
  {
    hide LawfulSite, SoundStore, Install, VerifyAgainst, MetadataOf, HoldsMaximum;
    var front, a := attempts[..|attempts| - 1], attempts[|attempts| - 1];
    assert attempts == front + [a];
    var st := InstallAll(s, EMPTY_STORE, front);
    if front == [] {
      EmptyIsSound(s);
      FirstHoldsMaximum(s, st, a);
    } else {
      OffersFront(s, front, a);
      FinalSequenceIsMaximum(s, front);
      NextHoldsMaximum(s, st, front, a);
    }
    InstallKeepsSound(s, st, a);
  }

  lemma EmptyIsSound(s: Site)
    ensures SoundStore(s, EMPTY_STORE)
  {
  }

  lemma OffersFront(s: Site, front: seq<Attempt>, a: Attempt)
    requires Offers(s, front + [a])
    ensures Offers(s, front)
  {
    hide VerifyAgainst, SequenceOf;
    var all := front + [a];
    forall i | 0 <= i < |front| ensures Acceptable(s, front[i]) && front[i].lastAccepted.None? { assert all[i] == front[i]; }
    forall i, j | 0 <= i < j < |front| && SequenceOf(s, front[i]) == SequenceOf(s, front[j])
      ensures front[i].encoded == front[j].encoded
    {
      assert all[i] == front[i] && all[j] == front[j];
    }
  }

  lemma MetadataSequence(s: Site, a: Attempt)
    requires Acceptable(s, a)
    ensures MetadataOf(s, VerifyAgainst(s, a, None).value).sequence == SequenceOf(s, a)
  {
    hide Verify;
  }

  lemma FirstHoldsMaximum(s: Site, st: Store, a: Attempt)
    requires LawfulSite(s) && SoundStore(s, st) && st.current.None?
    requires Acceptable(s, a) && a.lastAccepted.None?
    ensures HoldsMaximum(s, Install(s, st, a).0.current, [a])
  {
    hide LawfulSite, SoundStore, Install, VerifyAgainst, MetadataOf;
    InstallSucceedsExactly(s, st, a);
    MetadataSequence(s, a);
    assert [a][0] == a;
  }

  lemma NextHoldsMaximum(s: Site, st: Store, front: seq<Attempt>, a: Attempt)
    requires LawfulSite(s) && SoundStore(s, st) && Offers(s, front + [a])
    requires HoldsMaximum(s, st.current, front)
    ensures HoldsMaximum(s, Install(s, st, a).0.current, front + [a])
  {
    hide LawfulSite, SoundStore, Install, VerifyAgainst, MetadataOf;
    var all := front + [a];
    assert all[|front|] == a && forall i :: 0 <= i < |front| ==> all[i] == front[i];
    var k :| 0 <= k < |front| && Acceptable(s, front[k])
      && st.current == Some(MetadataOf(s, VerifyAgainst(s, front[k], None).value));
    InstallSucceedsExactly(s, st, a);
    InstallKeepsSound(s, st, a);
    MetadataSequence(s, a);
    MetadataSequence(s, front[k]);
    if SequenceOf(s, a) == SequenceOf(s, front[k]) {
      assert all[k].encoded == all[|front|].encoded;
      SameBytesSameMetadata(s, a, front[k]);
    }
    assert Acceptable(s, all[k]) && Acceptable(s, all[|front|]);
  }

  // ----- crash and retry -----

  /** A sound store decides alike with and without a further bundle file. */
  lemma DecideIgnoresNewFile(s: Site, st: Store, a: Attempt, content: string)
    requires LawfulSite(s) && SoundStore(s, st)
    ensures Decide(s, st.(bundles := st.bundles[FileName(s.hash(content)) := content]), a) == Decide(s, st, a)
  {
    hide LawfulSite, Follow, FileName, VerifyAgainst, StrongerAcceptance;
    var st' := st.(bundles := st.bundles[FileName(s.hash(content)) := content]);
    NewFileKeepsSound(s, st, content);
    PutSucceeds(s, st, content);
    SoundReads(s, st);
    SoundReads(s, st');
  }

  /** An install that dies after any number of its writes, started again with the same bundle, options
      and clock, leaves the store of an uninterrupted one; repeating it after success is a replay that
      writes nothing. */
  lemma RetryConverges(s: Site, st: Store, a: Attempt, k: nat)
    requires LawfulSite(s) && SoundStore(s, st)
    ensures Install(s, InstallPrefix(s, st, a, k), a).0 == Install(s, st, a).0
    ensures Install(s, st, a).1.Ok? ==>
      var (done, r) := Install(s, st, a);
      Install(s, done, a) == (done, Ok(Installed(r.value.metadata, false, true)))
  {
    hide LawfulSite, SoundStore, Decide, FileName;
    if Decide(s, st, a).Ok? && Decide(s, st, a).value.Publish? {
      var p := Decide(s, st, a).value;
      DecisionFits(s, st, a);
      PutSucceeds(s, st, p.bytes);
      InstalledIsKept(s, st, a);
      if k == 1 { DecideIgnoresNewFile(s, st, a, p.bytes); }
    }
  }

  lemma InstalledIsKept(s: Site, st: Store, a: Attempt)
    requires LawfulSite(s) && SoundStore(s, st) && Install(s, st, a).1.Ok? && Decide(s, st, a).value.Publish?
    ensures var (done, r) := Install(s, st, a);
      Decide(s, done, a) == Ok(Keep(r.value.metadata))
  {
    hide LawfulSite, SoundStore, FileName, VerifyAgainst, ReadCurrent;
    var done := Install(s, st, a).0;
    InstallKeepsSound(s, st, a);
    InstallSucceedsExactly(s, st, a);
    InstallSucceedsExactly(s, done, a);
    PublishedBytes(s, st, a);
    SoundReads(s, done);
    var v := VerifyAgainst(s, a, None).value;
    var last := StrongerAcceptance(a.lastAccepted, AcceptanceOf(done.current.value));
    VerifyWithLast(s, a, Some(last.value));
  }

  lemma PublishedBytes(s: Site, st: Store, a: Attempt)
    requires LawfulSite(s) && SoundStore(s, st) && Install(s, st, a).1.Ok? && Decide(s, st, a).value.Publish?
    ensures Acceptable(s, a)
    ensures var done, m := Install(s, st, a).0, MetadataOf(s, VerifyAgainst(s, a, None).value);
      m.bundleFile in done.bundles && done.bundles[m.bundleFile] == VerifyAgainst(s, a, None).value.canonical
  {
    hide LawfulSite, SoundStore, FileName, VerifyAgainst, ReadCurrent;
    InstallSucceedsExactly(s, st, a);
    SoundReads(s, st);
    if st.current.None? {
      VerifyWithLast(s, a, a.lastAccepted);
    } else {
      VerifyWithLast(s, a, Some(StrongerAcceptance(a.lastAccepted, AcceptanceOf(st.current.value)).value));
    }
  }
}
