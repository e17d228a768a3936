/** The agent's policy cache of internal/managed/policy.go: a ledger file and a policy file, written
    in that order under a lock and read without it. */
module PolicyCache {
  import opened Model
  import opened Contracts
  import opened PolicyLedger

  datatype SignedPolicy = SignedPolicy(document: PolicyDocument, publicKey: string, signature: string)

  /** Verification against the pinned key, and the digest of a document. */
  datatype Trust = Trust(verify: SignedPolicy -> bool, digest: PolicyDocument -> string)

  /** Verification includes the validity of the document; a digest is a SHA-256 text. */
  ghost predicate Lawful(t: Trust) {
    && (forall s :: t.verify(s) ==> ValidPolicy(s.document))
    && (forall x :: HexDigest(t.digest(x)))
  }

  /** The two files; a missing ledger file is `None`. */
  datatype Disk = Disk(policy: Option<SignedPolicy>, ledger: Option<seq<Entry>>)

  datatype CacheError =
    | Untrusted | CachedUntrusted | LedgerUnreadable | Rejected(error: LedgerError) | NoPolicy | NoLedger

  /** The entries a writer starts from: without a ledger file, what the cached policy proves. */
  function StartingEntries(t: Trust, d: Disk): Result<seq<Entry>, CacheError> {
    if d.policy.Some? && !t.verify(d.policy.value) then Err(CachedUntrusted)
    else if d.ledger.Some? then
      if ValidLedger(d.ledger.value) then Ok(d.ledger.value) else Err(LedgerUnreadable)
    else if d.policy.Some? then
      var seen := ObserveEntry([], EntryOf(t.digest, d.policy.value.document));
      if seen.error.Some? then Err(Rejected(seen.error.value)) else Ok(seen.entries)
    else Ok([])
  }

  /** What a writer decided to do: the two writes, each possibly skipped. */
  datatype Plan = Plan(signed: SignedPolicy, ledger: Option<seq<Entry>>, replace: bool)

  function Prepare(t: Trust, d: Disk, s: SignedPolicy): Result<Plan, CacheError> {
    if !t.verify(s) then Err(Untrusted)
    else
      match StartingEntries(t, d)
      case Err(error) => Err(error)
      case Ok(entries) =>
        var seen := ObserveEntry(entries, EntryOf(t.digest, s.document));
        if seen.error.Some? then Err(Rejected(seen.error.value))
        else
          Ok(Plan(s, if d.ledger.None? || seen.changed then Some(seen.entries) else None,
                  !(d.policy.Some? && d.policy.value.document == s.document)))
  }

  function WriteLedger(d: Disk, p: Plan): Disk { if p.ledger.Some? then d.(ledger := p.ledger) else d }

  function WritePolicy(d: Disk, p: Plan): Disk { if p.replace then d.(policy := Some(p.signed)) else d }

  /** `persistVerifiedPolicy` without interruption. */
  function Persist(t: Trust, d: Disk, s: SignedPolicy): (Disk, Option<CacheError>) {
    match Prepare(t, d, s)
    case Err(error) => (d, Some(error))
    case Ok(plan) => (WritePolicy(WriteLedger(d, plan), plan), None)
  }

  /** The disk when the process dies after the first `k` of the two writes. */
  function PersistPrefix(t: Trust, d: Disk, s: SignedPolicy, k: nat): Disk {
    match Prepare(t, d, s)
    case Err(_) => d
    case Ok(plan) =>
      if k == 0 then d else if k == 1 then WriteLedger(d, plan) else WritePolicy(WriteLedger(d, plan), plan)
  }

  /** `LoadPolicy`, from the policy file and a possibly later ledger file. */
  function Load(t: Trust, policy: Option<SignedPolicy>, ledger: Option<seq<Entry>>): Result<PolicyDocument, CacheError> {
    if policy.None? then Err(NoPolicy)
    else if !t.verify(policy.value) then Err(Untrusted)
    else if ledger.None? then Err(NoLedger)
    else if !ValidLedger(ledger.value) then Err(LedgerUnreadable)
    else
      var error := CurrentError(ledger.value, EntryOf(t.digest, policy.value.document));
      if error.Some? then Err(Rejected(error.value)) else Ok(policy.value.document)
  }

  lemma EntryIsValid(t: Trust, s: SignedPolicy)
    requires Lawful(t) && t.verify(s)
    ensures ValidEntry(EntryOf(t.digest, s.document))
  {
    hide ValidName, HexDigest;
  }

  /** Starting entries are a valid ledger; without a ledger file they recall the cached policy. */
  lemma StartIsValid(t: Trust, d: Disk)
    requires Lawful(t) && StartingEntries(t, d).Ok?
    ensures ValidLedger(StartingEntries(t, d).value)
    ensures d.ledger.Some? ==> StartingEntries(t, d).value == d.ledger.value
    ensures d.ledger.None? && d.policy.Some? ==>
      forall id :: Recall(StartingEntries(t, d).value, id) ==
        if id == d.policy.value.document.id then Some(EntryOf(t.digest, d.policy.value.document)) else None
  {
    hide ObserveEntry, ValidEntry, Lawful;
    if d.ledger.None? && d.policy.Some? {
      EntryIsValid(t, d.policy.value);
      ObserveMeaning([], EntryOf(t.digest, d.policy.value.document));
    }
  }

  /** What a prepared writer will put in the ledger. */
  lemma StorableLedger(t: Trust, d: Disk, s: SignedPolicy)
    requires Lawful(t) && StartingEntries(t, d).Ok? && t.verify(s)
    ensures var start, e := StartingEntries(t, d).value, EntryOf(t.digest, s.document);
            var seen := ObserveEntry(start, e);
      && ValidLedger(seen.entries)
      && (seen.error.None? ==> Recall(seen.entries, e.policyID) == Some(e))
      && (forall id :: id != e.policyID ==> Recall(seen.entries, id) == Recall(start, id))
      && (forall x :: Recall(start, e.policyID) == Some(x) && seen.error.None? ==> x == e || x.highest < e.highest)
  {
    hide ObserveEntry, ValidEntry, Lawful, StartingEntries, ValidLedger;
    StartIsValid(t, d);
    EntryIsValid(t, s);
    ObserveMeaning(StartingEntries(t, d).value, EntryOf(t.digest, s.document));
    RecalledNames(StartingEntries(t, d).value, s.document.id);
  }

  lemma RecalledNames(entries: seq<Entry>, id: string)
    ensures Recall(entries, id).Some? ==> Recall(entries, id).value.policyID == id
  {
    if Recall(entries, id).Some? { RecalledIsMember(entries, id); }
  }

  /** The state directory. */
  class StateDirectory {
    const trust: Trust
    var policyFile: Option<SignedPolicy>
    var ledgerFile: Option<seq<Entry>>

    constructor (trust: Trust, policy: Option<SignedPolicy>)
      ensures this.trust == trust && State() == Disk(policy, None)
    {
      this.trust := trust;
      policyFile, ledgerFile := policy, None;
    }

    function State(): Disk
      reads this
    {
      Disk(policyFile, ledgerFile)
    }

    method PersistVerifiedPolicy(signed: SignedPolicy) returns (error: Option<CacheError>)
      requires Lawful(trust)
      modifies this
      ensures (State(), error) == Persist(trust, old(State()), signed)
    {
      hide ObserveEntry, ValidLedger, ValidPolicy;
      if !trust.verify(signed) {
        return Some(Untrusted);
      }
      var existing := policyFile;
      if existing.Some? && !trust.verify(existing.value) {
        return Some(CachedUntrusted);
      }
      var missing := ledgerFile.None?;
      var ledger := new PolicyRevisionLedger(if missing then [] else ledgerFile.value);
      if missing {
        if existing.Some? {
          var _, unseen := ledger.Observe(trust.digest, existing.value.document);
          if unseen.Some? {
            return Some(Rejected(unseen.value));
          }
        }
      } else {
        var readable := ledger.Validate();
        if !readable {
          return Some(LedgerUnreadable);
        }
      }
      var changed, rejected := ledger.Observe(trust.digest, signed.document);
      if rejected.Some? {
        return Some(Rejected(rejected.value));
      }
      if missing || changed {
        // The validation on the way to disk cannot fail.
        assert ValidLedger(ledger.policies) by { StorableLedger(trust, old(State()), signed); }
        ledgerFile := Some(ledger.policies);
      }
      if existing.Some? && existing.value.document == signed.document {
        return None;
      }
      policyFile := Some(signed);
      return None;
    }

    method LoadPolicy() returns (r: Result<PolicyDocument, CacheError>)
      ensures r == Load(trust, policyFile, ledgerFile)
    {
      hide ValidLedger;
      var cached := policyFile;
      if cached.None? {
        return Err(NoPolicy);
      }
      if !trust.verify(cached.value) {
        return Err(Untrusted);
      }
      if ledgerFile.None? {
        return Err(NoLedger);
      }
      var ledger := new PolicyRevisionLedger(ledgerFile.value);
      var readable := ledger.Validate();
      if !readable {
        return Err(LedgerUnreadable);
      }
      var stale := ledger.VerifyCurrent(trust.digest, cached.value.document);
      return if stale.Some? then Err(Rejected(stale.value)) else Ok(cached.value.document);
    }
  }

  /** What an accepted persist leaves on disk: a policy file with the same document is not touched, and a
      ledger that already remembers the document is not rewritten. */
  lemma PersistTouchesOnlyChanges(t: Trust, d: Disk, s: SignedPolicy)
    requires Lawful(t) && Persist(t, d, s).1.None?
    ensures var after := Persist(t, d, s).0;
      && after.policy.Some? && after.policy.value.document == s.document
      && (d.policy.Some? && d.policy.value.document == s.document ==> after.policy == d.policy)
      && (d.policy.None? || d.policy.value.document != s.document ==> after.policy == Some(s))
      && after.ledger.Some? && Recall(after.ledger.value, s.document.id) == Some(EntryOf(t.digest, s.document))
      && (d.ledger.Some? && Recall(d.ledger.value, s.document.id) == Some(EntryOf(t.digest, s.document)) ==>
            after.ledger == d.ledger)
  {
    hide ObserveEntry, Recall, ValidLedger, Lawful;
    StartIsValid(t, d);
    ObserveMeaning(StartingEntries(t, d).value, EntryOf(t.digest, s.document));
  }
}
