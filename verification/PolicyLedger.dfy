/** The agent's policy revision ledger of internal/managed/policy.go: the highest revision seen of
    each policy, and the digest of its document. */
module PolicyLedger {
  import opened Ordering
  import opened Model
  import opened Contracts

  const MAX_REMEMBERED := 4_096

  datatype Entry = Entry(policyID: string, highest: nat, digest: string)

  datatype LedgerError = Rollback | Equivocation | LedgerFull | NotCurrent | Unknown

  function EntryOf(digest: PolicyDocument -> string, d: PolicyDocument): Entry {
    Entry(d.id, d.revision, digest(d))
  }

  /** A hexadecimal SHA-256, in either letter case. */
  predicate HexDigest(s: string) {
    |s| == 64 && forall c :: c in s ==> '0' <= c <= '9' || 'a' <= c <= 'f' || 'A' <= c <= 'F'
  }

  predicate ValidEntry(e: Entry) { ValidName(e.policyID) && e.highest != 0 && HexDigest(e.digest) }

  predicate UniqueIDs(entries: seq<Entry>) {
    forall i, j :: 0 <= i < j < |entries| ==> entries[i].policyID != entries[j].policyID
  }

  predicate ValidLedger(entries: seq<Entry>) {
    |entries| <= MAX_REMEMBERED && (forall e :: e in entries ==> ValidEntry(e)) && UniqueIDs(entries)
  }

  /** The entry of a policy id, if the ledger has one. */
  function Recall(entries: seq<Entry>, id: string): Option<Entry> {
    if entries == [] then None
    else if entries[0].policyID == id then Some(entries[0])
    else Recall(entries[1..], id)
  }

  function ByPolicyID(): (Entry, Entry) -> bool { ByKey(PolicyIDOf()) }

  function PolicyIDOf(): Entry -> string { (e: Entry) => e.policyID }

  class PolicyRevisionLedger {
    var policies: seq<Entry>

    constructor (entries: seq<Entry>)
      ensures policies == entries
    {
      policies := entries;
    }

    /** Raises the entry of the document's id in place, or adds one and sorts again. */
    method Observe(digest: PolicyDocument -> string, document: PolicyDocument)
      returns (changed: bool, error: Option<LedgerError>)
      modifies this
      ensures Sight(policies, changed, error) == ObserveEntry(old(policies), EntryOf(digest, document))
    {
      var text := digest(document);
      ghost var before := policies;
      var index := 0;
      while index < |policies|
        invariant 0 <= index <= |policies| && policies == before
        invariant forall k :: 0 <= k < index ==> policies[k].policyID != document.id
      {
        var entry := policies[index];
        if entry.policyID == document.id {
          PositionIs(policies, index, document.id);
          if document.revision < entry.highest {
            return false, Some(Rollback);
          }
          if document.revision == entry.highest {
            return false, if text != entry.digest then Some(Equivocation) else None;
          }
          policies := policies[index := Entry(entry.policyID, document.revision, text)];
          return true, None;
        }
        index := index + 1;
      }
      PositionIs(policies, |policies|, document.id);
      if |policies| >= MAX_REMEMBERED {
        return false, Some(LedgerFull);
      }
      policies := Sort(ByPolicyID(), policies + [Entry(document.id, document.revision, text)]);
      return true, None;
    }

    method VerifyCurrent(digest: PolicyDocument -> string, document: PolicyDocument)
      returns (error: Option<LedgerError>)
      ensures error == CurrentError(policies, EntryOf(digest, document))
    {
      var text := digest(document);
      for index := 0 to |policies|
        invariant forall k :: 0 <= k < index ==> policies[k].policyID != document.id
      {
        if policies[index].policyID == document.id {
          FirstRecall(policies, index);
          if policies[index].highest != document.revision || policies[index].digest != text {
            return Some(NotCurrent);
          }
          return None;
        }
      }
      RecallNothing(policies, document.id);
      return Some(Unknown);
    }

    method Validate() returns (ok: bool)
      ensures ok <==> ValidLedger(policies)
    {
      hide ValidEntry;
      if |policies| > MAX_REMEMBERED {
        return false;
      }
      var seen: set<string> := {};
      for index := 0 to |policies|
        invariant forall k :: 0 <= k < index ==> ValidEntry(policies[k])
        invariant forall k :: 0 <= k < index ==> policies[k].policyID in seen
        invariant forall id :: id in seen ==> exists k :: 0 <= k < index && policies[k].policyID == id
        invariant forall i, j :: 0 <= i < j < index ==> policies[i].policyID != policies[j].policyID
      {
        if !ValidEntry(policies[index]) {
          assert policies[index] in policies;
          return false;
        }
        if policies[index].policyID in seen {
          return false;
        }
        seen := seen + {policies[index].policyID};
      }
      return true;
    }
  }

  /** The index of the first entry of a policy id, or the length. */
  function Position(entries: seq<Entry>, id: string): (i: nat)
    ensures i <= |entries|
    ensures i < |entries| ==> entries[i].policyID == id
    ensures forall k :: 0 <= k < i ==> entries[k].policyID != id
  {
    if entries == [] || entries[0].policyID == id then 0 else 1 + Position(entries[1..], id)
  }

  lemma PositionIs(entries: seq<Entry>, i: nat, id: string)
    requires i <= |entries| && (i < |entries| ==> entries[i].policyID == id)
    requires forall k :: 0 <= k < i ==> entries[k].policyID != id
    ensures Position(entries, id) == i
  {
    assert i < |entries| ==> Position(entries, id) <= i;
  }

  /** The entries after an observation, whether it changed them, and its error. */
  datatype Sight = Sight(entries: seq<Entry>, changed: bool, error: Option<LedgerError>)

  function ObserveEntry(entries: seq<Entry>, e: Entry): Sight {
    var i := Position(entries, e.policyID);
    if i < |entries| then
      if e.highest < entries[i].highest then Sight(entries, false, Some(Rollback))
      else if e.highest == entries[i].highest then
        Sight(entries, false, if e.digest != entries[i].digest then Some(Equivocation) else None)
      else Sight(entries[i := e], true, None)
    else if |entries| >= MAX_REMEMBERED then Sight(entries, false, Some(LedgerFull))
    else Sight(Sort(ByPolicyID(), entries + [e]), true, None)
  }

  /** What observing an entry does.  A lower revision is a rollback, another digest at the same
      revision an equivocation, and a new id needs room; the ledger is then left alone.  Otherwise it
      recalls exactly this entry for its id and every other id as before, stays valid, and reports a
      change exactly when it made one. */
  lemma ObserveMeaning(entries: seq<Entry>, e: Entry)
    requires ValidLedger(entries)
    ensures var seen, known := ObserveEntry(entries, e), Recall(entries, e.policyID);
      if known.Some? && e.highest < known.value.highest then seen == Sight(entries, false, Some(Rollback))
      else if known.Some? && e.highest == known.value.highest && e.digest != known.value.digest then
        seen == Sight(entries, false, Some(Equivocation))
      else if known.None? && |entries| >= MAX_REMEMBERED then seen == Sight(entries, false, Some(LedgerFull))
      else
        && seen.error.None?
        && (seen.changed <==> known != Some(e))
        && (!seen.changed ==> seen.entries == entries)
        && Recall(seen.entries, e.policyID) == Some(e)
        && (forall id :: id != e.policyID ==> Recall(seen.entries, id) == Recall(entries, id))
        && (ValidEntry(e) ==> ValidLedger(seen.entries))
  {
    hide ValidEntry, Sort;
    var i := Position(entries, e.policyID);
    if i < |entries| {
      RecallAt(entries, i);
      RaisedRecall(entries, i, e);
    } else {
      RecallNothing(entries, e.policyID);
      if |entries| < MAX_REMEMBERED { AddedRecall(entries, e); }
    }
  }

  /** Nothing to object to, or why the entry is not the current one. */
  function CurrentError(entries: seq<Entry>, e: Entry): Option<LedgerError> {
    match Recall(entries, e.policyID)
    case None => Some(Unknown)
    case Some(x) => if x == e then None else Some(NotCurrent)
  }

  // ----- recalling -----

  lemma {:induction false} RecallNothing(entries: seq<Entry>, id: string)
    ensures Recall(entries, id).None? <==> forall k :: 0 <= k < |entries| ==> entries[k].policyID != id
  {
    if entries != [] {
      RecallNothing(entries[1..], id);
      assert forall k :: 0 < k < |entries| ==> entries[k] == entries[1..][k - 1];
      if Recall(entries, id).None? {
        forall k | 0 <= k < |entries| ensures entries[k].policyID != id {
          if k > 0 { assert entries[1..][k - 1].policyID != id; }
        }
      }
    }
  }

  lemma {:induction false} FirstRecall(entries: seq<Entry>, i: nat)
    requires i < |entries|
    requires forall k :: 0 <= k < i ==> entries[k].policyID != entries[i].policyID
    ensures Recall(entries, entries[i].policyID) == Some(entries[i])
  {
    if i > 0 {
      assert entries[0].policyID != entries[i].policyID;
      assert forall k :: 0 <= k < i - 1 ==> entries[1..][k] == entries[k + 1];
      FirstRecall(entries[1..], i - 1);
    }
  }

  lemma RecallAt(entries: seq<Entry>, i: nat)
    requires i < |entries| && UniqueIDs(entries)
    ensures Recall(entries, entries[i].policyID) == Some(entries[i])
  {
    FirstRecall(entries, i);
  }

  /** With unique ids, recalling is membership. */
  lemma RecallIsMember(entries: seq<Entry>, e: Entry)
    requires UniqueIDs(entries)
    ensures Recall(entries, e.policyID) == Some(e) <==> e in entries
  {
    if e in entries {
      var i :| 0 <= i < |entries| && entries[i] == e;
      RecallAt(entries, i);
    }
    if Recall(entries, e.policyID) == Some(e) { RecalledIsMember(entries, e.policyID); }
  }

  lemma {:induction false} RecalledIsMember(entries: seq<Entry>, id: string)
    requires Recall(entries, id).Some?
    ensures Recall(entries, id).value in entries && Recall(entries, id).value.policyID == id
  {
    if entries[0].policyID != id { RecalledIsMember(entries[1..], id); }
  }

  lemma SameMembersSameRecall(a: seq<Entry>, b: seq<Entry>, id: string)
    requires UniqueIDs(a) && UniqueIDs(b)
    requires forall e: Entry :: e.policyID == id ==> (e in a <==> e in b)
    ensures Recall(a, id) == Recall(b, id)
  {
    if Recall(a, id).Some? {
      RecalledIsMember(a, id);
      RecallIsMember(b, Recall(a, id).value);
    } else if Recall(b, id).Some? {
      RecalledIsMember(b, id);
      RecallIsMember(a, Recall(b, id).value);
    }
  }

  lemma RaisedRecall(entries: seq<Entry>, index: nat, e: Entry)
    requires ValidLedger(entries) && index < |entries| && entries[index].policyID == e.policyID
    ensures Recall(entries[index := e], e.policyID) == Some(e)
    ensures forall id :: id != e.policyID ==> Recall(entries[index := e], id) == Recall(entries, id)
    ensures ValidEntry(e) ==> ValidLedger(entries[index := e])
  {
    hide ValidEntry;
    var raised := entries[index := e];
    RecallAt(raised, index);
    forall id | id != e.policyID ensures Recall(raised, id) == Recall(entries, id) {
      forall x: Entry | x.policyID == id ensures x in raised <==> x in entries {
        if x in raised { var k :| 0 <= k < |raised| && raised[k] == x; assert entries[k] == x; }
        if x in entries { var k :| 0 <= k < |entries| && entries[k] == x; assert raised[k] == x; }
      }
      SameMembersSameRecall(raised, entries, id);
    }
  }

  lemma AddedRecall(entries: seq<Entry>, e: Entry)
    requires ValidLedger(entries) && |entries| < MAX_REMEMBERED && Recall(entries, e.policyID).None?
    ensures var added := Sort(ByPolicyID(), entries + [e]);
      && Recall(added, e.policyID) == Some(e)
      && (forall id :: id != e.policyID ==> Recall(added, id) == Recall(entries, id))
      && (ValidEntry(e) ==> ValidLedger(added))
  {
    hide ValidEntry, Sort, Recall;
    var added := Sort(ByPolicyID(), entries + [e]);
    RecallNothing(entries, e.policyID);
    SortKeepsMembers(ByPolicyID(), entries + [e]);
    SortPermutes(ByPolicyID(), entries + [e]);
    SortedIDsAreUnique(entries + [e]);
    RecallIsMember(added, e);
    forall id | id != e.policyID ensures Recall(added, id) == Recall(entries, id) {
      SameMembersSameRecall(added, entries, id);
    }
  }

  lemma SortedIDsAreUnique(entries: seq<Entry>)
    requires UniqueIDs(entries)
    ensures UniqueIDs(Sort(ByPolicyID(), entries))
  {
    hide StrLess, Sort;
    ByKeyIsStrictOrder(PolicyIDOf());
    forall i, j | 0 <= i < j < |entries|
      ensures ByPolicyID()(entries[i], entries[j]) || ByPolicyID()(entries[j], entries[i])
    {
      StrLessTotal(entries[i].policyID, entries[j].policyID);
    }
    SortIsSorted(ByPolicyID(), entries);
    var sorted := Sort(ByPolicyID(), entries);
    forall i, j | 0 <= i < j < |sorted| ensures sorted[i].policyID != sorted[j].policyID {
      assert ByPolicyID()(sorted[i], sorted[j]);
      StrLessIrreflexive(sorted[i].policyID);
    }
  }

  /** A ledger in id order stays in id order, and a new id is added to the entries there were. */
  lemma LedgerStaysSorted(entries: seq<Entry>, e: Entry)
    requires UniqueIDs(entries)
    ensures StrictlySorted(ByPolicyID(), entries) ==> StrictlySorted(ByPolicyID(), ObserveEntry(entries, e).entries)
    ensures Recall(entries, e.policyID).None? && |entries| < MAX_REMEMBERED ==>
      && multiset(ObserveEntry(entries, e).entries) == multiset(entries) + multiset{e}
      && StrictlySorted(ByPolicyID(), ObserveEntry(entries, e).entries)
  {
    hide StrLess, Sort;
    var i, less := Position(entries, e.policyID), ByPolicyID();
    PositionMeans(entries, e.policyID);
    ByKeyIsStrictOrder(PolicyIDOf());
    if i == |entries| {
      var all := entries + [e];
      forall j, k | 0 <= j < k < |all| ensures less(all[j], all[k]) || less(all[k], all[j]) {
        StrLessTotal(all[j].policyID, all[k].policyID);
      }
      SortIsSorted(less, all);
      SortPermutes(less, all);
    } else if StrictlySorted(less, entries) {
      var after := entries[i := e];
      forall j, k | 0 <= j < k < |after| ensures less(after[j], after[k]) {
        assert less(entries[j], entries[k]);
        assert after[j].policyID == entries[j].policyID && after[k].policyID == entries[k].policyID;
      }
    }
  }

  lemma {:induction false} PositionMeans(entries: seq<Entry>, id: string)
    ensures var i := Position(entries, id);
      && i <= |entries| && (i < |entries| ==> entries[i].policyID == id)
      && (forall k :: 0 <= k < i ==> entries[k].policyID != id)
      && (i < |entries| <==> Recall(entries, id).Some?)
  {
    if entries != [] && entries[0].policyID != id { PositionMeans(entries[1..], id); }
  }
}
