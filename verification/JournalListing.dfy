/** The two orders in which internal/journal/sqlite.go lists current findings. */
module JournalListing {
  import opened Ordering
  import opened Instants
  import opened Model

  // ----- SortFindings -----

  function SeverityRank(s: Severity): int {
    match s
    case Critical => 2
    case Warn => 1
    case _ => 0
  }

  /** Most severe first, then latest update, then id. */
  predicate MoreUrgent(a: Finding, b: Finding) {
    if a.severity != b.severity then SeverityRank(a.severity) > SeverityRank(b.severity)
    else if a.updatedAt != b.updatedAt then a.updatedAt > b.updatedAt
    else StrLess(a.id, b.id)
  }

  const MORE_URGENT: (Finding, Finding) -> bool := (a, b) => MoreUrgent(a, b)

  function SortFindings(findings: seq<Finding>): seq<Finding> { Sort(MORE_URGENT, findings) }

  ghost predicate UniqueIDs(findings: seq<Finding>) {
    forall i, j :: 0 <= i < j < |findings| ==> findings[i].id != findings[j].id
  }

  lemma UrgencyIsStrictOrder()
    ensures StrictOrder(MORE_URGENT)
  {
    forall x: Finding ensures !MORE_URGENT(x, x) { StrLessIrreflexive(x.id); }
    forall x: Finding, y: Finding, z: Finding | MORE_URGENT(x, y) && MORE_URGENT(y, z) ensures MORE_URGENT(x, z) {
      if StrLess(x.id, y.id) && StrLess(y.id, z.id) { StrLessTransitive(x.id, y.id, z.id); }
    }
  }

  lemma UrgencyDistinguishes(findings: seq<Finding>)
    requires UniqueIDs(findings) && forall f :: f in findings ==> f.severity.Valid()
    ensures Distinguished(MORE_URGENT, findings)
  {
    forall i, j | 0 <= i < j < |findings|
      ensures MORE_URGENT(findings[i], findings[j]) || MORE_URGENT(findings[j], findings[i])
    {
      StrLessTotal(findings[i].id, findings[j].id);
      assert findings[i] in findings && findings[j] in findings;
    }
  }

  /** `SortFindings` orders stored findings strictly, and alike for every order they come in. */
  lemma SortedFindingsForgetOrder(a: seq<Finding>, b: seq<Finding>)
    requires multiset(a) == multiset(b)
    requires UniqueIDs(a) && UniqueIDs(b) && forall f :: f in a ==> f.severity.Valid()
    ensures SortFindings(a) == SortFindings(b) && StrictlySorted(MORE_URGENT, SortFindings(a))
    ensures multiset(SortFindings(a)) == multiset(a)
  {
    hide MoreUrgent;
    UrgencyIsStrictOrder();
    forall f | f in b ensures f.severity.Valid() {
      assert f in multiset(b);
      assert f in a;
    }
    UrgencyDistinguishes(a);
    UrgencyDistinguishes(b);
    SortForgetsOrder(MORE_URGENT, a, b);
    SortIsSorted(MORE_URGENT, a);
    SortPermutes(MORE_URGENT, a);
  }

  /** What the order means for a reader: no less severe finding comes first, nor, at equal severity, one
      updated earlier, nor, at equal times, a later id. */
  ghost predicate MostUrgentFirst(list: seq<Finding>) {
    forall i, j :: 0 <= i < j < |list| ==>
      && (list[j].severity == Critical ==> list[i].severity == Critical)
      && (list[j].severity == Warn ==> list[i].severity == Critical || list[i].severity == Warn)
      && (list[i].severity == list[j].severity ==> list[i].updatedAt >= list[j].updatedAt)
      && (list[i].severity == list[j].severity && list[i].updatedAt == list[j].updatedAt ==>
            StrLess(list[i].id, list[j].id))
  }

  /** `SortFindings` puts the most urgent first and loses none. */
  lemma SortedMostUrgentFirst(findings: seq<Finding>)
    requires UniqueIDs(findings) && forall f :: f in findings ==> f.severity.Valid()
    ensures MostUrgentFirst(SortFindings(findings)) && multiset(SortFindings(findings)) == multiset(findings)
  {
    hide StrLess, Sort;
    SortedFindingsForgetOrder(findings, findings);
    var list := SortFindings(findings);
    forall f | f in list ensures f.severity.Valid() {
      assert f in multiset(list);
      assert f in findings;
    }
    forall i, j | 0 <= i < j < |list| ensures MORE_URGENT(list[i], list[j]) { }
  }

  // ----- ListFindings -----

  /** The `updated_at` column: RFC 3339 text without trailing zeros in the fraction. */
  function UpdatedText(f: Finding): string { if f.updatedAt < 0 then "" else NanoText(f.updatedAt) }

  /** `ORDER BY updated_at DESC, finding_id`, on texts. */
  predicate ListedBefore(a: Finding, b: Finding) {
    StrLess(UpdatedText(b), UpdatedText(a)) || (UpdatedText(a) == UpdatedText(b) && StrLess(a.id, b.id))
  }

  const LISTED_BEFORE: (Finding, Finding) -> bool := (a, b) => ListedBefore(a, b)

  lemma ListingIsStrictOrder()
    ensures StrictOrder(LISTED_BEFORE)
  {
    hide UpdatedText;
    forall x: Finding ensures !LISTED_BEFORE(x, x) {
      StrLessIrreflexive(UpdatedText(x));
      StrLessIrreflexive(x.id);
    }
    forall x: Finding, y: Finding, z: Finding | LISTED_BEFORE(x, y) && LISTED_BEFORE(y, z) ensures LISTED_BEFORE(x, z) {
      if StrLess(UpdatedText(z), UpdatedText(y)) && StrLess(UpdatedText(y), UpdatedText(x)) {
        StrLessTransitive(UpdatedText(z), UpdatedText(y), UpdatedText(x));
      } else if StrLess(x.id, y.id) && StrLess(y.id, z.id) {
        StrLessTransitive(x.id, y.id, z.id);
      }
    }
  }

  lemma IDsDecide(findings: seq<Finding>)
    requires UniqueIDs(findings)
    ensures Distinguished(LISTED_BEFORE, findings)
  {
    hide UpdatedText;
    forall i, j | 0 <= i < j < |findings|
      ensures LISTED_BEFORE(findings[i], findings[j]) || LISTED_BEFORE(findings[j], findings[i])
    {
      StrLessTotal(UpdatedText(findings[i]), UpdatedText(findings[j]));
      StrLessTotal(findings[i].id, findings[j].id);
    }
  }

  /** The current findings in these states (in any, if none is named), each once, in listing order. */
  method ListFindings(table: map<string, Finding>, states: set<FindingState>) returns (list: seq<Finding>)
    requires forall id :: id in table ==> table[id].id == id
    ensures StrictlySorted(LISTED_BEFORE, list)
    ensures forall f :: f in list <==>
      f.id in table && table[f.id] == f && (states == {} || f.state in states)
  {
    hide Sort, ListedBefore;
    list := [];
    var ids := table.Keys;
    while ids != {}
      invariant ids <= table.Keys && UniqueIDs(list)
      invariant forall f :: f in list <==>
        f.id in table && f.id !in ids && table[f.id] == f && (states == {} || f.state in states)
      decreases ids
    {
      var id :| id in ids;
      if states == {} || table[id].state in states {
        list := list + [table[id]];
      }
      ids := ids - {id};
    }
    IDsDecide(list);
    ListingIsStrictOrder();
    SortIsSorted(LISTED_BEFORE, list);
    SortKeepsMembers(LISTED_BEFORE, list);
    list := Sort(LISTED_BEFORE, list);
  }

  /** Two times in one second, the fraction of the earlier one a prefix of the later one's. */
  predicate TextInverts(earlier: nat, later: nat) {
    earlier < later && earlier / SECOND == later / SECOND && Fraction(earlier) <= Fraction(later)
  }

  /** Newest first is what the listing promises, and what it delivers for every pair of findings but
      those whose texts invert. */
  lemma ListedNewestFirst(a: Finding, b: Finding)
    requires InRange(a.updatedAt) && InRange(b.updatedAt) && a.updatedAt > b.updatedAt
    ensures ListedBefore(a, b) <==> !TextInverts(b.updatedAt, a.updatedAt)
    ensures ListedBefore(b, a) <==> TextInverts(b.updatedAt, a.updatedAt)
  {
    hide NanoText, Fraction, Year;
    NanoTextOrder(b.updatedAt, a.updatedAt);
    StrLessIrreflexive(UpdatedText(a));
  }

  /** What a listing means for a reader: of two findings the earlier listed one was updated later, unless
      their time texts invert; equal times are listed by id. */
  ghost predicate ReadsInOrder(a: Finding, b: Finding)
    requires a.updatedAt >= 0 && b.updatedAt >= 0
  {
    && (a.updatedAt < b.updatedAt ==> TextInverts(a.updatedAt, b.updatedAt))
    && (a.updatedAt > b.updatedAt ==> !TextInverts(b.updatedAt, a.updatedAt))
    && (a.updatedAt == b.updatedAt ==> StrLess(a.id, b.id))
  }

  lemma ListedBeforeMeans(a: Finding, b: Finding)
    requires InRange(a.updatedAt) && InRange(b.updatedAt) && ListedBefore(a, b)
    ensures ReadsInOrder(a, b)
  {
    hide TextInverts, StrLess, NanoText, Year;
    if a.updatedAt > b.updatedAt {
      ListedNewestFirst(a, b);
    } else if a.updatedAt < b.updatedAt {
      ListedNewestFirst(b, a);
    }
    StrLessIrreflexive(UpdatedText(a));
  }

  lemma ListingMeans(list: seq<Finding>)
    requires StrictlySorted(LISTED_BEFORE, list)
    ensures forall i, j :: 0 <= i < j < |list| && InRange(list[i].updatedAt) && InRange(list[j].updatedAt) ==>
      ReadsInOrder(list[i], list[j])
  {
    hide ReadsInOrder, ListedBefore, Year;
    forall i, j | 0 <= i < j < |list| && InRange(list[i].updatedAt) && InRange(list[j].updatedAt)
      ensures ReadsInOrder(list[i], list[j])
    {
      assert LISTED_BEFORE(list[i], list[j]);
      ListedBeforeMeans(list[i], list[j]);
    }
  }
}
