/** Redaction of internal/managed/sync.go: findings are folded into one row per detector and
    category. */
module Redact {
  import opened Ordering
  import opened Instants
  import opened Model
  import opened Contracts

  const MAX_UINT64: nat := 0xFFFF_FFFF_FFFF_FFFF
  const SEPARATOR: char := '\0'

  function CategoryOf(f: Finding): string { if f.category == "" then "uncategorized" else f.category }

  /** The key of the aggregation map. */
  function GroupKey(f: Finding): string { f.detectorID + [SEPARATOR] + CategoryOf(f) }

  function SeverityRank(s: Severity): int {
    match s
    case Critical => 3
    case Warn => 2
    case Info => 1
    case OtherSeverity(_) => 0
  }

  function StateRank(s: FindingState): int {
    match s
    case Open => 4
    case Acknowledged => 3
    case Suppressed => 2
    case Resolved => 1
  }

  function Candidate(f: Finding): RedactedFinding {
    RedactedFinding(f.detectorID, CategoryOf(f), f.severity, f.state, f.firstSeen, f.lastSeen, f.occurrences)
  }

  function Merge(row: RedactedFinding, c: RedactedFinding): RedactedFinding {
    row.(occurrences := row.occurrences + c.occurrences,
         firstSeen := if c.firstSeen < row.firstSeen then c.firstSeen else row.firstSeen,
         lastSeen := if c.lastSeen > row.lastSeen then c.lastSeen else row.lastSeen,
         severity := if SeverityRank(c.severity) > SeverityRank(row.severity) then c.severity else row.severity,
         state := if StateRank(c.state) > StateRank(row.state) then c.state else row.state)
  }

  type Groups = map<string, RedactedFinding>

  /** One finding more; `None` is an overflow of the 64-bit count. */
  function AddFinding(groups: Groups, f: Finding): Option<Groups> {
    var key, c := GroupKey(f), Candidate(f);
    if key !in groups then Some(groups[key := c])
    else if MAX_UINT64 - groups[key].occurrences < c.occurrences then None
    else Some(groups[key := Merge(groups[key], c)])
  }

  function Aggregate(findings: seq<Finding>): Option<Groups> {
    if findings == [] then Some(map[])
    else
      match Aggregate(findings[..|findings| - 1])
      case None => None
      case Some(groups) => AddFinding(groups, findings[|findings| - 1])
  }

  function RedactedKeyOf(): RedactedFinding -> (string, string) { (row: RedactedFinding) => RedactedKey(row) }

  function RowLess(): (RedactedFinding, RedactedFinding) -> bool { ByPair(RedactedKeyOf()) }

  /** `rows` holds every group once, in strict key order. */
  ghost predicate Lists(groups: Groups, rows: seq<RedactedFinding>) {
    && StrictlySorted(RowLess(), rows)
    && |rows| == |groups|
    && (forall key :: key in groups ==> groups[key] in rows)
    && (forall row :: row in rows ==> exists key :: key in groups && groups[key] == row)
  }

  ghost predicate WellKeyed(groups: Groups) {
    forall key :: key in groups ==> groups[key].detectorID + [SEPARATOR] + groups[key].category == key
  }

  lemma {:induction false} AggregateIsWellKeyed(findings: seq<Finding>)
    requires Aggregate(findings).Some?
    ensures WellKeyed(Aggregate(findings).value)
  {
    if findings != [] { AggregateIsWellKeyed(findings[..|findings| - 1]); }
  }

  lemma {:induction false} OverflowIsFinal(findings: seq<Finding>, n: nat)
    requires n <= |findings| && Aggregate(findings[..n]).None?
    ensures Aggregate(findings).None?
  {
    hide AddFinding;
    if n < |findings| {
      assert findings[..|findings| - 1][..n] == findings[..n];
      OverflowIsFinal(findings[..|findings| - 1], n);
    } else {
      assert findings[..n] == findings;
    }
  }

  /** `RedactFindings`: aggregate in a map, collect the map in whatever order it yields, sort. */
  method RedactFindings(findings: seq<Finding>) returns (r: Option<seq<RedactedFinding>>)
    ensures r.Some? <==> Aggregate(findings).Some?
    ensures r.Some? ==> Lists(Aggregate(findings).value, r.value)
  {
    hide AddFinding, PairLess, Sort;
    var groups: Groups := map[];
    for i := 0 to |findings|
      invariant Aggregate(findings[..i]) == Some(groups)
    {
      assert findings[..i + 1][..i] == findings[..i];
      var added := AddFinding(groups, findings[i]);
      if added.None? {
        OverflowIsFinal(findings, i + 1);
        return None;
      }
      groups := added.value;
    }
    assert findings[..|findings|] == findings;
    AggregateIsWellKeyed(findings);
    var rows, keys := [], groups.Keys;
    while keys != {}
      invariant keys <= groups.Keys
      invariant |rows| + |keys| == |groups|
      invariant forall key :: key in groups && key !in keys ==> groups[key] in rows
      invariant forall row :: row in rows ==> exists key :: key in groups && key !in keys && groups[key] == row
      invariant Distinguished(RowLess(), rows)
      decreases keys
    {
      var key :| key in keys;
      NewRowIsDistinguished(groups, keys, key, rows);
      rows, keys := rows + [groups[key]], keys - {key};
    }
    ByPairIsStrictOrder(RedactedKeyOf());
    SortIsSorted(RowLess(), rows);
    SortPermutes(RowLess(), rows);
    SortKeepsMembers(RowLess(), rows);
    return Some(Sort(RowLess(), rows));
  }

  lemma NewRowIsDistinguished(groups: Groups, keys: set<string>, key: string, rows: seq<RedactedFinding>)
    requires WellKeyed(groups) && key in keys && keys <= groups.Keys
    requires forall row :: row in rows ==> exists k :: k in groups && k !in keys && groups[k] == row
    requires Distinguished(RowLess(), rows)
    ensures Distinguished(RowLess(), rows + [groups[key]])
  {
    hide PairLess;
    var rows' := rows + [groups[key]];
    forall i | 0 <= i < |rows| ensures RowLess()(rows'[i], groups[key]) || RowLess()(groups[key], rows'[i]) {
      assert rows[i] in rows;
      var k :| k in groups && k !in keys && groups[k] == rows[i];
      PairLessTotal(RedactedKey(rows[i]), RedactedKey(groups[key]));
    }
  }

  // ----- what the groups are -----

  /** The true number of occurrences in a group. */
  function Total(findings: seq<Finding>, key: string): nat {
    if findings == [] then 0
    else
      var last := findings[|findings| - 1];
      Total(findings[..|findings| - 1], key) + (if GroupKey(last) == key then last.occurrences else 0)
  }

  ghost predicate Member(findings: seq<Finding>, key: string, f: Finding) {
    f in findings && GroupKey(f) == key
  }

  /** The row adds up the occurrences of its group, spans its sightings and takes its highest severity
      and state. */
  ghost predicate Summary(findings: seq<Finding>, key: string, row: RedactedFinding) {
    && row.occurrences == Total(findings, key)
    && (exists f :: Member(findings, key, f) && f.detectorID == row.detectorID && CategoryOf(f) == row.category)
    && (exists f :: Member(findings, key, f) && f.firstSeen == row.firstSeen)
    && (exists f :: Member(findings, key, f) && f.lastSeen == row.lastSeen)
    && (exists f :: Member(findings, key, f) && f.severity == row.severity)
    && (exists f :: Member(findings, key, f) && f.state == row.state)
    && (forall f :: Member(findings, key, f) ==>
          && row.firstSeen <= f.firstSeen && f.lastSeen <= row.lastSeen
          && SeverityRank(f.severity) <= SeverityRank(row.severity)
          && StateRank(f.state) <= StateRank(row.state))
  }

  ghost predicate Summarizes(findings: seq<Finding>, groups: Groups) {
    && (forall f :: f in findings ==> GroupKey(f) in groups)
    && (forall key :: key in groups ==> Summary(findings, key, groups[key]))
  }

  /** What the row says for a reader: it is named like one of its findings, critical if any of them is,
      else a warning if any is, else informational; open if any is, else acknowledged, else suppressed, and
      resolved only if all are. */
  ghost predicate Worst(findings: seq<Finding>, key: string, row: RedactedFinding) {
    && (exists f :: Member(findings, key, f) && row.detectorID == f.detectorID
          && row.category == if f.category == "" then "uncategorized" else f.category)
    && (row.severity == Critical <==> exists f :: Member(findings, key, f) && f.severity == Critical)
    && (row.severity == Info <==> forall f :: Member(findings, key, f) ==> f.severity == Info)
    && (row.state == Open <==> exists f :: Member(findings, key, f) && f.state == Open)
    && (row.state == Resolved <==> forall f :: Member(findings, key, f) ==> f.state == Resolved)
    && (row.state == Acknowledged <==>
          (exists f :: Member(findings, key, f) && f.state == Acknowledged)
          && forall f :: Member(findings, key, f) ==> f.state != Open)
  }

  lemma SummaryIsWorst(findings: seq<Finding>, key: string, row: RedactedFinding)
    requires Summary(findings, key, row) && forall f :: f in findings ==> f.severity.Valid()
    ensures Worst(findings, key, row) && row.severity.Valid()
  {
    hide GroupKey, Total;
    var f :| Member(findings, key, f) && f.severity == row.severity;
    var g :| Member(findings, key, g) && g.state == row.state;
  }

  lemma MemberSnoc(findings: seq<Finding>, last: Finding, key: string)
    ensures forall f :: Member(findings + [last], key, f) <==>
      Member(findings, key, f) || (f == last && GroupKey(last) == key)
  {
  }

  lemma TotalSnoc(findings: seq<Finding>, last: Finding, key: string)
    ensures Total(findings + [last], key) ==
      Total(findings, key) + (if GroupKey(last) == key then last.occurrences else 0)
  {
    assert (findings + [last])[..|findings|] == findings;
  }

  lemma SummaryOfOthers(findings: seq<Finding>, last: Finding, key: string, row: RedactedFinding)
    requires Summary(findings, key, row) && GroupKey(last) != key
    ensures Summary(findings + [last], key, row)
  {
    hide Member, GroupKey;
    MemberSnoc(findings, last, key);
    TotalSnoc(findings, last, key);
  }

  lemma SummaryOfFirst(findings: seq<Finding>, last: Finding)
    requires forall f :: f in findings ==> GroupKey(f) != GroupKey(last)
    ensures Summary(findings + [last], GroupKey(last), Candidate(last))
  {
    hide GroupKey;
    var key := GroupKey(last);
    MemberSnoc(findings, last, key);
    TotalSnoc(findings, last, key);
    NoMemberNoTotal(findings, key);
    assert Member(findings + [last], key, last);
  }

  lemma {:induction false} NoMemberNoTotal(findings: seq<Finding>, key: string)
    requires forall f :: f in findings ==> GroupKey(f) != key
    ensures Total(findings, key) == 0
  {
    hide GroupKey;
    if findings != [] { NoMemberNoTotal(findings[..|findings| - 1], key); }
  }

  lemma SummaryOfMerge(findings: seq<Finding>, last: Finding, row: RedactedFinding)
    requires Summary(findings, GroupKey(last), row)
    ensures Summary(findings + [last], GroupKey(last), Merge(row, Candidate(last)))
  {
    hide GroupKey, Member, SeverityRank, StateRank;
    var key := GroupKey(last);
    MemberSnoc(findings, last, key);
    TotalSnoc(findings, last, key);
    assert Member(findings + [last], key, last);
  }

  lemma AddSummarizes(findings: seq<Finding>, last: Finding, groups: Groups)
    requires Summarizes(findings, groups) && AddFinding(groups, last).Some?
    ensures Summarizes(findings + [last], AddFinding(groups, last).value)
  {
    hide GroupKey, Summary, Candidate, Merge;
    var groups' := AddFinding(groups, last).value;
    forall key | key in groups' ensures Summary(findings + [last], key, groups'[key]) {
      if key != GroupKey(last) {
        SummaryOfOthers(findings, last, key, groups[key]);
      } else if key in groups {
        SummaryOfMerge(findings, last, groups[key]);
      } else {
        SummaryOfFirst(findings, last);
      }
    }
  }

  /** The aggregation computes the summary of every group, and of nothing else. */
  lemma {:induction false} AggregateSummarizes(findings: seq<Finding>)
    requires Aggregate(findings).Some?
    ensures Summarizes(findings, Aggregate(findings).value)
  {
    hide AddFinding, Summary;
    if findings != [] {
      var front, last := findings[..|findings| - 1], findings[|findings| - 1];
      assert findings == front + [last];
      AggregateSummarizes(front);
      AddSummarizes(front, last, Aggregate(front).value);
    }
  }

  /** A Go `uint64` in every count. */
  ghost predicate Counted(findings: seq<Finding>) { forall f :: f in findings ==> f.occurrences <= MAX_UINT64 }

  lemma TotalGrows(findings: seq<Finding>, last: Finding, key: string)
    ensures Total(findings, key) <= Total(findings + [last], key)
  {
    TotalSnoc(findings, last, key);
  }

  lemma OverflowStep(front: seq<Finding>, last: Finding)
    requires Aggregate(front).Some? && last.occurrences <= MAX_UINT64
    ensures AddFinding(Aggregate(front).value, last).None? <==> Total(front + [last], GroupKey(last)) > MAX_UINT64
    ensures forall key :: key != GroupKey(last) ==> Total(front + [last], key) == Total(front, key)
  {
    hide GroupKey, Aggregate, Total, Merge;
    TotalSnoc(front, last, GroupKey(last));
    GroupHoldsTotal(front, GroupKey(last));
    forall key | key != GroupKey(last) ensures Total(front + [last], key) == Total(front, key) {
      TotalSnoc(front, last, key);
    }
  }

  /** Redaction fails exactly when the true total of some group does not fit 64 bits. */
  lemma {:induction false} OverflowExact(findings: seq<Finding>)
    requires Counted(findings)
    ensures Aggregate(findings).None? <==> exists key :: Total(findings, key) > MAX_UINT64
  {
    hide GroupKey, AddFinding;
    if findings != [] {
      var front, last := findings[..|findings| - 1], findings[|findings| - 1];
      assert findings == front + [last];
      assert last in findings;
      OverflowExact(front);
      if Aggregate(front).None? {
        var big :| Total(front, big) > MAX_UINT64;
        TotalGrows(front, last, big);
        assert Total(findings, big) > MAX_UINT64;
      } else {
        OverflowStep(front, last);
        if Aggregate(findings).None? {
          assert Total(findings, GroupKey(last)) > MAX_UINT64;
        } else {
          forall key ensures Total(findings, key) <= MAX_UINT64 { assert Total(front, key) <= MAX_UINT64; }
        }
      }
    }
  }

  lemma GroupHoldsTotal(findings: seq<Finding>, key: string)
    requires Aggregate(findings).Some?
    ensures if key in Aggregate(findings).value
            then Aggregate(findings).value[key].occurrences == Total(findings, key)
            else Total(findings, key) == 0
  {
    hide GroupKey, Aggregate;
    AggregateSummarizes(findings);
    if key !in Aggregate(findings).value { NoMemberNoTotal(findings, key); }
  }

  // ----- order -----

  ghost predicate NulFreeDetectors(findings: seq<Finding>) {
    forall f :: f in findings ==> FreeOf(SEPARATOR, f.detectorID)
  }

  lemma KeyNamesGroup(f: Finding, g: Finding)
    requires FreeOf(SEPARATOR, f.detectorID) && FreeOf(SEPARATOR, g.detectorID)
    ensures GroupKey(f) == GroupKey(g) <==> f.detectorID == g.detectorID && CategoryOf(f) == CategoryOf(g)
  {
    if GroupKey(f) == GroupKey(g) {
      var p, q := [SEPARATOR] + CategoryOf(f), [SEPARATOR] + CategoryOf(g);
      assert GroupKey(f) == f.detectorID + p && GroupKey(g) == g.detectorID + q;
      CutIsUnique(SEPARATOR, f.detectorID, g.detectorID, p, q);
      assert p[1..] == CategoryOf(f) && q[1..] == CategoryOf(g);
    }
  }

  lemma {:induction false} TotalConcat(a: seq<Finding>, b: seq<Finding>, key: string)
    ensures Total(a + b, key) == Total(a, key) + Total(b, key)
  {
    if b == [] {
      assert a + b == a;
    } else {
      assert (a + b)[..|a + b| - 1] == a + b[..|b| - 1];
      TotalConcat(a, b[..|b| - 1], key);
    }
  }

  lemma {:induction false} TotalForgetsOrder(a: seq<Finding>, b: seq<Finding>, key: string)
    requires multiset(a) == multiset(b)
    ensures Total(a, key) == Total(b, key)
  {
    hide GroupKey;
    if a == [] {
      assert |b| == |multiset(b)| == 0;
    } else {
      var front, last := a[..|a| - 1], a[|a| - 1];
      assert a == front + [last];
      var j := MatchLast(a, b);
      TotalForgetsOrder(front, b[..j] + b[j + 1..], key);
      TotalConcat(b[..j], b[j + 1..], key);
      TotalConcat(b[..j] + [last], b[j + 1..], key);
      TotalConcat(b[..j], [last], key);
      TotalConcat(front, [last], key);
    }
  }

  lemma SameMembers(a: seq<Finding>, b: seq<Finding>)
    requires multiset(a) == multiset(b)
    ensures forall f :: f in a <==> f in b
  {
    forall f ensures f in a <==> f in b {
      assert f in a <==> f in multiset(a);
      assert f in b <==> f in multiset(b);
    }
  }

  lemma SummaryWithin(a: seq<Finding>, b: seq<Finding>, key: string, r: RedactedFinding, s: RedactedFinding)
    requires Summary(a, key, r) && Summary(b, key, s)
    requires forall f :: f in a <==> f in b
    requires forall f :: f in a ==> f.severity.Valid()
    ensures s.firstSeen <= r.firstSeen && r.lastSeen <= s.lastSeen
    ensures SeverityRank(r.severity) <= SeverityRank(s.severity) && StateRank(r.state) <= StateRank(s.state)
    ensures r.severity.Valid()
  {
    hide GroupKey, CategoryOf, SeverityRank, StateRank, Total;
    assert forall h :: Member(a, key, h) <==> Member(b, key, h);
  }

  /** Findings that share a key have the same detector and category. */
  ghost predicate KeysNameGroups(findings: seq<Finding>) {
    forall f, g :: f in findings && g in findings && GroupKey(f) == GroupKey(g) ==>
      f.detectorID == g.detectorID && CategoryOf(f) == CategoryOf(g)
  }

  lemma NulFreeKeysNameGroups(findings: seq<Finding>)
    requires NulFreeDetectors(findings)
    ensures KeysNameGroups(findings)
  {
    hide GroupKey, CategoryOf;
    forall f, g | f in findings && g in findings && GroupKey(f) == GroupKey(g)
      ensures f.detectorID == g.detectorID && CategoryOf(f) == CategoryOf(g)
    {
      KeyNamesGroup(f, g);
    }
  }

  lemma SummaryNames(a: seq<Finding>, b: seq<Finding>, key: string, r: RedactedFinding, s: RedactedFinding)
    requires Summary(a, key, r) && Summary(b, key, s)
    requires (forall f :: f in a <==> f in b) && KeysNameGroups(a)
    ensures r.detectorID == s.detectorID && r.category == s.category
  {
    hide GroupKey, CategoryOf, SeverityRank, StateRank, Total;
    var f :| Member(a, key, f) && f.detectorID == r.detectorID && CategoryOf(f) == r.category;
    var g :| Member(b, key, g) && g.detectorID == s.detectorID && CategoryOf(g) == s.category;
    assert f in a && g in a;
  }

  /** A group has only one summary, whatever the order of the findings. */
  lemma SummaryIsUnique(a: seq<Finding>, b: seq<Finding>, key: string, r: RedactedFinding, s: RedactedFinding)
    requires multiset(a) == multiset(b) && KeysNameGroups(a)
    requires forall f :: f in a ==> f.severity.Valid()
    requires Summary(a, key, r) && Summary(b, key, s)
    ensures r == s
  {
    hide KeysNameGroups;
    SameMembers(a, b);
    assert r.occurrences == s.occurrences by { TotalForgetsOrder(a, b, key); }
    hide Summary, Total;
    SummaryWithin(a, b, key, r, s);
    SummaryWithin(b, a, key, s, r);
    SummaryNames(a, b, key, r, s);
  }

  /** Redaction forgets the order of findings whose keys name their groups: same groups, or the same
      failure. */
  lemma RedactionForgetsOrder(a: seq<Finding>, b: seq<Finding>)
    requires multiset(a) == multiset(b) && KeysNameGroups(a) && Counted(a)
    requires forall f :: f in a ==> f.severity.Valid()
    ensures Aggregate(a) == Aggregate(b)
  {
    hide Aggregate, Summary, GroupKey, Total, KeysNameGroups;
    SameMembers(a, b);
    OverflowExact(a);
    OverflowExact(b);
    if Aggregate(a).None? {
      var key :| Total(a, key) > MAX_UINT64;
      TotalForgetsOrder(a, b, key);
    }
    if Aggregate(b).None? {
      var key :| Total(b, key) > MAX_UINT64;
      TotalForgetsOrder(a, b, key);
    }
    if Aggregate(a).Some? {
      AggregateSummarizes(a);
      AggregateSummarizes(b);
      var g, h := Aggregate(a).value, Aggregate(b).value;
      GroupsAreInhabited(a, g);
      GroupsAreInhabited(b, h);
      forall key | key in g ensures key in h && g[key] == h[key] {
        SummaryIsUnique(a, b, key, g[key], h[key]);
      }
      assert forall key :: key in h ==> key in g;
      assert g == h;
    }
  }

  lemma GroupsAreInhabited(findings: seq<Finding>, groups: Groups)
    requires Summarizes(findings, groups)
    ensures forall key :: key in groups ==> exists f :: f in findings && GroupKey(f) == key
  {
    hide GroupKey;
    forall key | key in groups ensures exists f :: f in findings && GroupKey(f) == key {
      var f :| Member(findings, key, f) && f.firstSeen == groups[key].firstSeen;
    }
  }

  /** Rows are listed by detector, and rows of one detector by category. */
  lemma RowsByDetectorAndCategory(groups: Groups, rows: seq<RedactedFinding>, i: nat, j: nat)
    requires Lists(groups, rows) && i < j < |rows|
    ensures if rows[i].detectorID == rows[j].detectorID then StrLess(rows[i].category, rows[j].category)
            else StrLess(rows[i].detectorID, rows[j].detectorID)
  {
    assert RowLess()(rows[i], rows[j]);
    StrLessIrreflexive(rows[i].detectorID);
  }

  /** The rows are determined by the groups, however the map was walked. */
  lemma ListingIsUnique(groups: Groups, r: seq<RedactedFinding>, s: seq<RedactedFinding>)
    requires Lists(groups, r) && Lists(groups, s)
    ensures r == s
  {
    hide PairLess;
    ByPairIsStrictOrder(RedactedKeyOf());
    SortedHasNoDuplicates(RowLess(), r);
    SortedHasNoDuplicates(RowLess(), s);
    forall row ensures multiset(r)[row] == multiset(s)[row] {
      assert row in r <==> row in multiset(r);
      assert row in s <==> row in multiset(s);
    }
    assert multiset(r) == multiset(s);
    SortedPermutationIsUnique(RowLess(), r, s);
  }

  lemma {:induction false} SortedHasNoDuplicates<T(!new)>(less: (T, T) -> bool, s: seq<T>)
    requires StrictOrder(less) && StrictlySorted(less, s)
    ensures forall x :: multiset(s)[x] <= 1
  {
    if s != [] {
      var front, last := s[..|s| - 1], s[|s| - 1];
      assert s == front + [last];
      SortedHasNoDuplicates(less, front);
      assert last !in front;
      assert last !in multiset(front);
    }
  }

  // ----- when the order does not matter, exactly -----

  lemma SameFailure(a: seq<Finding>, b: seq<Finding>)
    requires multiset(a) == multiset(b) && Counted(a)
    ensures Aggregate(a).None? <==> Aggregate(b).None?
  {
    hide Aggregate, GroupKey, Total;
    SameMembers(a, b);
    OverflowExact(a);
    OverflowExact(b);
    if Aggregate(a).None? {
      var key :| Total(a, key) > MAX_UINT64;
      TotalForgetsOrder(a, b, key);
    }
    if Aggregate(b).None? {
      var key :| Total(b, key) > MAX_UINT64;
      TotalForgetsOrder(a, b, key);
    }
  }

  /** A group carries the names of the first finding that opened it. */
  lemma {:induction false} FirstNames(f: Finding, rest: seq<Finding>)
    requires Aggregate([f] + rest).Some?
    ensures GroupKey(f) in Aggregate([f] + rest).value
    ensures var row := Aggregate([f] + rest).value[GroupKey(f)];
      row.detectorID == f.detectorID && row.category == CategoryOf(f)
  {
    hide GroupKey, CategoryOf;
    var all := [f] + rest;
    if rest == [] {
      assert all == [f] && [f][..0] == [];
    } else {
      assert all[..|all| - 1] == [f] + rest[..|rest| - 1];
      FirstNames(f, rest[..|rest| - 1]);
    }
  }

  lemma BringToFront(a: seq<Finding>, f: Finding) returns (b: seq<Finding>)
    requires f in a
    ensures multiset([f] + b) == multiset(a)
  {
    var i :| 0 <= i < |a| && a[i] == f;
    assert a == a[..i] + [f] + a[i + 1..];
    b := a[..i] + a[i + 1..];
  }

  ghost predicate OrderForgotten(a: seq<Finding>) {
    forall b: seq<Finding> :: multiset(b) == multiset(a) ==> Aggregate(b) == Aggregate(a)
  }

  lemma AmbiguousKeysShowOrder(a: seq<Finding>, f: Finding, g: Finding)
    requires Counted(a) && Aggregate(a).Some? && f in a && g in a && GroupKey(f) == GroupKey(g)
    requires f.detectorID != g.detectorID || CategoryOf(f) != CategoryOf(g)
    ensures !OrderForgotten(a)
  {
    hide Aggregate, GroupKey, CategoryOf;
    var p := BringToFront(a, f);
    var q := BringToFront(a, g);
    SameFailure(a, [f] + p);
    SameFailure(a, [g] + q);
    FirstNames(f, p);
    FirstNames(g, q);
    assert Aggregate([f] + p) != Aggregate([g] + q);
  }

  /** Redaction gives the same outcome for every order exactly when it fails, or when findings that
      share a key have the same detector and category. */
  lemma OrderForgottenExactly(a: seq<Finding>)
    requires Counted(a) && forall f :: f in a ==> f.severity.Valid()
    ensures OrderForgotten(a) <==> Aggregate(a).None? || KeysNameGroups(a)
  {
    hide Aggregate, GroupKey, CategoryOf;
    if Aggregate(a).None? {
      forall b: seq<Finding> | multiset(b) == multiset(a) ensures Aggregate(b) == Aggregate(a) { SameFailure(a, b); }
    } else if KeysNameGroups(a) {
      forall b: seq<Finding> | multiset(b) == multiset(a) ensures Aggregate(b) == Aggregate(a) {
        RedactionForgetsOrder(a, b);
      }
    } else {
      var f, g :| f in a && g in a && GroupKey(f) == GroupKey(g)
        && !(f.detectorID == g.detectorID && CategoryOf(f) == CategoryOf(g));
      AmbiguousKeysShowOrder(a, f, g);
    }
  }

  /** A finding seen once, with these names. */
  function SeenOnce(id: string, detectorID: string, category: string): Finding {
    Finding(FINDING_SCHEMA, SCHEMA_VERSION, id, detectorID, category, "t", "s", Warn, Open, 0, 0, 0, 1, [], None,
            map[], None, None, None, "e", 1)
  }

  /** Two valid findings of different ids whose names share a key, because of a NUL byte: the order
      decides whose names the row carries. */
  lemma NulMakesOrderMatter()
    ensures var f := SeenOnce("x", "a" + [SEPARATOR] + "b", "c");
            var g := SeenOnce("y", "a", "b" + [SEPARATOR] + "c");
      && f.id != g.id && Reportable(f) && Reportable(g) && GroupKey(f) == GroupKey(g)
      && Aggregate([f, g]).Some? && Aggregate([g, f]).Some? && Aggregate([f, g]) != Aggregate([g, f])
  {
    hide Aggregate, Blank;
    var f := SeenOnce("x", "a" + [SEPARATOR] + "b", "c");
    var g := SeenOnce("y", "a", "b" + [SEPARATOR] + "c");
    assert f.id[0] != g.id[0];
    assert |f.detectorID| == 3 && |g.detectorID| == 1;
    SeenOnceIsReportable("x", f.detectorID, "c");
    SeenOnceIsReportable("y", g.detectorID, g.category);
    PairAggregates(f, g);
    PairAggregates(g, f);
    assert [f, g] == [f] + [g] && [g, f] == [g] + [f];
    FirstNames(f, [g]);
    FirstNames(g, [f]);
  }

  lemma SeenOnceIsReportable(id: string, detectorID: string, category: string)
    requires id != "" && !IsSpace(id[0]) && detectorID != "" && !IsSpace(detectorID[0])
    ensures Reportable(SeenOnce(id, detectorID, category))
  {
    assert id[0] in id && detectorID[0] in detectorID && "t"[0] in "t" && "e"[0] in "e";
  }

  lemma PairAggregates(f: Finding, g: Finding)
    requires f.occurrences == g.occurrences == 1
    ensures Aggregate([f, g]).Some?
  {
    hide GroupKey, CategoryOf;
    assert [f, g][..1] == [f] && [f][..0] == [];
    assert Aggregate([f]) == AddFinding(map[], f);
  }

  // ----- the report -----

  /** What the projection guarantees of every stored finding. */
  predicate Reportable(f: Finding) { ValidFinding(f) && f.firstSeen <= f.lastSeen }

  /** A report of redacted findings is valid exactly when the names, the sizes and the clock allow it:
      the checks for duplicates, for time order, for severities and for empty counts cannot fail. */
  lemma ReportValidity(findings: seq<Finding>, rows: seq<RedactedFinding>, reportedAt: Time, now: Time)
    requires (forall f :: f in findings ==> Reportable(f)) && NulFreeDetectors(findings)
    requires Aggregate(findings).Some? && Lists(Aggregate(findings).value, rows)
    ensures UniqueKeys(rows)
    ensures ValidReport(Report(REPORT_SCHEMA, 1, reportedAt, rows), now) <==>
      && reportedAt != ZERO_TIME && reportedAt <= now + FIVE_MINUTES && |rows| <= MAX_REPORT_FINDINGS
      && forall f :: f in findings ==>
           ValidName(f.detectorID) && ValidName(CategoryOf(f)) && f.lastSeen <= reportedAt + FIVE_MINUTES
  {
    hide Summary, Aggregate, GroupKey, ValidName, Reportable, PairLess, CategoryOf, ValidRedacted, NulFreeDetectors;
    var groups := Aggregate(findings).value;
    AggregateSummarizes(findings);
    SortedKeysAreUnique(rows);
    if forall f :: f in findings ==> FindingFits(f, reportedAt) {
      forall row | row in rows ensures ValidRedacted(row, reportedAt) {
        var key :| key in groups && groups[key] == row;
        SummaryFits(findings, key, row, reportedAt);
      }
    }
    if forall row :: row in rows ==> ValidRedacted(row, reportedAt) {
      forall f | f in findings ensures FindingFits(f, reportedAt) {
        assert groups[GroupKey(f)] in rows;
        FitsBySummary(findings, f, groups[GroupKey(f)], reportedAt);
      }
    }
  }

  ghost predicate FindingFits(f: Finding, reportedAt: Time) {
    ValidName(f.detectorID) && ValidName(CategoryOf(f)) && f.lastSeen <= reportedAt + FIVE_MINUTES
  }

  lemma SortedKeysAreUnique(rows: seq<RedactedFinding>)
    requires StrictlySorted(RowLess(), rows)
    ensures UniqueKeys(rows)
  {
    forall i, j | 0 <= i < j < |rows| ensures RedactedKey(rows[i]) != RedactedKey(rows[j]) {
      assert RowLess()(rows[i], rows[j]);
      StrLessIrreflexive(rows[i].detectorID);
      StrLessIrreflexive(rows[i].category);
    }
  }

  lemma SummaryFits(findings: seq<Finding>, key: string, row: RedactedFinding, reportedAt: Time)
    requires Summary(findings, key, row)
    requires forall f :: f in findings ==> Reportable(f) && FindingFits(f, reportedAt)
    ensures ValidRedacted(row, reportedAt)
  {
    hide GroupKey, ValidName, Blank, CategoryOf;
    var f :| Member(findings, key, f) && f.detectorID == row.detectorID && CategoryOf(f) == row.category;
    MemberCounts(findings, key, f);
  }

  lemma {:induction false} MemberCounts(findings: seq<Finding>, key: string, f: Finding)
    requires Member(findings, key, f)
    ensures Total(findings, key) >= f.occurrences
  {
    hide GroupKey;
    var front, last := findings[..|findings| - 1], findings[|findings| - 1];
    assert findings == front + [last];
    if f in front { MemberCounts(front, key, f); }
  }

  lemma FitsBySummary(findings: seq<Finding>, f: Finding, row: RedactedFinding, reportedAt: Time)
    requires f in findings && NulFreeDetectors(findings)
    requires Summary(findings, GroupKey(f), row) && ValidRedacted(row, reportedAt)
    ensures FindingFits(f, reportedAt)
  {
    hide GroupKey, ValidName, CategoryOf;
    var g :| Member(findings, GroupKey(f), g) && g.detectorID == row.detectorID && CategoryOf(g) == row.category;
    KeyNamesGroup(f, g);
    assert Member(findings, GroupKey(f), f);
  }
}
