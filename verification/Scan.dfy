/** Scan snapshots of internal/bridge/scan.go: validation, the canonical row order and the digest. */
module Scan {
  import opened Ordering
  import opened Instants
  import opened Model

  const SCAN_SCHEMA_VERSION := 1
  const MAX_SCAN_RESULTS := 4096
  const MAX_SCAN_LINE_BYTES := 65_536

  datatype ScanScope = Full | Partial | Composite | OtherScope(text: string)

  /** An address text, with the verdict of `net.ParseIP`. */
  datatype Address = NoAddress | Address(text: string, parses: bool)

  datatype ScanMetadata = ScanMetadata(
    timestamp: Time, updatedAt: Time, version: string, platform: string, source: string,
    scope: ScanScope, exit: int, fda: bool, publicIP: Address)

  datatype CheckStatus =
    | StatusOK | StatusWarn | StatusCritical | StatusSkip | StatusError | OtherStatus(text: string)

  datatype CheckResult = CheckResult(
    category: string, name: string, status: CheckStatus, severity: Severity, summary: string,
    remediation: string, guide: string)

  datatype ScanSnapshot = ScanSnapshot(
    schemaVersion: int, metadata: ScanMetadata, results: seq<CheckResult>)

  // ----- lexical checks -----

  predicate IdentifierChar(c: char) {
    'a' <= c <= 'z' || 'A' <= c <= 'Z' || '0' <= c <= '9' || c == '.' || c == '_' || c == '-'
  }

  predicate ValidIdentifier(value: string) {
    && value != "" && |value| <= 128 && value != "." && value != ".."
    && forall c :: c in value ==> IdentifierChar(c)
  }

  /** `unicode.IsControl`. */
  predicate IsControl(c: char) { c < ' ' || '\U{7F}' <= c <= '\U{9F}' }

  /** Length of the UTF-8 encoding. */
  function ByteLength(s: string): nat {
    if s == "" then 0
    else
      var c := s[|s| - 1];
      ByteLength(s[..|s| - 1])
      + (if c < '\U{80}' then 1 else if c < '\U{800}' then 2 else if c < '\U{10000}' then 3 else 4)
  }

  predicate ValidToken(value: string, maximum: nat) {
    && value != "" && ByteLength(value) <= maximum
    && !IsSpace(value[0]) && !IsSpace(value[|value| - 1])
    && forall c :: c in value ==> !IsControl(c)
  }

  /** The pieces of `s` between separators, as `strings.Split` returns them. */
  function Split(s: string, separator: char): (r: seq<string>)
    ensures |r| >= 1
  {
    if s == "" then [""]
    else
      var rest := Split(s[1..], separator);
      if s[0] == separator then [""] + rest else [[s[0]] + rest[0]] + rest[1..]
  }

  /** A relative slash path that `path.Clean` leaves alone and that climbs nowhere: no segment is
      empty, "." or "..". */
  predicate ValidGuide(value: string) {
    && ByteLength(value) <= 1024 && '\\' !in value
    && (forall part :: part in Split(value, '/') ==> part != "" && part != "." && part != "..")
    && ValidToken(value, 1024)
  }

  predicate SeverityFits(status: CheckStatus, severity: Severity) {
    match status
    case StatusOK => severity == Info
    case StatusSkip => severity == Info
    case StatusWarn => severity == Info || severity == Warn
    case StatusCritical => severity == Critical
    case StatusError => severity == Critical
    case OtherStatus(_) => false
  }

  predicate ValidResult(r: CheckResult) {
    && ValidIdentifier(r.category) && ValidIdentifier(r.name)
    && ValidToken(r.summary, MAX_SCAN_LINE_BYTES)
    && (r.remediation != "" ==> ValidToken(r.remediation, MAX_SCAN_LINE_BYTES))
    && (r.guide != "" ==> ValidGuide(r.guide))
    && SeverityFits(r.status, r.severity)
  }

  function Key(r: CheckResult): (string, string) { (r.category, r.name) }

  predicate DistinctKeys(results: seq<CheckResult>) {
    forall i, j :: 0 <= i < j < |results| ==> Key(results[i]) != Key(results[j])
  }

  function ExitRank(status: CheckStatus): int {
    match status
    case StatusWarn => 1
    case StatusCritical => 2
    case StatusError => 3
    case _ => 0
  }

  function ExpectedExit(results: seq<CheckResult>): int {
    if results == [] then 0
    else
      var front, rank := ExpectedExit(results[..|results| - 1]), ExitRank(results[|results| - 1].status);
      if rank > front then rank else front
  }

  predicate ValidMetadata(m: ScanMetadata) {
    && m.timestamp != ZERO_TIME && m.updatedAt != ZERO_TIME && m.timestamp <= m.updatedAt
    && ValidToken(m.version, 64) && ValidIdentifier(m.platform) && ValidIdentifier(m.source)
    && !m.scope.OtherScope? && 0 <= m.exit <= 3
    && (m.publicIP.Address? ==> m.publicIP.parses)
  }

  predicate ValidSnapshot(s: ScanSnapshot) {
    && s.schemaVersion == SCAN_SCHEMA_VERSION
    && ValidMetadata(s.metadata)
    && 0 < |s.results| <= MAX_SCAN_RESULTS
    && (forall r :: r in s.results ==> ValidResult(r))
    && DistinctKeys(s.results)
    && s.metadata.exit == ExpectedExit(s.results)
  }

  /** The loop of `validateExit`. */
  method ValidateExit(s: ScanSnapshot) returns (ok: bool)
    ensures ok == (s.metadata.exit == ExpectedExit(s.results))
  {
    var expected := 0;
    for i := 0 to |s.results|
      invariant expected == ExpectedExit(s.results[..i])
    {
      assert s.results[..i + 1][..i] == s.results[..i];
      match s.results[i].status {
        case StatusWarn => if expected < 1 { expected := 1; }
        case StatusCritical => if expected < 2 { expected := 2; }
        case StatusError =>
          ExpectedExitIsMaximum(s.results[..i]);
          expected := 3;
        case _ => ExpectedExitIsMaximum(s.results[..i]);
      }
    }
    assert s.results[..|s.results|] == s.results;
    ok := s.metadata.exit == expected;
  }

  /** The expected exit is the highest rank of any row, and 0 for none. */
  lemma {:induction false} ExpectedExitIsMaximum(results: seq<CheckResult>)
    ensures 0 <= ExpectedExit(results) <= 3
    ensures forall r :: r in results ==> ExitRank(r.status) <= ExpectedExit(results)
    ensures ExpectedExit(results) > 0 ==>
      exists r :: r in results && ExitRank(r.status) == ExpectedExit(results)
  {
    if results != [] {
      var front, last := results[..|results| - 1], results[|results| - 1];
      ExpectedExitIsMaximum(front);
      assert results == front + [last];
      if ExitRank(last.status) > ExpectedExit(front) {
        assert last in results;
      } else if ExpectedExit(front) > 0 {
        var r :| r in front && ExitRank(r.status) == ExpectedExit(front);
        assert r in results;
      }
    }
  }

  /** 3 if any row is an error, else 2 if any is critical, else 1 if any warns, else 0. */
  lemma ExpectedExitMeans(results: seq<CheckResult>)
    ensures ExpectedExit(results) ==
      if exists r :: r in results && r.status == StatusError then 3
      else if exists r :: r in results && r.status == StatusCritical then 2
      else if exists r :: r in results && r.status == StatusWarn then 1
      else 0
  {
    ExpectedExitIsMaximum(results);
  }

  lemma ExpectedExitForgetsOrder(a: seq<CheckResult>, b: seq<CheckResult>)
    requires multiset(a) == multiset(b)
    ensures ExpectedExit(a) == ExpectedExit(b)
  {
    ExpectedExitIsMaximum(a);
    ExpectedExitIsMaximum(b);
    assert forall r :: r in a <==> r in multiset(a);
    assert forall r :: r in b <==> r in multiset(b);
  }

  // ----- canonical order -----

  function KeyOf(): CheckResult -> (string, string) { (r: CheckResult) => Key(r) }

  function ResultLess(): (CheckResult, CheckResult) -> bool { ByPair(KeyOf()) }

  function SortResults(results: seq<CheckResult>): seq<CheckResult> { Sort(ResultLess(), results) }

  /** `now` is `was` with the row at `index` moved left to `position`. */
  ghost predicate MovedLeft(was: seq<CheckResult>, now: seq<CheckResult>, position: nat, index: nat) {
    && position <= index < |was| == |now| && now[position] == was[index]
    && (forall k :: 0 <= k < position ==> now[k] == was[k])
    && (forall k :: position < k <= index ==> now[k] == was[k - 1])
    && (forall k :: index < k < |was| ==> now[k] == was[k])
  }

  lemma MovesOn(was: seq<CheckResult>, now: seq<CheckResult>, position: nat, index: nat)
    requires 0 < position <= index < |was| == |now| && MovedLeft(was, now[position := was[index]], position, index)
    ensures now[position - 1] == was[position - 1]
    ensures MovedLeft(was, now[position := now[position - 1]][position - 1 := was[index]], position - 1, index)
  {
    var a, b := now[position := was[index]], now[position := now[position - 1]][position - 1 := was[index]];
    assert a[position - 1] == now[position - 1];
    assert forall k :: 0 <= k < |now| && k != position && k != position - 1 ==> b[k] == a[k];
  }

  lemma MovedIsInserted(was: seq<CheckResult>, now: seq<CheckResult>, position: nat, index: nat)
    requires MovedLeft(was, now, position, index)
    requires position > 0 ==> !ResultLess()(was[index], was[position - 1])
    requires forall k :: position <= k < index ==> ResultLess()(was[index], was[k])
    ensures now[..index + 1] == Insert(ResultLess(), was[..index], was[index])
    ensures now[index + 1..] == was[index + 1..]
  {
    hide Insert, ResultLess;
    var sorted := was[..index];
    assert now[..index + 1] == sorted[..position] + [was[index]] + sorted[position..];
    InsertAt(ResultLess(), sorted, was[index], position);
  }

  /** The inner loop of `sortResults`: the row at `index` moves left past every greater one. */
  method InsertRow(results: array<CheckResult>, index: nat)
    requires index < results.Length
    modifies results
    ensures results[..index + 1] == Insert(ResultLess(), old(results[..index]), old(results[index]))
    ensures results[index + 1..] == old(results[index + 1..])
  {
    hide Insert, ResultLess;
    ghost var was := results[..];
    var current := results[index];
    var position := index;
    while position > 0 && ResultLess()(current, results[position - 1])
      invariant 0 <= position <= index
      invariant MovedLeft(was, results[..][position := current], position, index)
      invariant forall k :: position <= k < index ==> ResultLess()(current, was[k])
    {
      ghost var before := results[..];
      MovesOn(was, before, position, index);
      results[position] := results[position - 1];
      assert results[..] == before[position := before[position - 1]];
      position := position - 1;
    }
    assert position > 0 ==> results[..][position := current][position - 1] == was[position - 1];
    results[position] := current;
    MovedIsInserted(was, results[..], position, index);
  }

  /** The insertion sort of `sortResults`, in place. */
  method SortResultsInPlace(results: array<CheckResult>)
    modifies results
    ensures results[..] == SortResults(old(results[..]))
  {
    hide Insert, Sort, ByPair;
    ghost var before := results[..];
    if results.Length == 0 {
      SortSmall(ResultLess(), before);
      return;
    }
    SortSmall(ResultLess(), before[..1]);
    for index := 1 to results.Length
      invariant results[..index] == Sort(ResultLess(), before[..index])
      invariant results[index..] == before[index..]
    {
      assert results[index] == results[index..][0] == before[index];
      InsertRow(results, index);
      SortSnoc(ResultLess(), before[..index], before[index]);
      assert before[..index + 1] == before[..index] + [before[index]];
      assert before[index + 1..] == before[index..][1..];
    }
    assert results[..] == results[..results.Length] && before[..results.Length] == before;
  }

  lemma SortSmall<T>(less: (T, T) -> bool, s: seq<T>)
    requires |s| <= 1
    ensures Sort(less, s) == s
  {
  }

  lemma SortSnoc<T>(less: (T, T) -> bool, s: seq<T>, x: T)
    ensures Sort(less, s + [x]) == Insert(less, Sort(less, s), x)
  {
    assert (s + [x])[..|s|] == s;
  }

  /** The element lands right after the last one it is not below. */
  lemma {:induction false} InsertAt<T>(less: (T, T) -> bool, s: seq<T>, x: T, position: nat)
    requires position <= |s|
    requires position > 0 ==> !less(x, s[position - 1])
    requires forall k :: position <= k < |s| ==> less(x, s[k])
    ensures Insert(less, s, x) == s[..position] + [x] + s[position..]
  {
    if position < |s| {
      var front := s[..|s| - 1];
      InsertAt(less, front, x, position);
      assert front[..position] == s[..position];
      assert front[position..] + [s[|s| - 1]] == s[position..];
    } else {
      assert s[..position] == s && s[position..] == [];
    }
  }

  lemma KeysDistinguish(results: seq<CheckResult>)
    requires DistinctKeys(results)
    ensures Distinguished(ResultLess(), results)
  {
    forall i, j | 0 <= i < j < |results|
      ensures ResultLess()(results[i], results[j]) || ResultLess()(results[j], results[i])
    {
      PairLessTotal(Key(results[i]), Key(results[j]));
    }
  }

  /** `sortResults` returns the strictly sorted permutation of the rows. */
  lemma SortResultsSorts(results: seq<CheckResult>)
    requires DistinctKeys(results)
    ensures multiset(SortResults(results)) == multiset(results)
    ensures StrictlySorted(ResultLess(), SortResults(results))
    ensures DistinctKeys(SortResults(results))
  {
    ByPairIsStrictOrder(KeyOf());
    KeysDistinguish(results);
    SortPermutes(ResultLess(), results);
    SortIsSorted(ResultLess(), results);
    var sorted := SortResults(results);
    forall i, j | 0 <= i < j < |sorted| ensures Key(sorted[i]) != Key(sorted[j]) {
      assert ResultLess()(sorted[i], sorted[j]);
      StrLessIrreflexive(Key(sorted[i]).0);
      StrLessIrreflexive(Key(sorted[i]).1);
    }
  }

  /** Rows are listed by category, and rows of one category by name. */
  lemma RowsByCategoryAndName(results: seq<CheckResult>, i: nat, j: nat)
    requires DistinctKeys(results) && i < j < |SortResults(results)|
    ensures var a, b := SortResults(results)[i], SortResults(results)[j];
      if a.category == b.category then StrLess(a.name, b.name) else StrLess(a.category, b.category)
  {
    SortResultsSorts(results);
    assert ResultLess()(SortResults(results)[i], SortResults(results)[j]);
    StrLessIrreflexive(SortResults(results)[i].category);
  }

  /** Two snapshots with the same rows in possibly different order. */
  predicate SameUpToRowOrder(a: ScanSnapshot, b: ScanSnapshot) {
    a.schemaVersion == b.schemaVersion && a.metadata == b.metadata && multiset(a.results) == multiset(b.results)
  }

  function Canonical(s: ScanSnapshot): ScanSnapshot { s.(results := SortResults(s.results)) }

  /** Sorting the rows identifies exactly the snapshots that differ only in row order. */
  lemma CanonicalIdentity(a: ScanSnapshot, b: ScanSnapshot)
    requires ValidSnapshot(a) && ValidSnapshot(b)
    ensures Canonical(a) == Canonical(b) <==> SameUpToRowOrder(a, b)
  {
    SortResultsSorts(a.results);
    SortResultsSorts(b.results);
    if SameUpToRowOrder(a, b) {
      ByPairIsStrictOrder(KeyOf());
      SortedPermutationIsUnique(ResultLess(), SortResults(a.results), SortResults(b.results));
    }
  }

  /** `SnapshotDigest`, for a digest of the encoded canonical snapshot. */
  function SnapshotDigest(digest: ScanSnapshot -> string, s: ScanSnapshot): Option<string> {
    if ValidSnapshot(s) then Some(digest(Canonical(s))) else None
  }

  ghost predicate InjectiveDigest(digest: ScanSnapshot -> string) {
    forall a, b :: digest(a) == digest(b) ==> a == b
  }

  /** Under a collision-free digest, valid snapshots share a digest exactly when they differ only in
      row order. */
  lemma DigestIdentity(digest: ScanSnapshot -> string, a: ScanSnapshot, b: ScanSnapshot)
    requires InjectiveDigest(digest) && ValidSnapshot(a) && ValidSnapshot(b)
    ensures SnapshotDigest(digest, a) == SnapshotDigest(digest, b) <==> SameUpToRowOrder(a, b)
  {
    CanonicalIdentity(a, b);
  }

  /** Row order is not part of validity. */
  lemma ValidityForgetsOrder(a: ScanSnapshot, b: ScanSnapshot)
    requires SameUpToRowOrder(a, b) && ValidSnapshot(a)
    ensures ValidSnapshot(b)
  {
    ExpectedExitForgetsOrder(a.results, b.results);
    assert forall r :: r in a.results <==> r in multiset(a.results);
    assert forall r :: r in b.results <==> r in multiset(b.results);
    assert |a.results| == |multiset(a.results)| && |b.results| == |multiset(b.results)|;
    DistinctKeysForgetOrder(a.results, b.results);
  }

  lemma DistinctKeysForgetOrder(a: seq<CheckResult>, b: seq<CheckResult>)
    requires multiset(a) == multiset(b) && DistinctKeys(a)
    ensures DistinctKeys(b)
  {
    DistinctForgetsOrder(KeyOf(), a, b);
  }
}
