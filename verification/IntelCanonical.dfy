/** The canonical form of an intelligence bundle: internal/intel/contract.go and canonical.go. */
module IntelCanonical {
  import opened Ordering
  import opened Model
  import opened Scan

  // ----- records -----

  datatype RecordType = MaliciousSHA256 | RevokedSigner | VulnerablePackage | SecretPattern | OtherType(text: string)

  function TypeText(t: RecordType): string {
    match t
    case MaliciousSHA256 => "malicious_sha256"
    case RevokedSigner => "revoked_signer"
    case VulnerablePackage => "vulnerable_package"
    case SecretPattern => "secret_detector_pattern"
    case OtherType(text) => text
  }

  datatype SignerKind = SignerID | TeamID | OtherKind(text: string)

  function KindText(k: SignerKind): string {
    match k
    case SignerID => "signer_id"
    case TeamID => "team_id"
    case OtherKind(text) => text
  }

  datatype Operator = Eq | Lt | Lte | Gt | Gte | OtherOperator(text: string)

  function OperatorText(o: Operator): string {
    match o
    case Eq => "eq"
    case Lt => "lt"
    case Lte => "lte"
    case Gt => "gt"
    case Gte => "gte"
    case OtherOperator(text) => text
  }

  datatype Constraint = Constraint(operator: Operator, version: string)
  datatype Signer = Signer(kind: SignerKind, identifier: string)
  datatype Package = Package(ecosystem: string, name: string, constraints: seq<Constraint>)
  datatype Pattern = Pattern(detectorID: string, pattern: string)

  /** A tagged union with one optional payload per type; more or fewer than one may be present. */
  datatype Record = Record(
    kind: RecordType, hash: Option<string>, signer: Option<Signer>, package: Option<Package>,
    pattern: Option<Pattern>)

  datatype Limits = Limits(maxBundleBytes: int, maxRecords: int, maxRecordBytes: int, maxPatternBytes: int)

  const DEFAULT_LIMITS := Limits(0x40_0000, 10_000, 0x2000, 0x400)

  /** All zero stands for the defaults. */
  function NormalizeLimits(l: Limits): Option<Limits> {
    var m := if l == Limits(0, 0, 0, 0) then DEFAULT_LIMITS else l;
    if m.maxBundleBytes <= 0 || m.maxRecords <= 0 || m.maxRecordBytes <= 0 || m.maxPatternBytes <= 0
       || m.maxPatternBytes > m.maxRecordBytes
    then None else Some(m)
  }

  /** The regular-expression engine and the encoded size of a record. */
  datatype Rules = Rules(compiles: string -> bool, matchesEmpty: string -> bool, recordBytes: Record -> nat)

  // ----- alphabets -----

  predicate AlphaNumeric(c: char) { 'a' <= c <= 'z' || 'A' <= c <= 'Z' || '0' <= c <= '9' }

  predicate SafeIdentifier(s: string) {
    s != "" && AlphaNumeric(s[0]) && forall c :: c in s ==> AlphaNumeric(c) || c in "._:-"
  }

  predicate SafePackage(s: string) {
    && s != "" && (AlphaNumeric(s[0]) || s[0] == '@')
    && forall c :: c in s ==> AlphaNumeric(c) || c in "@+._:/~-"
  }

  predicate SafeVersion(s: string) {
    s != "" && AlphaNumeric(s[0]) && forall c :: c in s ==> AlphaNumeric(c) || c in "+._:~-"
  }

  predicate Sha256Text(s: string) { |s| == 64 && forall c :: c in s ==> '0' <= c <= '9' || 'a' <= c <= 'f' }

  predicate TeamIDText(s: string) { |s| == 10 && forall c :: c in s ==> 'A' <= c <= 'Z' || '0' <= c <= '9' }

  predicate BoundedIdentifier(s: string, limit: nat) { SafeIdentifier(s) && |s| <= limit }

  predicate DotDot(s: string) { exists i :: 0 <= i < |s| - 1 && s[i] == '.' && s[i + 1] == '.' }

  predicate UnsafeControl(s: string) { exists c :: c in s && (c < ' ' || c == '\U{7F}') }

  /** `unicode.ToLower`, as far as it lands in ASCII: other letters stay outside the alphabets above
      in either case. */
  function LowerChar(c: char): char {
    if 'A' <= c <= 'Z' then c + 32 as char
    else if c == '\U{212A}' then 'k'
    else if c == '\U{130}' then 'i'
    else c
  }

  function ToLower(s: string): string { seq(|s|, i requires 0 <= i < |s| => LowerChar(s[i])) }

  // ----- one record -----

  function ConstraintKey(c: Constraint): string { OperatorText(c.operator) + ":" + c.version }

  function ConstraintKeyOf(): Constraint -> string { (c: Constraint) => ConstraintKey(c) }

  function SortConstraints(s: seq<Constraint>): seq<Constraint> { Sort(ByKey(ConstraintKeyOf()), s) }

  predicate ValidConstraints(s: seq<Constraint>) {
    && 0 < |s| <= 16
    && (forall c :: c in s ==> !c.operator.OtherOperator? && SafeVersion(c.version) && |c.version| <= 128)
    && (forall i, j :: 0 <= i < j < |s| ==> ConstraintKey(s[i]) != ConstraintKey(s[j]))
  }

  function PayloadCount(r: Record): nat {
    (if r.hash.Some? then 1 else 0) + (if r.signer.Some? then 1 else 0)
    + (if r.package.Some? then 1 else 0) + (if r.pattern.Some? then 1 else 0)
  }

  /** A record in canonical form and the key it may not share with another. */
  datatype Normal = Normal(record: Record, identity: string)

  function NormalHash(text: string): Option<Normal> {
    var hash := ToLower(text);
    if !Sha256Text(hash) then None
    else Some(Normal(Record(MaliciousSHA256, Some(hash), None, None, None), TypeText(MaliciousSHA256) + ":" + hash))
  }

  function NormalSigner(s: Signer): Option<Normal> {
    if s.kind.OtherKind? || (s.kind.TeamID? && !TeamIDText(s.identifier))
       || (s.kind.SignerID? && !BoundedIdentifier(s.identifier, 128))
    then None
    else Some(Normal(Record(RevokedSigner, None, Some(s), None, None),
                     TypeText(RevokedSigner) + ":" + KindText(s.kind) + ":" + s.identifier))
  }

  function NormalPackage(p: Package): Option<Normal> {
    var ecosystem := ToLower(p.ecosystem);
    if !BoundedIdentifier(ecosystem, 32) || !SafePackage(p.name) || |p.name| > 256 || DotDot(p.name)
       || !ValidConstraints(p.constraints)
    then None
    else
      var package := Package(ecosystem, p.name, SortConstraints(p.constraints));
      Some(Normal(Record(VulnerablePackage, None, None, Some(package), None),
                  TypeText(VulnerablePackage) + ":" + ecosystem + ":" + p.name))
  }

  function NormalPattern(rules: Rules, limits: Limits, p: Pattern): Option<Normal> {
    if !BoundedIdentifier(p.detectorID, 128)
       || p.pattern == "" || ByteLength(p.pattern) > limits.maxPatternBytes || UnsafeControl(p.pattern)
       || !rules.compiles(p.pattern) || rules.matchesEmpty(p.pattern)
    then None
    else Some(Normal(Record(SecretPattern, None, None, None, Some(p)), TypeText(SecretPattern) + ":" + p.detectorID))
  }

  function NormalPayload(rules: Rules, limits: Limits, r: Record): Option<Normal> {
    match r.kind
    case MaliciousSHA256 => if r.hash.None? then None else NormalHash(r.hash.value)
    case RevokedSigner => if r.signer.None? then None else NormalSigner(r.signer.value)
    case VulnerablePackage => if r.package.None? then None else NormalPackage(r.package.value)
    case SecretPattern => if r.pattern.None? then None else NormalPattern(rules, limits, r.pattern.value)
    case OtherType(_) => None
  }

  function CanonicalRecord(rules: Rules, limits: Limits, r: Record): Option<Normal> {
    if PayloadCount(r) != 1 then None
    else
      var normal := NormalPayload(rules, limits, r);
      if normal.None? || rules.recordBytes(normal.value.record) > limits.maxRecordBytes then None else normal
  }

  /** `recordSortKey`; an absent payload, which canonical records do not have, gives "". */
  function SortKey(r: Record): string {
    match r.kind
    case MaliciousSHA256 =>
      (match r.hash case Some(hash) => TypeText(r.kind) + ":" + hash case None => "")
    case RevokedSigner =>
      (match r.signer case Some(s) => TypeText(r.kind) + ":" + KindText(s.kind) + ":" + s.identifier case None => "")
    case VulnerablePackage =>
      (match r.package case Some(p) => TypeText(r.kind) + ":" + p.ecosystem + ":" + p.name case None => "")
    case SecretPattern =>
      (match r.pattern case Some(p) => TypeText(r.kind) + ":" + p.detectorID case None => "")
    case OtherType(text) => text
  }

  lemma {:induction false} IdentityIsSortKey(rules: Rules, limits: Limits, r: Record)
    requires CanonicalRecord(rules, limits, r).Some?
    ensures var n := CanonicalRecord(rules, limits, r).value; n.identity == SortKey(n.record)
  {
    hide Sha256Text, TeamIDText, BoundedIdentifier, SafePackage, DotDot, ValidConstraints, UnsafeControl;
  }

  lemma LowerIsStable(s: string)
    ensures ToLower(ToLower(s)) == ToLower(s)
  {
  }

  lemma ConstraintKeysDistinguish(s: seq<Constraint>)
    requires forall i, j :: 0 <= i < j < |s| ==> ConstraintKey(s[i]) != ConstraintKey(s[j])
    ensures Distinguished(ByKey(ConstraintKeyOf()), s)
  {
    hide ConstraintKey, StrLess;
    forall i, j | 0 <= i < j < |s|
      ensures ByKey(ConstraintKeyOf())(s[i], s[j]) || ByKey(ConstraintKeyOf())(s[j], s[i])
    {
      StrLessTotal(ConstraintKey(s[i]), ConstraintKey(s[j]));
    }
  }

  /** Sorting keeps valid constraints valid, and a second sort does nothing. */
  lemma SortedConstraints(s: seq<Constraint>)
    requires ValidConstraints(s)
    ensures ValidConstraints(SortConstraints(s))
    ensures SortConstraints(SortConstraints(s)) == SortConstraints(s)
  {
    hide ConstraintKey, StrLess, SafeVersion, Sort;
    var less, sorted := ByKey(ConstraintKeyOf()), SortConstraints(s);
    ByKeyIsStrictOrder(ConstraintKeyOf());
    ConstraintKeysDistinguish(s);
    SortIsSorted(less, s);
    SortPermutes(less, s);
    SortKeepsMembers(less, s);
    SortOfSorted(less, sorted);
    forall i, j | 0 <= i < j < |sorted| ensures ConstraintKey(sorted[i]) != ConstraintKey(sorted[j]) {
      assert less(sorted[i], sorted[j]);
      StrLessIrreflexive(ConstraintKey(sorted[i]));
    }
  }

  lemma PackageIsStable(p: Package)
    requires NormalPackage(p).Some?
    ensures NormalPackage(NormalPackage(p).value.record.package.value) == NormalPackage(p)
  {
    hide SafePackage, DotDot, ValidConstraints, SafeIdentifier, SortConstraints, ToLower;
    LowerIsStable(p.ecosystem);
    SortedConstraints(p.constraints);
  }

  lemma HashIsStable(text: string)
    requires NormalHash(text).Some?
    ensures NormalHash(NormalHash(text).value.record.hash.value) == NormalHash(text)
  {
    hide Sha256Text, ToLower;
    LowerIsStable(text);
  }

  /** A canonical record is its own canonical form. */
  lemma CanonicalRecordIsStable(rules: Rules, limits: Limits, r: Record)
    requires CanonicalRecord(rules, limits, r).Some?
    ensures CanonicalRecord(rules, limits, CanonicalRecord(rules, limits, r).value.record)
         == CanonicalRecord(rules, limits, r)
  {
    hide NormalHash, NormalPackage, BoundedIdentifier, TeamIDText, UnsafeControl, ByteLength, TypeText;
    NormalKinds(rules, limits, r);
    match r.kind {
      case MaliciousSHA256 => HashIsStable(r.hash.value);
      case VulnerablePackage => PackageIsStable(r.package.value);
      case _ =>
    }
  }

  lemma NormalKinds(rules: Rules, limits: Limits, r: Record)
    ensures forall text :: NormalHash(text).Some? ==>
      var n := NormalHash(text).value.record; n.kind == MaliciousSHA256 && n.hash.Some? && PayloadCount(n) == 1
    ensures forall p :: NormalPackage(p).Some? ==>
      var n := NormalPackage(p).value.record; n.kind == VulnerablePackage && n.package.Some? && PayloadCount(n) == 1
  {
    hide Sha256Text, ToLower, BoundedIdentifier, SafePackage, DotDot, ValidConstraints, TypeText, SortConstraints;
  }

  // ----- all records -----

  datatype IntelError =
    | InvalidLimits | BundleTooLarge | TooManyRecords | InvalidBundle | InvalidRecord(index: nat)
    | DuplicateRecord(index: nat) | InvalidEncoding | NonCanonical | PayloadHashMismatch | UnknownKey
    | InvalidSignature | NotYetValid | Expired | AgentSchemaTooLow | RolledBack | SequenceConflict

  function SortKeyOf(): Record -> string { (r: Record) => SortKey(r) }

  function BySortKey(): (Record, Record) -> bool { ByKey(SortKeyOf()) }

  function Keys(records: seq<Record>): set<string> { set r | r in records :: SortKey(r) }

  /** The canonical records in input order, or the first record that is invalid or repeats a key. */
  function Collect(rules: Rules, limits: Limits, records: seq<Record>): Result<seq<Record>, IntelError> {
    if records == [] then Ok([])
    else
      var n := |records| - 1;
      match Collect(rules, limits, records[..n])
      case Err(error) => Err(error)
      case Ok(done) =>
        match CanonicalRecord(rules, limits, records[n])
        case None => Err(InvalidRecord(n))
        case Some(normal) =>
          if SortKey(normal.record) in Keys(done) then Err(DuplicateRecord(n)) else Ok(done + [normal.record])
  }

  function CanonicalRecords(rules: Rules, limits: Limits, records: seq<Record>): Result<seq<Record>, IntelError> {
    match Collect(rules, limits, records)
    case Err(error) => Err(error)
    case Ok(done) => Ok(Sort(BySortKey(), done))
  }

  lemma {:induction false} CollectStops(rules: Rules, limits: Limits, records: seq<Record>, n: nat)
    requires n <= |records| && Collect(rules, limits, records[..n]).Err?
    ensures Collect(rules, limits, records) == Collect(rules, limits, records[..n])
  {
    hide CanonicalRecord;
    if n < |records| {
      var m := |records| - 1;
      assert records[..m][..n] == records[..n];
      CollectStops(rules, limits, records[..m], n);
    } else {
      assert records[..n] == records;
    }
  }

  /** The loop of `canonicalRecords`, with its map of identities. */
  method CollectRecords(rules: Rules, limits: Limits, records: seq<Record>)
    returns (r: Result<seq<Record>, IntelError>)
    ensures r == CanonicalRecords(rules, limits, records)
  {
    hide CanonicalRecord, SortKey, Sort;
    var canonical: seq<Record> := [];
    var duplicates: set<string> := {};
    for i := 0 to |records|
      invariant Collect(rules, limits, records[..i]) == Ok(canonical)
      invariant duplicates == Keys(canonical)
    {
      assert records[..i + 1][..i] == records[..i];
      var normal := CanonicalRecord(rules, limits, records[i]);
      if normal.None? {
        CollectStops(rules, limits, records, i + 1);
        return Err(InvalidRecord(i));
      }
      IdentityIsSortKey(rules, limits, records[i]);
      if normal.value.identity in duplicates {
        CollectStops(rules, limits, records, i + 1);
        return Err(DuplicateRecord(i));
      }
      KeysSnoc(canonical, normal.value.record);
      duplicates := duplicates + {normal.value.identity};
      canonical := canonical + [normal.value.record];
    }
    assert records[..|records|] == records;
    return Ok(Sort(BySortKey(), canonical));
  }

  lemma KeysSnoc(records: seq<Record>, r: Record)
    ensures Keys(records + [r]) == Keys(records) + {SortKey(r)}
  {
    hide SortKey;
    forall key | key in Keys(records) + {SortKey(r)} ensures key in Keys(records + [r]) {
      if key in Keys(records) {
        var x :| x in records && SortKey(x) == key;
        assert x in records + [r];
      } else {
        assert r in records + [r];
      }
    }
  }

  // ----- unique keys and idempotence -----

  ghost predicate UniqueKeys(records: seq<Record>) {
    forall i, j :: 0 <= i < j < |records| ==> SortKey(records[i]) != SortKey(records[j])
  }

  ghost predicate Stable(rules: Rules, limits: Limits, records: seq<Record>) {
    forall r :: r in records ==>
      CanonicalRecord(rules, limits, r).Some? && CanonicalRecord(rules, limits, r).value.record == r
  }

  /** What collecting yields, exactly: it succeeds when every record has a canonical form and no two
      forms share a key, and then lists those forms. */
  lemma {:induction false} CollectExact(rules: Rules, limits: Limits, records: seq<Record>)
    ensures Collect(rules, limits, records).Ok? <==> Collectable(rules, limits, records)
    ensures Collect(rules, limits, records).Ok? ==> Collect(rules, limits, records).value == Forms(rules, limits, records)
  {
    hide CanonicalRecord, SortKey;
    if records != [] {
      var front, last := records[..|records| - 1], records[|records| - 1];
      assert records == front + [last];
      CollectExact(rules, limits, front);
      if Collectable(rules, limits, front) && CanonicalRecord(rules, limits, last).Some? {
        var forms, form := Forms(rules, limits, front), CanonicalRecord(rules, limits, last).value.record;
        assert Forms(rules, limits, records) == forms + [form];
        UniqueSnoc(forms, form);
      } else if Collectable(rules, limits, records) {
        FrontCollects(rules, limits, front, last);
      }
    }
  }

  ghost predicate Collectable(rules: Rules, limits: Limits, records: seq<Record>) {
    && (forall r :: r in records ==> CanonicalRecord(rules, limits, r).Some?)
    && UniqueKeys(Forms(rules, limits, records))
  }

  /** The canonical form of each record (itself, where there is none). */
  ghost function Form(rules: Rules, limits: Limits, r: Record): Record {
    var normal := CanonicalRecord(rules, limits, r);
    if normal.Some? then normal.value.record else r
  }

  ghost function Forms(rules: Rules, limits: Limits, records: seq<Record>): seq<Record> {
    seq(|records|, i requires 0 <= i < |records| => Form(rules, limits, records[i]))
  }

  lemma UniqueSnoc(forms: seq<Record>, form: Record)
    requires UniqueKeys(forms)
    ensures UniqueKeys(forms + [form]) <==> SortKey(form) !in Keys(forms)
  {
    hide SortKey;
    var all := forms + [form];
    if SortKey(form) in Keys(forms) {
      var x :| x in forms && SortKey(x) == SortKey(form);
      var i :| 0 <= i < |forms| && forms[i] == x;
      assert SortKey(all[i]) == SortKey(all[|forms|]);
    } else {
      forall i, j | 0 <= i < j < |all| ensures SortKey(all[i]) != SortKey(all[j]) {
        if j == |forms| { assert forms[i] in forms; }
      }
    }
  }

  lemma FrontCollects(rules: Rules, limits: Limits, front: seq<Record>, last: Record)
    requires Collectable(rules, limits, front + [last])
    ensures Collectable(rules, limits, front)
  {
    hide CanonicalRecord, SortKey;
    var all := Forms(rules, limits, front + [last]);
    var forms := Forms(rules, limits, front);
    assert forall i :: 0 <= i < |front| ==> all[i] == forms[i];
    forall i, j | 0 <= i < j < |forms| ensures SortKey(forms[i]) != SortKey(forms[j]) {
      assert SortKey(all[i]) != SortKey(all[j]);
    }
  }

  lemma SortKeysDistinguish(records: seq<Record>)
    requires UniqueKeys(records)
    ensures Distinguished(BySortKey(), records)
  {
    hide SortKey, StrLess;
    forall i, j | 0 <= i < j < |records|
      ensures BySortKey()(records[i], records[j]) || BySortKey()(records[j], records[i])
    {
      StrLessTotal(SortKey(records[i]), SortKey(records[j]));
    }
  }

  /** Canonical records come strictly sorted by key, hence with unique keys, and are each in canonical
      form. */
  lemma CanonicalRecordsAreSorted(rules: Rules, limits: Limits, records: seq<Record>)
    requires CanonicalRecords(rules, limits, records).Ok?
    ensures var c := CanonicalRecords(rules, limits, records).value;
      StrictlySorted(BySortKey(), c) && UniqueKeys(c) && Stable(rules, limits, c) && |c| == |records|
  {
    hide CanonicalRecord, SortKey, StrLess, Sort;
    CollectExact(rules, limits, records);
    var done := Collect(rules, limits, records).value;
    SortKeysDistinguish(done);
    ByKeyIsStrictOrder(SortKeyOf());
    SortIsSorted(BySortKey(), done);
    SortPermutes(BySortKey(), done);
    SortKeepsMembers(BySortKey(), done);
    var c := Sort(BySortKey(), done);
    forall i, j | 0 <= i < j < |c| ensures SortKey(c[i]) != SortKey(c[j]) {
      assert BySortKey()(c[i], c[j]);
      StrLessIrreflexive(SortKey(c[i]));
    }
    forall r | r in c
      ensures CanonicalRecord(rules, limits, r).Some? && CanonicalRecord(rules, limits, r).value.record == r
    {
      var i :| 0 <= i < |done| && done[i] == r;
      assert r == Form(rules, limits, records[i]);
      CanonicalRecordIsStable(rules, limits, records[i]);
    }
  }

  /** Canonical records are their own canonical form. */
  lemma CanonicalRecordsAreStable(rules: Rules, limits: Limits, records: seq<Record>)
    requires CanonicalRecords(rules, limits, records).Ok?
    ensures CanonicalRecords(rules, limits, CanonicalRecords(rules, limits, records).value)
         == CanonicalRecords(rules, limits, records)
  {
    hide CanonicalRecord, SortKey, Sort;
    CanonicalRecordsAreSorted(rules, limits, records);
    var c := CanonicalRecords(rules, limits, records).value;
    ByKeyIsStrictOrder(SortKeyOf());
    SortOfSorted(BySortKey(), c);
    assert Forms(rules, limits, c) == c;
    CollectExact(rules, limits, c);
  }

  // ----- order of records and constraints -----

  /** The same record, with its constraints in possibly another order. */
  ghost predicate SameUpToConstraints(a: Record, b: Record) {
    if a.package.Some? && b.package.Some? then
      && a.(package := None) == b.(package := None)
      && a.package.value.(constraints := []) == b.package.value.(constraints := [])
      && multiset(a.package.value.constraints) == multiset(b.package.value.constraints)
    else a == b
  }

  lemma ConstraintsForgetOrder(a: seq<Constraint>, b: seq<Constraint>)
    requires multiset(a) == multiset(b) && ValidConstraints(a)
    ensures ValidConstraints(b) && SortConstraints(a) == SortConstraints(b)
  {
    hide ConstraintKey, StrLess, SafeVersion, Sort;
    assert |a| == |multiset(a)| == |multiset(b)| == |b|;
    forall c ensures c in a <==> c in b {
      assert c in a <==> c in multiset(a);
      assert c in b <==> c in multiset(b);
    }
    DistinctForgetsOrder(ConstraintKeyOf(), a, b);
    ByKeyIsStrictOrder(ConstraintKeyOf());
    ConstraintKeysDistinguish(a);
    ConstraintKeysDistinguish(b);
    SortForgetsOrder(ByKey(ConstraintKeyOf()), a, b);
  }

  /** The canonical form forgets the order of a record's constraints. */
  lemma RecordForgetsConstraintOrder(rules: Rules, limits: Limits, a: Record, b: Record)
    requires SameUpToConstraints(a, b)
    ensures CanonicalRecord(rules, limits, a) == CanonicalRecord(rules, limits, b)
  {
    hide NormalHash, NormalSigner, NormalPattern;
    if a.package.Some? && b.package.Some? { PackageForgetsConstraintOrder(a.package.value, b.package.value); }
  }

  lemma PackageForgetsConstraintOrder(p: Package, q: Package)
    requires p.ecosystem == q.ecosystem && p.name == q.name && multiset(p.constraints) == multiset(q.constraints)
    ensures NormalPackage(p) == NormalPackage(q)
  {
    hide SafePackage, DotDot, ValidConstraints, SafeIdentifier, SortConstraints, ToLower;
    if ValidConstraints(p.constraints) { ConstraintsForgetOrder(p.constraints, q.constraints); }
    if ValidConstraints(q.constraints) { ConstraintsForgetOrder(q.constraints, p.constraints); }
  }

  /** `b` lists the records of `a` in some order, with constraints in some order. */
  ghost predicate Rearranged(a: seq<Record>, b: seq<Record>) {
    exists c: seq<Record> :: multiset(c) == multiset(a) && |c| == |b| &&
      forall i :: 0 <= i < |b| ==> SameUpToConstraints(c[i], b[i])
  }

  lemma {:induction false} FormsPermute(rules: Rules, limits: Limits, a: seq<Record>, b: seq<Record>)
    requires multiset(a) == multiset(b)
    ensures multiset(Forms(rules, limits, a)) == multiset(Forms(rules, limits, b))
  {
    hide CanonicalRecord;
    if a == [] {
      assert |b| == |multiset(b)| == 0;
    } else {
      var front, last := a[..|a| - 1], a[|a| - 1];
      var j := MatchLast(a, b);
      var rest := b[..j] + b[j + 1..];
      FormsPermute(rules, limits, front, rest);
      assert Forms(rules, limits, a) == Forms(rules, limits, front) + [Form(rules, limits, last)];
      var p, q := Forms(rules, limits, b[..j]), Forms(rules, limits, b[j + 1..]);
      assert Forms(rules, limits, rest) == p + q;
      assert Forms(rules, limits, b) == p + [Form(rules, limits, last)] + q;
    }
  }

  lemma CollectableForgetsOrder(rules: Rules, limits: Limits, a: seq<Record>, b: seq<Record>)
    requires multiset(a) == multiset(b) && Collectable(rules, limits, a)
    ensures Collectable(rules, limits, b)
  {
    hide CanonicalRecord, SortKey;
    forall r ensures r in a <==> r in b {
      assert r in a <==> r in multiset(a);
      assert r in b <==> r in multiset(b);
    }
    FormsPermute(rules, limits, a, b);
    UniqueKeysForgetOrder(Forms(rules, limits, a), Forms(rules, limits, b));
  }

  lemma UniqueKeysForgetOrder(a: seq<Record>, b: seq<Record>)
    requires multiset(a) == multiset(b) && UniqueKeys(a)
    ensures UniqueKeys(b)
  {
    hide SortKey;
    DistinctForgetsOrder(SortKeyOf(), a, b);
  }

  lemma PermutedRecords(rules: Rules, limits: Limits, a: seq<Record>, b: seq<Record>)
    requires multiset(a) == multiset(b) && Collectable(rules, limits, a)
    ensures CanonicalRecords(rules, limits, a).Ok?
    ensures CanonicalRecords(rules, limits, b) == CanonicalRecords(rules, limits, a)
  {
    hide CanonicalRecord, SortKey, Sort;
    CollectableForgetsOrder(rules, limits, a, b);
    CollectExact(rules, limits, a);
    CollectExact(rules, limits, b);
    FormsPermute(rules, limits, a, b);
    ByKeyIsStrictOrder(SortKeyOf());
    SortKeysDistinguish(Forms(rules, limits, a));
    SortKeysDistinguish(Forms(rules, limits, b));
    SortForgetsOrder(BySortKey(), Forms(rules, limits, a), Forms(rules, limits, b));
  }

  /** The canonical records do not depend on the order of the records or of their constraints. */
  lemma CanonicalRecordsForgetOrder(rules: Rules, limits: Limits, a: seq<Record>, b: seq<Record>)
    requires Rearranged(a, b)
    ensures CanonicalRecords(rules, limits, a).Ok? <==> CanonicalRecords(rules, limits, b).Ok?
    ensures CanonicalRecords(rules, limits, a).Ok? ==> CanonicalRecords(rules, limits, a) == CanonicalRecords(rules, limits, b)
  {
    hide CanonicalRecord, SortKey, Sort, SameUpToConstraints;
    var c :| multiset(c) == multiset(a) && |c| == |b| && forall i :: 0 <= i < |b| ==> SameUpToConstraints(c[i], b[i]);
    SameForms(rules, limits, c, b);
    CollectExact(rules, limits, a);
    CollectExact(rules, limits, b);
    CollectExact(rules, limits, c);
    if Collectable(rules, limits, a) { PermutedRecords(rules, limits, a, c); }
    if Collectable(rules, limits, c) { PermutedRecords(rules, limits, c, a); }
  }

  lemma SameForms(rules: Rules, limits: Limits, c: seq<Record>, b: seq<Record>)
    requires |c| == |b| && forall i :: 0 <= i < |b| ==> SameUpToConstraints(c[i], b[i])
    ensures Collectable(rules, limits, c) <==> Collectable(rules, limits, b)
    ensures Collectable(rules, limits, c) ==> Forms(rules, limits, c) == Forms(rules, limits, b)
  {
    hide CanonicalRecord, SortKey, SameUpToConstraints;
    forall i | 0 <= i < |b| ensures CanonicalRecord(rules, limits, c[i]) == CanonicalRecord(rules, limits, b[i]) {
      RecordForgetsConstraintOrder(rules, limits, c[i], b[i]);
    }
    if forall r :: r in c ==> CanonicalRecord(rules, limits, r).Some? {
      assert forall i :: 0 <= i < |c| ==> c[i] in c;
      assert Forms(rules, limits, c) == Forms(rules, limits, b);
    }
    if forall r :: r in b ==> CanonicalRecord(rules, limits, r).Some? {
      assert forall i :: 0 <= i < |b| ==> b[i] in b;
      assert Forms(rules, limits, c) == Forms(rules, limits, b);
    }
  }
}
