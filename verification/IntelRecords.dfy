/** What canonicalizing a record keeps and changes, which records have a canonical form, and when two of
    them count as duplicates. */
module IntelRecords {
  import opened Ordering
  import opened Model
  import opened Scan
  import opened IntelCanonical

  // ----- the canonical form -----

  /** The lower-case form of a text in the alphabets of hashes and ecosystems. */
  ghost predicate Lowers(text: string, lower: string) {
    |lower| == |text| && forall i :: 0 <= i < |text| ==>
      lower[i] == if 'A' <= text[i] <= 'Z' then text[i] + 32 as char
                  else if text[i] == '\U{212A}' then 'k' else if text[i] == '\U{130}' then 'i' else text[i]
  }

  /** Constraints in the order of operator and version texts. */
  ghost predicate InOrder(constraints: seq<Constraint>) {
    forall i, j :: 0 <= i < j < |constraints| ==>
      StrLess(ConstraintKey(constraints[i]), ConstraintKey(constraints[j]))
  }

  /** The record again, with lower-case hash and ecosystem and sorted constraints. */
  ghost predicate FormOf(r: Record, form: Record) {
    && form.kind == r.kind
    && (form.hash.Some? <==> r.hash.Some?) && (form.signer == r.signer) && (form.pattern == r.pattern)
    && (form.package.Some? <==> r.package.Some?)
    && (r.hash.Some? ==> Lowers(r.hash.value, form.hash.value))
    && (r.package.Some? ==>
          && Lowers(r.package.value.ecosystem, form.package.value.ecosystem)
          && form.package.value.name == r.package.value.name
          && multiset(form.package.value.constraints) == multiset(r.package.value.constraints)
          && InOrder(form.package.value.constraints))
  }

  lemma SortedInOrder(s: seq<Constraint>)
    requires ValidConstraints(s)
    ensures InOrder(SortConstraints(s)) && multiset(SortConstraints(s)) == multiset(s)
  {
    hide ConstraintKey, StrLess, SafeVersion, Sort;
    ByKeyIsStrictOrder(ConstraintKeyOf());
    ConstraintKeysDistinguish(s);
    SortIsSorted(ByKey(ConstraintKeyOf()), s);
    SortPermutes(ByKey(ConstraintKeyOf()), s);
    var sorted := SortConstraints(s);
    forall i, j | 0 <= i < j < |sorted| ensures StrLess(ConstraintKey(sorted[i]), ConstraintKey(sorted[j])) {
      assert ByKey(ConstraintKeyOf())(sorted[i], sorted[j]);
    }
  }

  /** A canonical form is the record's own. */
  lemma FormIsItsOwn(rules: Rules, limits: Limits, r: Record)
    requires CanonicalRecord(rules, limits, r).Some?
    ensures FormOf(r, CanonicalRecord(rules, limits, r).value.record)
  {
    hide Sha256Text, TeamIDText, BoundedIdentifier, SafePackage, DotDot, ValidConstraints, UnsafeControl, ByteLength;
    hide SortConstraints, InOrder, TypeText;
    if r.kind == VulnerablePackage { SortedInOrder(r.package.value.constraints); }
  }

  // ----- which records have one -----

  ghost predicate HexText(s: string) {
    |s| == 64 && forall c :: c in s ==> '0' <= c <= '9' || 'a' <= c <= 'f' || 'A' <= c <= 'F'
  }

  /** A text that its lower-case form makes an identifier. */
  ghost predicate EcosystemText(s: string) { exists lower :: Lowers(s, lower) && SafeIdentifier(lower) && |lower| <= 32 }

  ghost predicate NoDotDot(s: string) { forall i :: 0 <= i < |s| - 1 ==> !(s[i] == '.' && s[i + 1] == '.') }

  ghost predicate GoodConstraints(s: seq<Constraint>) {
    && 1 <= |s| <= 16
    && (forall c :: c in s ==>
          (c.operator == Eq || c.operator == Lt || c.operator == Lte || c.operator == Gt || c.operator == Gte)
          && SafeVersion(c.version) && |c.version| <= 128)
    && (forall i, j :: 0 <= i < j < |s| ==> s[i] != s[j])
  }

  /** The payload of the record's type is there, alone, and well formed. */
  ghost predicate WellFormed(rules: Rules, limits: Limits, r: Record) {
    match r.kind
    case MaliciousSHA256 =>
      r.hash.Some? && r.signer.None? && r.package.None? && r.pattern.None? && HexText(r.hash.value)
    case RevokedSigner =>
      && r.hash.None? && r.signer.Some? && r.package.None? && r.pattern.None?
      && (if r.signer.value.kind == TeamID then TeamIDText(r.signer.value.identifier)
          else r.signer.value.kind == SignerID && SafeIdentifier(r.signer.value.identifier)
               && |r.signer.value.identifier| <= 128)
    case VulnerablePackage =>
      && r.hash.None? && r.signer.None? && r.package.Some? && r.pattern.None?
      && EcosystemText(r.package.value.ecosystem)
      && SafePackage(r.package.value.name) && |r.package.value.name| <= 256 && NoDotDot(r.package.value.name)
      && GoodConstraints(r.package.value.constraints)
    case SecretPattern =>
      && r.hash.None? && r.signer.None? && r.package.None? && r.pattern.Some?
      && SafeIdentifier(r.pattern.value.detectorID) && |r.pattern.value.detectorID| <= 128
      && 0 < ByteLength(r.pattern.value.pattern) <= limits.maxPatternBytes
      && (forall c :: c in r.pattern.value.pattern ==> c >= ' ' && c != '\U{7F}')
      && rules.compiles(r.pattern.value.pattern) && !rules.matchesEmpty(r.pattern.value.pattern)
    case OtherType(_) => false
  }

  lemma LowerIsLower(s: string)
    ensures forall lower :: Lowers(s, lower) <==> lower == ToLower(s)
  {
  }

  lemma HashesAreHex(s: string)
    ensures Sha256Text(ToLower(s)) <==> HexText(s)
  {
    var lower := ToLower(s);
    if HexText(s) {
      forall c | c in lower ensures '0' <= c <= '9' || 'a' <= c <= 'f' {
        var i :| 0 <= i < |lower| && lower[i] == c;
        assert s[i] in s;
      }
    }
    if Sha256Text(lower) {
      forall c | c in s ensures '0' <= c <= '9' || 'a' <= c <= 'f' || 'A' <= c <= 'F' {
        var i :| 0 <= i < |s| && s[i] == c;
        assert lower[i] in lower;
      }
    }
  }

  lemma OperatorsDiffer(a: Constraint, b: Constraint)
    requires !a.operator.OtherOperator? && !b.operator.OtherOperator?
    ensures ConstraintKey(a) == ConstraintKey(b) <==> a == b
  {
    if ConstraintKey(a) == ConstraintKey(b) {
      var p, q := OperatorText(a.operator), OperatorText(b.operator);
      assert p + (":" + a.version) == ConstraintKey(a) && q + (":" + b.version) == ConstraintKey(b);
      CutIsUnique(':', p, q, ":" + a.version, ":" + b.version);
      assert (":" + a.version)[1..] == a.version && (":" + b.version)[1..] == b.version;
      assert |OperatorText(Lte)| == 3 && OperatorText(Lt)[0] == 'l' && OperatorText(Gt)[0] == 'g';
      assert |OperatorText(Gte)| == 3 && OperatorText(Lte)[0] == 'l' && OperatorText(Gte)[0] == 'g' && OperatorText(Eq)[0] == 'e';
    }
  }

  lemma ConstraintsAreGood(s: seq<Constraint>)
    ensures ValidConstraints(s) <==> GoodConstraints(s)
  {
    hide SafeVersion, ConstraintKey;
    if forall c :: c in s ==> !c.operator.OtherOperator? {
      forall i, j | 0 <= i < j < |s| ensures ConstraintKey(s[i]) == ConstraintKey(s[j]) <==> s[i] == s[j] {
        assert s[i] in s && s[j] in s;
        OperatorsDiffer(s[i], s[j]);
      }
    }
  }

  lemma {:induction false} SomeBytes(s: string)
    ensures ByteLength(s) >= |s|
  {
    if s != "" { SomeBytes(s[..|s| - 1]); }
  }

  /** A record has one such form. */
  lemma FormIsUnique(r: Record, a: Record, b: Record)
    requires FormOf(r, a) && FormOf(r, b)
    ensures a == b
  {
    hide ConstraintKey, StrLess;
    if r.hash.Some? {
      LowerIsLower(r.hash.value);
    }
    if r.package.Some? {
      LowerIsLower(r.package.value.ecosystem);
      var p, q := a.package.value.constraints, b.package.value.constraints;
      assert multiset(p) == multiset(q);
      ByKeyIsStrictOrder(ConstraintKeyOf());
      SortedPermutationIsUnique(ByKey(ConstraintKeyOf()), p, q);
    }
  }

  /** Exactly the well-formed records whose form fits the size limit are accepted, with that form and its
      sort key. */
  lemma CanonicalExactly(rules: Rules, limits: Limits, r: Record)
    ensures CanonicalRecord(rules, limits, r).Some? <==>
      WellFormed(rules, limits, r) && exists form :: FormOf(r, form) && rules.recordBytes(form) <= limits.maxRecordBytes
    ensures CanonicalRecord(rules, limits, r).Some? ==>
      var n := CanonicalRecord(rules, limits, r).value; FormOf(r, n.record) && n.identity == SortKey(n.record)
  {
    hide FormOf, EcosystemText, HexText, NoDotDot, GoodConstraints, SafeIdentifier, SafePackage, TeamIDText;
    hide NormalPayload, WellFormed, SortKey;
    PayloadsExactly(rules, limits, r);
    if WellFormed(rules, limits, r) {
      var ample := limits.(maxRecordBytes := rules.recordBytes(NormalPayload(rules, limits, r).value.record));
      assert NormalPayload(rules, ample, r) == NormalPayload(rules, limits, r) by { SizeIsNoPayload(rules, limits, ample, r); }
      FormIsItsOwn(rules, ample, r);
      forall form | FormOf(r, form) ensures form == NormalPayload(rules, limits, r).value.record {
        FormIsUnique(r, form, NormalPayload(rules, limits, r).value.record);
      }
    }
    if CanonicalRecord(rules, limits, r).Some? {
      FormIsItsOwn(rules, limits, r);
      IdentityIsSortKey(rules, limits, r);
    }
  }

  lemma SizeIsNoPayload(rules: Rules, limits: Limits, ample: Limits, r: Record)
    requires ample == limits.(maxRecordBytes := ample.maxRecordBytes)
    ensures NormalPayload(rules, ample, r) == NormalPayload(rules, limits, r)
  {
    hide NormalHash, NormalSigner, NormalPackage;
  }

  lemma PayloadsExactly(rules: Rules, limits: Limits, r: Record)
    ensures PayloadCount(r) == 1 && NormalPayload(rules, limits, r).Some? <==> WellFormed(rules, limits, r)
  {
    hide SafeIdentifier, SafePackage, TeamIDText, Sha256Text, HexText, ToLower, ValidConstraints, GoodConstraints;
    hide SortConstraints, ByteLength, TypeText, KindText, Lowers;
    if r.hash.Some? { HashesAreHex(r.hash.value); }
    if r.package.Some? {
      LowerIsLower(r.package.value.ecosystem);
      ConstraintsAreGood(r.package.value.constraints);
    }
    if r.pattern.Some? {
      SomeBytes(r.pattern.value.pattern);
      if r.pattern.value.pattern == "" { NoBytes(); }
    }
  }

  lemma NoBytes()
    ensures ByteLength("") == 0
  {
  }

  // ----- all records -----

  /** The record is well formed and its form fits. */
  ghost predicate Accepts(rules: Rules, limits: Limits, r: Record) {
    WellFormed(rules, limits, r) && exists form :: FormOf(r, form) && rules.recordBytes(form) <= limits.maxRecordBytes
  }

  /** Form by form, in some order. */
  ghost predicate FormsOf(records: seq<Record>, forms: seq<Record>) {
    exists d: seq<Record> :: |d| == |records| && multiset(d) == multiset(forms)
      && forall i :: 0 <= i < |records| ==> FormOf(records[i], d[i])
  }

  ghost predicate KeysAscend(forms: seq<Record>) {
    forall i, j :: 0 <= i < j < |forms| ==> StrLess(SortKey(forms[i]), SortKey(forms[j]))
  }

  lemma AscendingIsSorted(forms: seq<Record>)
    ensures KeysAscend(forms) <==> StrictlySorted(BySortKey(), forms)
    ensures KeysAscend(forms) ==> UniqueKeys(forms)
  {
    hide SortKey, StrLess;
    if KeysAscend(forms) {
      forall i, j | 0 <= i < j < |forms| ensures SortKey(forms[i]) != SortKey(forms[j]) {
        StrLessIrreflexive(SortKey(forms[i]));
      }
    }
    if StrictlySorted(BySortKey(), forms) {
      forall i, j | 0 <= i < j < |forms| ensures StrLess(SortKey(forms[i]), SortKey(forms[j])) {
        assert BySortKey()(forms[i], forms[j]);
      }
    }
  }

  /** The records of a bundle are accepted exactly when each is, and no two forms share a key; the result
      is then the list of the forms in key order. */
  lemma CanonicalRecordsExactly(rules: Rules, limits: Limits, records: seq<Record>, forms: seq<Record>)
    ensures CanonicalRecords(rules, limits, records) == Ok(forms) <==>
      (forall r :: r in records ==> Accepts(rules, limits, r)) && FormsOf(records, forms) && KeysAscend(forms)
  {
    hide CanonicalRecord, Collect, FormOf, WellFormed, SortKey, StrLess, Sort, KeysAscend, UniqueKeys, Accepts;
    forall r | r in records ensures CanonicalRecord(rules, limits, r).Some? <==> Accepts(rules, limits, r) {
      AcceptedExactly(rules, limits, r);
    }
    CollectExact(rules, limits, records);
    var all := Forms(rules, limits, records);
    AscendingIsSorted(forms);
    ByKeyIsStrictOrder(SortKeyOf());
    SortPermutes(BySortKey(), all);
    if forall r :: r in records ==> Accepts(rules, limits, r) {
      forall i | 0 <= i < |records| ensures FormOf(records[i], all[i]) {
        assert records[i] in records;
        AcceptedExactly(rules, limits, records[i]);
      }
      if FormsOf(records, forms) && KeysAscend(forms) {
        OneFormEach(records, forms, all);
        KeysForgetOrder(forms, all);
        SortKeysDistinguish(all);
        SortIsSorted(BySortKey(), all);
        SortedPermutationIsUnique(BySortKey(), Sort(BySortKey(), all), forms);
      }
      if CanonicalRecords(rules, limits, records) == Ok(forms) {
        SortKeysDistinguish(all);
        SortIsSorted(BySortKey(), all);
        assert |all| == |records| && multiset(all) == multiset(forms);
      }
    }
  }

  lemma AcceptedExactly(rules: Rules, limits: Limits, r: Record)
    ensures CanonicalRecord(rules, limits, r).Some? <==> Accepts(rules, limits, r)
    ensures CanonicalRecord(rules, limits, r).Some? ==> FormOf(r, Form(rules, limits, r))
  {
    hide CanonicalRecord, FormOf, WellFormed, SortKey;
    CanonicalExactly(rules, limits, r);
  }

  lemma OneFormEach(records: seq<Record>, forms: seq<Record>, all: seq<Record>)
    requires FormsOf(records, forms) && |all| == |records| && forall i :: 0 <= i < |records| ==> FormOf(records[i], all[i])
    ensures multiset(all) == multiset(forms)
  {
    hide FormOf;
    var d: seq<Record> :| |d| == |records| && multiset(d) == multiset(forms)
      && forall i :: 0 <= i < |records| ==> FormOf(records[i], d[i]);
    forall i | 0 <= i < |records| ensures d[i] == all[i] { FormIsUnique(records[i], d[i], all[i]); }
    assert d == all;
  }

  lemma KeysForgetOrder(a: seq<Record>, b: seq<Record>)
    requires multiset(a) == multiset(b) && KeysAscend(a)
    ensures UniqueKeys(b)
  {
    hide SortKey, StrLess;
    AscendingIsSorted(a);
    DistinctForgetsOrder(SortKeyOf(), a, b);
    forall i, j | 0 <= i < j < |b| ensures SortKey(b[i]) != SortKey(b[j]) {
      assert SortKeyOf()(b[i]) != SortKeyOf()(b[j]);
    }
  }

  // ----- limits -----

  /** No limits at all mean 4 MiB, 10000 records, 8 KiB a record and 1 KiB a pattern; given limits are
      positive, and a pattern fits into a record. */
  lemma LimitsExactly(l: Limits, m: Limits)
    ensures NormalizeLimits(l) == Some(m) <==>
      if l == Limits(0, 0, 0, 0) then m == Limits(4_194_304, 10_000, 8_192, 1_024)
      else m == l && l.maxBundleBytes > 0 && l.maxRecords > 0 && 0 < l.maxPatternBytes <= l.maxRecordBytes
  {
  }

  // ----- duplicates -----

  /** What a record is about; of a package, ecosystem and name with a colon between. */
  ghost predicate SameSubject(a: Record, b: Record) {
    && a.kind == b.kind
    && match a.kind
       case MaliciousSHA256 => a.hash == b.hash
       case RevokedSigner => a.signer == b.signer
       case VulnerablePackage =>
         && a.package.Some? && b.package.Some?
         && a.package.value.ecosystem + ":" + a.package.value.name
            == b.package.value.ecosystem + ":" + b.package.value.name
       case SecretPattern =>
         a.pattern.Some? && b.pattern.Some? && a.pattern.value.detectorID == b.pattern.value.detectorID
       case OtherType(_) => true
  }

  /** The record has the payload of its type. */
  ghost predicate Typed(r: Record) {
    match r.kind
    case MaliciousSHA256 => r.hash.Some?
    case RevokedSigner => r.signer.Some? && !r.signer.value.kind.OtherKind?
    case VulnerablePackage => r.package.Some?
    case SecretPattern => r.pattern.Some?
    case OtherType(_) => false
  }

  lemma TypesDiffer(a: RecordType, b: RecordType, p: string, q: string)
    requires !a.OtherType? && !b.OtherType? && TypeText(a) + ":" + p == TypeText(b) + ":" + q
    ensures a == b && p == q
  {
    var x, y := TypeText(a), TypeText(b);
    assert (x + ":" + p)[0] == x[0] && (y + ":" + q)[0] == y[0];
    assert TypeText(MaliciousSHA256)[0] == 'm' && TypeText(RevokedSigner)[0] == 'r';
    assert TypeText(VulnerablePackage)[0] == 'v' && TypeText(SecretPattern)[0] == 's';
    assert (x + ":" + p)[|x| + 1..] == p && (y + ":" + q)[|y| + 1..] == q;
  }

  lemma SignersDiffer(a: Signer, b: Signer)
    requires !a.kind.OtherKind? && !b.kind.OtherKind?
    requires KindText(a.kind) + ":" + a.identifier == KindText(b.kind) + ":" + b.identifier
    ensures a == b
  {
    var x, y := KindText(a.kind), KindText(b.kind);
    assert (x + ":" + a.identifier)[0] == x[0] && (y + ":" + b.identifier)[0] == y[0];
    assert KindText(SignerID)[0] == 's' && KindText(TeamID)[0] == 't';
    assert (x + ":" + a.identifier)[|x| + 1..] == a.identifier && (y + ":" + b.identifier)[|y| + 1..] == b.identifier;
  }

  /** A record's key after its type. */
  ghost function Rest(r: Record): string
    requires Typed(r)
  {
    match r.kind
    case MaliciousSHA256 => r.hash.value
    case RevokedSigner => KindText(r.signer.value.kind) + ":" + r.signer.value.identifier
    case VulnerablePackage => r.package.value.ecosystem + ":" + r.package.value.name
    case SecretPattern => r.pattern.value.detectorID
    case OtherType(_) => ""
  }

  lemma KeyHasRest(r: Record)
    requires Typed(r)
    ensures SortKey(r) == TypeText(r.kind) + ":" + Rest(r)
  {
    hide TypeText, KindText;
    if r.kind == RevokedSigner {
      var p, k, i := TypeText(r.kind) + ":", KindText(r.signer.value.kind), r.signer.value.identifier;
      assert p + k + ":" + i == p + (k + ":" + i);
    } else if r.kind == VulnerablePackage {
      var p, e, n := TypeText(r.kind) + ":", r.package.value.ecosystem, r.package.value.name;
      assert p + e + ":" + n == p + (e + ":" + n);
    }
  }

  /** Two records share a key exactly when they are about the same hash, signer or detector, or about
      packages whose ecosystems and names read the same with the colon between. */
  lemma KeysIdentify(a: Record, b: Record)
    requires Typed(a) && Typed(b)
    ensures SortKey(a) == SortKey(b) <==> SameSubject(a, b)
  {
    hide SortKey, TypeText, KindText;
    KeyHasRest(a);
    KeyHasRest(b);
    if SortKey(a) == SortKey(b) {
      TypesDiffer(a.kind, b.kind, Rest(a), Rest(b));
      if a.kind == RevokedSigner { SignersDiffer(a.signer.value, b.signer.value); }
    }
  }

  /** For ecosystems without a colon that means the same package. */
  lemma ColonFreeEcosystems(a: Package, b: Package)
    requires FreeOf(':', a.ecosystem) && FreeOf(':', b.ecosystem)
    requires a.ecosystem + ":" + a.name == b.ecosystem + ":" + b.name
    ensures a.ecosystem == b.ecosystem && a.name == b.name
  {
    assert a.ecosystem + ":" + a.name == a.ecosystem + (":" + a.name);
    assert b.ecosystem + ":" + b.name == b.ecosystem + (":" + b.name);
    CutIsUnique(':', a.ecosystem, b.ecosystem, ":" + a.name, ":" + b.name);
    assert (":" + a.name)[1..] == a.name && (":" + b.name)[1..] == b.name;
  }

  function PackageRecord(ecosystem: string, name: string): Record {
    Record(VulnerablePackage, None, None, Some(Package(ecosystem, name, [Constraint(Eq, "1")])), None)
  }

  /** But ecosystems and names may hold colons, and then two packages can be taken for one: the second
      record is refused as a duplicate. */
  lemma ColonsCollide(rules: Rules, limits: Limits)
    requires forall r :: rules.recordBytes(r) <= limits.maxRecordBytes
    ensures Collect(rules, limits, [PackageRecord("a:b", "c"), PackageRecord("a", "b:c")]) == Err(DuplicateRecord(1))
  {
    hide CanonicalRecord, Sort, SortConstraints;
    var a, b := PackageRecord("a:b", "c"), PackageRecord("a", "b:c");
    PlainPackage(rules, limits, "a:b", "c");
    PlainPackage(rules, limits, "a", "b:c");
    assert SortKey(a) == SortKey(b) by {
      assert "a:b" + ":" + "c" == "a" + ":" + "b:c";
      KeysIdentify(a, b);
    }
    assert [a, b][..1] == [a] && [a][..0] == [];
    assert SortKey(a) in Keys([a]) by { assert a in [a]; }
    assert Collect(rules, limits, []) == Ok([]);
    assert Collect(rules, limits, [a]) == Ok([a]) by { assert [] + [a] == [a] && Keys([]) == {}; }
  }

  lemma PlainPackage(rules: Rules, limits: Limits, ecosystem: string, name: string)
    requires rules.recordBytes(PackageRecord(ecosystem, name)) <= limits.maxRecordBytes
    requires ecosystem == "a" || ecosystem == "a:b"
    requires name == "c" || name == "b:c"
    ensures CanonicalRecord(rules, limits, PackageRecord(ecosystem, name))
         == Some(Normal(PackageRecord(ecosystem, name), SortKey(PackageRecord(ecosystem, name))))
  {
    hide SortConstraints;
    assert ToLower(ecosystem) == ecosystem;
    OneConstraint(Constraint(Eq, "1"));
  }

  lemma OneConstraint(c: Constraint)
    ensures SortConstraints([c]) == [c]
  {
    var less := ByKey(ConstraintKeyOf());
    SortPermutes(less, [c]);
    var sorted := SortConstraints([c]);
    assert |sorted| == |multiset(sorted)| == |multiset([c])| == 1;
    assert sorted[0] in multiset([c]);
  }
}
