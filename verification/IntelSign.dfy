/** Signing and verifying intelligence bundles: internal/intel/sign.go. */
module IntelSign {
  import opened Instants
  import opened Model
  import opened IntelCanonical
  import IntelRecords

  const BUNDLE_SCHEMA := "io.oh-my-safety/intelligence-bundle"

  /** `None` for the records is a nil slice. */
  datatype Bundle = Bundle(
    schema: string, schemaVersion: int, bundleID: string, sequence: nat, issuedAt: Time, expiresAt: Time,
    minimumAgentSchema: int, records: Option<seq<Record>>, payloadSHA256: string, keyID: string,
    signature: string)

  /** Encoding, hashing and signing.  `verify` covers the decoding of the signature text. */
  datatype Crypto = Crypto(
    rules: Rules, encode: Bundle -> string, decode: string -> Option<Bundle>, bytes: string -> nat,
    unsigned: Bundle -> string, payloadDigest: seq<Record> -> string,
    publicKey: string -> string, sign: (string, string) -> string, verify: (string, string, string) -> bool)

  /** Decoding inverts encoding, digests are SHA-256 texts, a signature does not cover itself, and
      verifies under the key of its signer. */
  ghost predicate Lawful(c: Crypto) {
    && (forall b :: c.decode(c.encode(b)) == Some(b))
    && (forall r :: Sha256Text(c.payloadDigest(r)))
    && (forall b: Bundle, s: string :: c.unsigned(b.(signature := s)) == c.unsigned(b))
    && (forall k, m :: c.verify(c.publicKey(k), m, c.sign(k, m)) && c.sign(k, m) != "")
  }

  predicate ValidHeader(b: Bundle) {
    && b.schema == BUNDLE_SCHEMA && b.schemaVersion == 1
    && BoundedIdentifier(b.bundleID, 128) && b.sequence != 0
    && b.issuedAt != ZERO_TIME && b.expiresAt != ZERO_TIME && b.issuedAt < b.expiresAt
    && b.minimumAgentSchema > 0 && b.records.Some?
    && BoundedIdentifier(b.keyID, 128)
  }

  function PrepareBundle(c: Crypto, limits: Limits, b: Bundle): Result<Bundle, IntelError> {
    if !ValidHeader(b) then Err(InvalidBundle)
    else if |b.records.value| > limits.maxRecords then Err(TooManyRecords)
    else
      match CanonicalRecords(c.rules, limits, b.records.value)
      case Err(error) => Err(error)
      case Ok(records) => Ok(b.(records := Some(records)))
  }

  datatype Signed = Signed(bundle: Bundle, encoded: string)

  function WithDefaults(b: Bundle, keyID: string): Bundle {
    b.(schema := if b.schema == "" then BUNDLE_SCHEMA else b.schema,
       schemaVersion := if b.schemaVersion == 0 then 1 else b.schemaVersion,
       keyID := keyID, payloadSHA256 := "", signature := "")
  }

  function Sign(c: Crypto, b: Bundle, keyID: string, privateKey: string, limits: Limits): Result<Signed, IntelError> {
    var resolved := NormalizeLimits(limits);
    if resolved.None? then Err(InvalidLimits)
    else
      match PrepareBundle(c, resolved.value, WithDefaults(b, keyID))
      case Err(error) => Err(error)
      case Ok(prepared) =>
        var hashed := prepared.(payloadSHA256 := c.payloadDigest(prepared.records.value));
        var signed := hashed.(signature := c.sign(privateKey, c.unsigned(hashed)));
        if c.bytes(c.encode(signed)) > resolved.value.maxBundleBytes then Err(BundleTooLarge)
        else Ok(Signed(signed, c.encode(signed)))
  }

  function Canonicalize(c: Crypto, b: Bundle, limits: Limits): Result<string, IntelError> {
    var resolved := NormalizeLimits(limits);
    if resolved.None? then Err(InvalidLimits)
    else
      match PrepareBundle(c, resolved.value, b)
      case Err(error) => Err(error)
      case Ok(prepared) =>
        if !Sha256Text(prepared.payloadSHA256) || prepared.signature == "" then Err(InvalidBundle)
        else if c.bytes(c.encode(prepared)) > resolved.value.maxBundleBytes then Err(BundleTooLarge)
        else Ok(c.encode(prepared))
  }

  datatype Acceptance = Acceptance(bundleID: string, sequence: nat, payloadSHA256: string)

  /** `now` may be the zero time, which stands for the system clock. */
  datatype VerifyOptions = VerifyOptions(
    limits: Limits, now: Time, clockSkew: int, agentSchema: int, lastAccepted: Option<Acceptance>)

  datatype Verified = Verified(bundle: Bundle, canonical: string, replay: bool)

  type TrustStore = map<string, string>

  /** Checks of the bytes that depend on nothing but the limits. */
  function VerifyForm(c: Crypto, encoded: string, limits: Limits): Result<Bundle, IntelError> {
    var decoded := c.decode(encoded);
    if decoded.None? then Err(InvalidEncoding)
    else if decoded.value.records.Some? && |decoded.value.records.value| > limits.maxRecords then Err(TooManyRecords)
    else
      match PrepareBundle(c, limits, decoded.value)
      case Err(error) => Err(error)
      case Ok(prepared) =>
        if encoded != c.encode(prepared) then Err(NonCanonical)
        else if !Sha256Text(prepared.payloadSHA256)
                || prepared.payloadSHA256 != c.payloadDigest(prepared.records.value)
        then Err(PayloadHashMismatch)
        else Ok(prepared)
  }

  predicate InWindow(b: Bundle, now: Time, skew: int) { b.issuedAt <= now + skew && now - skew <= b.expiresAt }

  function EffectiveSchema(agentSchema: int): int { if agentSchema <= 0 then 1 else agentSchema }

  /** The sequence rule: what a previous acceptance makes of a bundle. */
  function SequenceRule(b: Bundle, previous: Option<Acceptance>): Result<bool, IntelError> {
    if previous.None? || previous.value.sequence == 0 then Ok(false)
    else if b.sequence < previous.value.sequence then Err(RolledBack)
    else if b.sequence > previous.value.sequence then Ok(false)
    else if b.bundleID == previous.value.bundleID && b.payloadSHA256 == previous.value.payloadSHA256 then Ok(true)
    else Err(SequenceConflict)
  }

  function Verify(c: Crypto, encoded: string, trust: Option<TrustStore>, o: VerifyOptions, clock: Time):
    Result<Verified, IntelError>
  {
    var resolved := NormalizeLimits(o.limits);
    if resolved.None? then Err(InvalidLimits)
    else if c.bytes(encoded) > resolved.value.maxBundleBytes then Err(BundleTooLarge)
    else if trust.None? then Err(UnknownKey)
    else
      match VerifyForm(c, encoded, resolved.value)
      case Err(error) => Err(error)
      case Ok(b) =>
        var now := if o.now == ZERO_TIME then clock else o.now;
        if b.keyID !in trust.value then Err(UnknownKey)
        else if !c.verify(trust.value[b.keyID], c.unsigned(b), b.signature) then Err(InvalidSignature)
        else if o.clockSkew < 0 then Err(InvalidBundle)
        else if now + o.clockSkew < b.issuedAt then Err(NotYetValid)
        else if now - o.clockSkew > b.expiresAt then Err(Expired)
        else if b.minimumAgentSchema > EffectiveSchema(o.agentSchema) then Err(AgentSchemaTooLow)
        else
          match SequenceRule(b, o.lastAccepted)
          case Err(error) => Err(error)
          case Ok(replay) => Ok(Verified(b, encoded, replay))
  }

  // ----- canonical form -----

  /** Preparing is idempotent. */
  lemma PrepareIsStable(c: Crypto, limits: Limits, b: Bundle)
    requires PrepareBundle(c, limits, b).Ok?
    ensures PrepareBundle(c, limits, PrepareBundle(c, limits, b).value) == PrepareBundle(c, limits, b)
  {
    hide CanonicalRecords, BoundedIdentifier;
    CanonicalRecordsAreStable(c.rules, limits, b.records.value);
    CanonicalRecordsAreSorted(c.rules, limits, b.records.value);
  }

  /** Digest and signature are no part of what preparing looks at. */
  lemma PrepareIgnoresSeal(c: Crypto, limits: Limits, b: Bundle, digest: string, signature: string)
    requires PrepareBundle(c, limits, b).Ok?
    ensures PrepareBundle(c, limits, b.(payloadSHA256 := digest, signature := signature))
         == Ok(PrepareBundle(c, limits, b).value.(payloadSHA256 := digest, signature := signature))
  {
    hide CanonicalRecords, BoundedIdentifier;
  }

  /** A signed bundle is prepared, sealed with its own digest, and signed. */
  lemma SignedShape(c: Crypto, b: Bundle, keyID: string, privateKey: string, limits: Limits)
    requires Lawful(c) && Sign(c, b, keyID, privateKey, limits).Ok?
    ensures var s := Sign(c, b, keyID, privateKey, limits).value;
      && NormalizeLimits(limits).Some?
      && PrepareBundle(c, NormalizeLimits(limits).value, s.bundle) == Ok(s.bundle)
      && s.encoded == c.encode(s.bundle) && c.bytes(s.encoded) <= NormalizeLimits(limits).value.maxBundleBytes
      && s.bundle.payloadSHA256 == c.payloadDigest(s.bundle.records.value) && s.bundle.keyID == keyID
      && s.bundle.signature == c.sign(privateKey, c.unsigned(s.bundle))
  {
    hide CanonicalRecords, NormalizeLimits, ValidHeader, Sha256Text;
    var l := NormalizeLimits(limits).value;
    var start := WithDefaults(b, keyID);
    var prepared := PrepareBundle(c, l, start).value;
    var s := Sign(c, b, keyID, privateKey, limits).value.bundle;
    PrepareIsStable(c, l, start);
    PrepareIgnoresSeal(c, l, prepared, s.payloadSHA256, s.signature);
    assert s == prepared.(payloadSHA256 := s.payloadSHA256, signature := s.signature);
    var hashed := prepared.(payloadSHA256 := s.payloadSHA256);
    assert c.unsigned(hashed.(signature := s.signature)) == c.unsigned(hashed);
  }

  /** Round trip, exactly: `Verify` accepts what `Sign` made, and returns it, when the signer's key is
      pinned under the key id, the time lies in the skewed window, the agent's schema suffices and the
      sequence rule allows it; and only then. */
  lemma SignThenVerify(c: Crypto, b: Bundle, keyID: string, privateKey: string, limits: Limits,
                       trust: TrustStore, o: VerifyOptions, clock: Time)
    requires Lawful(c) && Sign(c, b, keyID, privateKey, limits).Ok? && o.limits == limits
    requires keyID in trust ==> trust[keyID] == c.publicKey(privateKey)
    ensures var s := Sign(c, b, keyID, privateKey, limits).value;
            var now := if o.now == ZERO_TIME then clock else o.now;
            var r := Verify(c, s.encoded, Some(trust), o, clock);
      && (r.Ok? <==>
            && keyID in trust && o.clockSkew >= 0 && InWindow(s.bundle, now, o.clockSkew)
            && s.bundle.minimumAgentSchema <= EffectiveSchema(o.agentSchema)
            && SequenceRule(s.bundle, o.lastAccepted).Ok?)
      && (r.Ok? ==> r.value.bundle == s.bundle && r.value.canonical == s.encoded)
  {
    hide PrepareBundle, NormalizeLimits, Sign, Sha256Text;
    SignedShape(c, b, keyID, privateKey, limits);
    var s := Sign(c, b, keyID, privateKey, limits).value;
    PreparedHasRecords(c, NormalizeLimits(limits).value, s.bundle);
    assert VerifyForm(c, s.encoded, NormalizeLimits(limits).value) == Ok(s.bundle);
  }

  lemma PreparedHasRecords(c: Crypto, limits: Limits, b: Bundle)
    requires PrepareBundle(c, limits, b).Ok?
    ensures b.records.Some? && |b.records.value| <= limits.maxRecords
    ensures PrepareBundle(c, limits, b).value.records.Some?
  {
    hide CanonicalRecords, BoundedIdentifier;
  }

  /** What acceptance means: the bytes are the encoding of a prepared bundle whose digest is that of its
      records, signed by a pinned key, in its time window and not refused by the sequence rule. */
  lemma AcceptedMeans(c: Crypto, encoded: string, trust: Option<TrustStore>, o: VerifyOptions, clock: Time)
    requires Lawful(c) && Verify(c, encoded, trust, o, clock).Ok?
    ensures var v := Verify(c, encoded, trust, o, clock).value;
            var now := if o.now == ZERO_TIME then clock else o.now;
      && NormalizeLimits(o.limits).Some? && trust.Some?
      && v.canonical == encoded == c.encode(v.bundle) && c.decode(encoded) == Some(v.bundle)
      && c.bytes(encoded) <= NormalizeLimits(o.limits).value.maxBundleBytes
      && PrepareBundle(c, NormalizeLimits(o.limits).value, v.bundle) == Ok(v.bundle)
      && ValidHeader(v.bundle)
      && v.bundle.payloadSHA256 == c.payloadDigest(v.bundle.records.value)
      && Sha256Text(v.bundle.payloadSHA256)
      && v.bundle.keyID in trust.value
      && c.verify(trust.value[v.bundle.keyID], c.unsigned(v.bundle), v.bundle.signature)
      && InWindow(v.bundle, now, o.clockSkew)
      && SequenceRule(v.bundle, o.lastAccepted) == Ok(v.replay)
  {
    hide NormalizeLimits, Sha256Text, CanonicalRecords, BoundedIdentifier;
    var limits := NormalizeLimits(o.limits).value;
    var decoded := c.decode(encoded).value;
    var prepared := PrepareBundle(c, limits, decoded).value;
    assert c.decode(c.encode(prepared)) == Some(prepared);
  }

  /** `Verify` accepts only one encoding of a bundle: of the byte strings that decode to bundles with
      the same canonical form, at most the canonical one. */
  lemma OnlyCanonicalBytesVerify(c: Crypto, x: string, y: string, trust: Option<TrustStore>,
                                 o: VerifyOptions, clock: Time)
    requires Lawful(c) && c.decode(x).Some? && c.decode(y).Some? && NormalizeLimits(o.limits).Some?
    requires var l := NormalizeLimits(o.limits).value;
      PrepareBundle(c, l, c.decode(x).value) == PrepareBundle(c, l, c.decode(y).value)
    requires Verify(c, x, trust, o, clock).Ok? && Verify(c, y, trust, o, clock).Ok?
    ensures x == y
  {
    hide Verify, PrepareBundle, NormalizeLimits;
    AcceptedMeans(c, x, trust, o, clock);
    AcceptedMeans(c, y, trust, o, clock);
  }

  lemma PrepareForgetsOrder(c: Crypto, limits: Limits, b: Bundle, records: seq<Record>)
    requires b.records.Some? && Rearranged(b.records.value, records)
    ensures PrepareBundle(c, limits, b.(records := Some(records))).Ok? <==> PrepareBundle(c, limits, b).Ok?
    ensures PrepareBundle(c, limits, b).Ok? ==>
      PrepareBundle(c, limits, b.(records := Some(records))) == PrepareBundle(c, limits, b)
  {
    hide CanonicalRecords, BoundedIdentifier, Rearranged;
    CanonicalRecordsForgetOrder(c.rules, limits, b.records.value, records);
    RearrangedSize(b.records.value, records);
  }

  /** Signing does not see the order of the records or of their constraints. */
  lemma SignForgetsOrder(c: Crypto, b: Bundle, records: seq<Record>, keyID: string, privateKey: string, limits: Limits)
    requires b.records.Some? && Rearranged(b.records.value, records)
    ensures var other := Sign(c, b.(records := Some(records)), keyID, privateKey, limits);
      && (other.Ok? <==> Sign(c, b, keyID, privateKey, limits).Ok?)
      && (other.Ok? ==> other == Sign(c, b, keyID, privateKey, limits))
  {
    hide PrepareBundle, NormalizeLimits, Rearranged;
    if NormalizeLimits(limits).Some? {
      PrepareForgetsOrder(c, NormalizeLimits(limits).value, WithDefaults(b, keyID), records);
      assert WithDefaults(b.(records := Some(records)), keyID) == WithDefaults(b, keyID).(records := Some(records));
    }
  }

  lemma RearrangedSize(a: seq<Record>, b: seq<Record>)
    requires Rearranged(a, b)
    ensures |a| == |b|
  {
    hide SameUpToConstraints;
    var d: seq<Record> :| multiset(d) == multiset(a) && |d| == |b| && forall i :: 0 <= i < |b| ==> SameUpToConstraints(d[i], b[i]);
    assert |a| == |multiset(a)| == |multiset(d)| == |d|;
  }

  /** Canonicalizing a signed bundle reproduces the signed bytes. */
  lemma CanonicalizeSigned(c: Crypto, b: Bundle, keyID: string, privateKey: string, limits: Limits)
    requires Lawful(c) && Sign(c, b, keyID, privateKey, limits).Ok?
    ensures var s := Sign(c, b, keyID, privateKey, limits).value;
      Canonicalize(c, s.bundle, limits) == Ok(s.encoded)
  {
    hide PrepareBundle, NormalizeLimits, Sign, Sha256Text;
    SignedShape(c, b, keyID, privateKey, limits);
    PreparedHasRecords(c, NormalizeLimits(limits).value, Sign(c, b, keyID, privateKey, limits).value.bundle);
  }

  // ----- what is signed -----

  /** Records and key id can be signed, and these are the records' forms in key order. */
  ghost predicate Signable(c: Crypto, b: Bundle, keyID: string, limits: Limits, forms: seq<Record>) {
    && (b.schema == "" || b.schema == "io.oh-my-safety/intelligence-bundle")
    && (b.schemaVersion == 0 || b.schemaVersion == 1)
    && BoundedIdentifier(b.bundleID, 128) && BoundedIdentifier(keyID, 128)
    && b.sequence > 0 && b.minimumAgentSchema > 0
    && b.issuedAt != ZERO_TIME && b.expiresAt != ZERO_TIME && b.issuedAt < b.expiresAt
    && b.records.Some? && |b.records.value| <= limits.maxRecords
    && (forall r :: r in b.records.value ==> IntelRecords.Accepts(c.rules, limits, r))
    && IntelRecords.FormsOf(b.records.value, forms) && IntelRecords.KeysAscend(forms)
  }

  /** The given bundle with these records, sealed and signed. */
  function Sealed(c: Crypto, b: Bundle, keyID: string, privateKey: string, forms: seq<Record>): Bundle {
    var hashed := Bundle("io.oh-my-safety/intelligence-bundle", 1, b.bundleID, b.sequence, b.issuedAt, b.expiresAt,
                         b.minimumAgentSchema, Some(forms), c.payloadDigest(forms), keyID, "");
    hashed.(signature := c.sign(privateKey, c.unsigned(hashed)))
  }

  lemma PreparesExactly(c: Crypto, b: Bundle, keyID: string, limits: Limits, forms: seq<Record>)
    ensures PrepareBundle(c, limits, WithDefaults(b, keyID)) == Ok(WithDefaults(b, keyID).(records := Some(forms)))
        <==> Signable(c, b, keyID, limits, forms)
  {
    hide CanonicalRecords, BoundedIdentifier, IntelRecords.Accepts, IntelRecords.FormsOf, IntelRecords.KeysAscend;
    if b.records.Some? {
      IntelRecords.CanonicalRecordsExactly(c.rules, limits, b.records.value, forms);
    }
  }

  /** `Sign` succeeds exactly when header, key id and records can be signed and the sealed bundle fits.
      What it signs is then the bundle it was given: the same id, sequence, times and agent schema, the
      schema filled in, and the forms of the same records. */
  lemma SignsExactly(c: Crypto, b: Bundle, keyID: string, privateKey: string, limits: Limits, s: Signed)
    ensures Sign(c, b, keyID, privateKey, limits) == Ok(s) <==>
      && NormalizeLimits(limits).Some?
      && exists forms ::
           && Signable(c, b, keyID, NormalizeLimits(limits).value, forms)
           && s.bundle == Sealed(c, b, keyID, privateKey, forms) && s.encoded == c.encode(s.bundle)
           && c.bytes(s.encoded) <= NormalizeLimits(limits).value.maxBundleBytes
  {
    hide PrepareBundle, NormalizeLimits, Signable;
    if NormalizeLimits(limits).Some? {
      var l := NormalizeLimits(limits).value;
      if Sign(c, b, keyID, privateKey, limits) == Ok(s) {
        var forms := PreparedForms(c, b, keyID, l);
        PreparesExactly(c, b, keyID, l, forms);
        assert s.bundle == Sealed(c, b, keyID, privateKey, forms) by { SignableHeader(c, b, keyID, l, forms); }
      }
      forall forms | Signable(c, b, keyID, l, forms)
        ensures PrepareBundle(c, l, WithDefaults(b, keyID)) == Ok(WithDefaults(b, keyID).(records := Some(forms)))
        ensures WithDefaults(b, keyID).schema == BUNDLE_SCHEMA && WithDefaults(b, keyID).schemaVersion == 1
      {
        PreparesExactly(c, b, keyID, l, forms);
        SignableHeader(c, b, keyID, l, forms);
      }
    }
  }

  lemma SignableHeader(c: Crypto, b: Bundle, keyID: string, limits: Limits, forms: seq<Record>)
    requires Signable(c, b, keyID, limits, forms)
    ensures WithDefaults(b, keyID).schema == BUNDLE_SCHEMA && WithDefaults(b, keyID).schemaVersion == 1
  {
    hide BoundedIdentifier, IntelRecords.Accepts, IntelRecords.FormsOf, IntelRecords.KeysAscend;
  }

  lemma PreparedForms(c: Crypto, b: Bundle, keyID: string, limits: Limits) returns (forms: seq<Record>)
    requires PrepareBundle(c, limits, WithDefaults(b, keyID)).Ok?
    ensures PrepareBundle(c, limits, WithDefaults(b, keyID)) == Ok(WithDefaults(b, keyID).(records := Some(forms)))
  {
    hide CanonicalRecords, BoundedIdentifier;
    forms := PrepareBundle(c, limits, WithDefaults(b, keyID)).value.records.value;
  }

  /** Why a signed bundle is refused: each check has its own answer, in this order. */
  lemma SignedRefusals(c: Crypto, b: Bundle, keyID: string, privateKey: string, limits: Limits,
                       trust: TrustStore, o: VerifyOptions, clock: Time)
    requires Lawful(c) && Sign(c, b, keyID, privateKey, limits).Ok? && o.limits == limits
    requires keyID in trust ==> trust[keyID] == c.publicKey(privateKey)
    ensures var s := Sign(c, b, keyID, privateKey, limits).value;
            var now := if o.now == ZERO_TIME then clock else o.now;
            var r := Verify(c, s.encoded, Some(trust), o, clock);
      if keyID !in trust then r == Err(UnknownKey)
      else if o.clockSkew < 0 then r == Err(InvalidBundle)
      else if now + o.clockSkew < s.bundle.issuedAt then r == Err(NotYetValid)
      else if s.bundle.expiresAt < now - o.clockSkew then r == Err(Expired)
      else if s.bundle.minimumAgentSchema > (if o.agentSchema > 0 then o.agentSchema else 1) then r == Err(AgentSchemaTooLow)
      else
        match o.lastAccepted
        case None => r == Ok(Verified(s.bundle, s.encoded, false))
        case Some(a) =>
          if 0 < s.bundle.sequence < a.sequence then r == Err(RolledBack)
          else if a.sequence == s.bundle.sequence
                  && (a.bundleID != s.bundle.bundleID || a.payloadSHA256 != s.bundle.payloadSHA256)
          then r == Err(SequenceConflict)
          else r == Ok(Verified(s.bundle, s.encoded, a.sequence == s.bundle.sequence))
  {
    hide PrepareBundle, NormalizeLimits, Sign, Sha256Text;
    SignedShape(c, b, keyID, privateKey, limits);
    var s := Sign(c, b, keyID, privateKey, limits).value;
    PreparedHasRecords(c, NormalizeLimits(limits).value, s.bundle);
    PreparedSequence(c, NormalizeLimits(limits).value, s.bundle);
    assert VerifyForm(c, s.encoded, NormalizeLimits(limits).value) == Ok(s.bundle);
  }

  lemma PreparedSequence(c: Crypto, limits: Limits, b: Bundle)
    requires PrepareBundle(c, limits, b).Ok?
    ensures b.sequence > 0
  {
    hide CanonicalRecords, BoundedIdentifier;
  }

  /** `Canonicalize` succeeds exactly for a sealed bundle whose header and records are as `Sign` would
      leave them but for the order, and that fits; it encodes the same bundle with the records' forms. */
  lemma CanonicalizesExactly(c: Crypto, b: Bundle, limits: Limits, encoded: string)
    ensures Canonicalize(c, b, limits) == Ok(encoded) <==>
      && NormalizeLimits(limits).Some? && b.schema != "" && b.schemaVersion != 0
      && Sha256Text(b.payloadSHA256) && b.signature != ""
      && exists forms ::
           && Signable(c, b, b.keyID, NormalizeLimits(limits).value, forms)
           && encoded == c.encode(b.(records := Some(forms)))
           && c.bytes(encoded) <= NormalizeLimits(limits).value.maxBundleBytes
  {
    hide NormalizeLimits, Signable, Sha256Text, PrepareBundle;
    if NormalizeLimits(limits).Some? {
      var l := NormalizeLimits(limits).value;
      forall forms ensures PrepareBundle(c, l, b) == Ok(b.(records := Some(forms))) <==>
        b.schema != "" && b.schemaVersion != 0 && Signable(c, b, b.keyID, l, forms)
      {
        PreparesOwn(c, b, l, forms);
      }
      if PrepareBundle(c, l, b).Ok? { PreparedRecords(c, b, l); }
    }
  }

  lemma PreparedRecords(c: Crypto, b: Bundle, limits: Limits)
    requires PrepareBundle(c, limits, b).Ok?
    ensures exists forms :: PrepareBundle(c, limits, b) == Ok(b.(records := Some(forms)))
  {
    hide CanonicalRecords, BoundedIdentifier;
    var forms := PrepareBundle(c, limits, b).value.records.value;
    assert PrepareBundle(c, limits, b) == Ok(b.(records := Some(forms)));
  }

  lemma PreparesOwn(c: Crypto, b: Bundle, limits: Limits, forms: seq<Record>)
    ensures PrepareBundle(c, limits, b) == Ok(b.(records := Some(forms))) <==>
      b.schema != "" && b.schemaVersion != 0 && Signable(c, b, b.keyID, limits, forms)
  {
    hide CanonicalRecords, BoundedIdentifier, IntelRecords.Accepts, IntelRecords.FormsOf, IntelRecords.KeysAscend;
    assert BUNDLE_SCHEMA != "";
    if b.records.Some? { IntelRecords.CanonicalRecordsExactly(c.rules, limits, b.records.value, forms); }
  }

  /** A signed bundle written in any other way is refused as not canonical, and one whose records were
      replaced by others in canonical form, with another digest, for its payload. */
  lemma TamperingIsNamed(c: Crypto, b: Bundle, keyID: string, privateKey: string, limits: Limits,
                         trust: TrustStore, o: VerifyOptions, clock: Time, bytes: string, other: seq<Record>)
    requires Lawful(c) && Sign(c, b, keyID, privateKey, limits).Ok? && o.limits == limits
    requires c.bytes(bytes) <= NormalizeLimits(limits).value.maxBundleBytes
    ensures var s := Sign(c, b, keyID, privateKey, limits).value; var r := Verify(c, bytes, Some(trust), o, clock);
      && (c.decode(bytes) == Some(s.bundle) && bytes != s.encoded ==> r == Err(NonCanonical))
      && (bytes == c.encode(s.bundle.(records := Some(other)))
          && CanonicalRecords(c.rules, NormalizeLimits(limits).value, other) == Ok(other)
          && |other| <= NormalizeLimits(limits).value.maxRecords
          && c.payloadDigest(other) != s.bundle.payloadSHA256 ==>
            r == Err(PayloadHashMismatch))
      && (c.decode(bytes).None? ==> r == Err(InvalidEncoding))
  {
    hide NormalizeLimits, Sign, Sha256Text, CanonicalRecords, BoundedIdentifier;
    SignedShape(c, b, keyID, privateKey, limits);
    var s, l := Sign(c, b, keyID, privateKey, limits).value, NormalizeLimits(limits).value;
    PreparedHasRecords(c, l, s.bundle);
  }
}
