/** Installing intelligence bundles: the immutable content-addressed files and `current.json`, of
    internal/intel/install.go. */
module IntelInstall {
  import opened Instants
  import opened Model
  import opened IntelCanonical
  import opened IntelSign

  const CURRENT_SCHEMA := "io.oh-my-safety/intelligence-current"

  /** What `current.json` holds. */
  datatype Metadata = Metadata(
    schema: string, schemaVersion: int, bundleFile: string, bundleID: string, sequence: nat,
    payloadSHA256: string, bundleSHA256: string, keyID: string)

  /** The directory: bundle files by name, and `current.json`. */
  datatype Store = Store(bundles: map<string, string>, current: Option<Metadata>)

  const EMPTY_STORE := Store(map[], None)

  /** What the callers of one directory share.  `isHash` is the pattern of a SHA-256 text; it is left
      open because a hash without collisions has no fixed length. */
  datatype Site = Site(
    crypto: Crypto, hash: string -> string, isHash: string -> bool, trust: Option<TrustStore>, limits: Limits)

  ghost predicate LawfulSite(s: Site) {
    && IntelSign.Lawful(s.crypto)
    && (forall x, y :: s.hash(x) == s.hash(y) ==> x == y)
    && (forall x :: s.isHash(s.hash(x)))
    && NormalizeLimits(s.limits).Some?
  }

  datatype InstallError = NoCurrentBundle | CurrentStateBroken | Refused(error: IntelError)

  function FileName(hash: string): string { "bundle-" + hash + ".json" }

  predicate ValidMetadata(s: Site, m: Metadata) {
    && m.schema == CURRENT_SCHEMA && m.schemaVersion == 1
    && m.bundleFile == FileName(m.bundleSHA256) && s.isHash(m.bundleSHA256)
    && BoundedIdentifier(m.bundleID, 128) && m.sequence > 0
    && Sha256Text(m.payloadSHA256) && BoundedIdentifier(m.keyID, 128)
  }

  /** The bytes are the bundle the metadata describes. */
  predicate Fits(s: Site, limits: Limits, m: Metadata, bytes: string) {
    && s.crypto.bytes(bytes) <= limits.maxBundleBytes
    && s.hash(bytes) == m.bundleSHA256
    && var decoded := s.crypto.decode(bytes);
       && decoded.Some?
       && var b := decoded.value;
          && PrepareBundle(s.crypto, limits, b).Ok?
          && s.crypto.encode(PrepareBundle(s.crypto, limits, b).value) == bytes
          && b.bundleID == m.bundleID && b.sequence == m.sequence
          && b.payloadSHA256 == m.payloadSHA256 && b.keyID == m.keyID
  }

  datatype Current = Current(metadata: Metadata, bytes: string)

  /** `ReadCurrent`, from `current.json` and a possibly later state of the bundle files. */
  function Follow(s: Site, metadata: Option<Metadata>, bundles: map<string, string>): Result<Current, InstallError> {
    var limits := NormalizeLimits(s.limits);
    if limits.None? then Err(Refused(InvalidLimits))
    else if metadata.None? then Err(NoCurrentBundle)
    else if !ValidMetadata(s, metadata.value) || metadata.value.bundleFile !in bundles
            || !Fits(s, limits.value, metadata.value, bundles[metadata.value.bundleFile])
    then Err(CurrentStateBroken)
    else Ok(Current(metadata.value, bundles[metadata.value.bundleFile]))
  }

  function ReadCurrent(s: Site, st: Store): Result<Current, InstallError> { Follow(s, st.current, st.bundles) }

  function AcceptanceOf(m: Metadata): Acceptance { Acceptance(m.bundleID, m.sequence, m.payloadSHA256) }

  function StrongerAcceptance(caller: Option<Acceptance>, current: Acceptance): Result<Acceptance, IntelError> {
    if caller.None? || caller.value.sequence == 0 then Ok(current)
    else if current.sequence == 0 then Ok(caller.value)
    else if caller.value.sequence > current.sequence then Ok(caller.value)
    else if current.sequence > caller.value.sequence then Ok(current)
    else if caller.value.bundleID != current.bundleID || caller.value.payloadSHA256 != current.payloadSHA256
    then Err(SequenceConflict)
    else Ok(current)
  }

  /** One call: the bytes, the options (with the site's limits) and the clock. */
  datatype Attempt = Attempt(encoded: string, now: Time, clockSkew: int, agentSchema: int,
                             lastAccepted: Option<Acceptance>, clock: Time)

  function VerifyAgainst(s: Site, a: Attempt, last: Option<Acceptance>): Result<Verified, IntelError> {
    Verify(s.crypto, a.encoded, s.trust, VerifyOptions(s.limits, a.now, a.clockSkew, a.agentSchema, last), a.clock)
  }

  function MetadataOf(s: Site, v: Verified): Metadata {
    var hash := s.hash(v.canonical);
    Metadata(CURRENT_SCHEMA, 1, FileName(hash), v.bundle.bundleID, v.bundle.sequence, v.bundle.payloadSHA256,
             hash, v.bundle.keyID)
  }

  /** What an install decided before it writes: keep everything, or publish. */
  datatype Plan = Keep(metadata: Metadata) | Publish(metadata: Metadata, bytes: string, replay: bool)

  function Decide(s: Site, st: Store, a: Attempt): Result<Plan, InstallError> {
    var current := ReadCurrent(s, st);
    if current.Err? && current.error != NoCurrentBundle then Err(current.error)
    else
      var last :=
        if current.Err? then Ok(a.lastAccepted)
        else
          match StrongerAcceptance(a.lastAccepted, AcceptanceOf(current.value.metadata))
          case Ok(x) => Ok(Some(x))
          case Err(error) => Err(error);
      if last.Err? then Err(Refused(last.error))
      else
        match VerifyAgainst(s, a, last.value)
        case Err(error) => Err(Refused(error))
        case Ok(v) =>
          var metadata := MetadataOf(s, v);
          if current.Ok? && v.replay && current.value == Current(metadata, v.canonical) then Ok(Keep(metadata))
          else Ok(Publish(metadata, v.canonical, v.replay))
  }

  /** `writeImmutableFile`: an existing file must hold the same content. */
  function PutBundle(bundles: map<string, string>, name: string, content: string): Option<map<string, string>> {
    if name in bundles then if bundles[name] == content then Some(bundles) else None
    else Some(bundles[name := content])
  }

  datatype Installed = Installed(metadata: Metadata, installed: bool, replay: bool)

  function Install(s: Site, st: Store, a: Attempt): (Store, Result<Installed, InstallError>) {
    match Decide(s, st, a)
    case Err(error) => (st, Err(error))
    case Ok(Keep(metadata)) => (st, Ok(Installed(metadata, false, true)))
    case Ok(Publish(metadata, bytes, replay)) =>
      match PutBundle(st.bundles, metadata.bundleFile, bytes)
      case None => (st, Err(CurrentStateBroken))
      case Some(bundles) => (Store(bundles, Some(metadata)), Ok(Installed(metadata, true, replay)))
  }

  /** The directory when the process dies after the first `k` of the two writes. */
  function InstallPrefix(s: Site, st: Store, a: Attempt, k: nat): Store {
    var plan := Decide(s, st, a);
    if k == 0 || plan.Err? || plan.value.Keep? then st
    else if k == 1 then
      var bundles := PutBundle(st.bundles, plan.value.metadata.bundleFile, plan.value.bytes);
      if bundles.Some? then st.(bundles := bundles.value) else st
    else Install(s, st, a).0
  }

  /** The directory as an object. */
  class Directory {
    const site: Site
    var bundles: map<string, string>
    var current: Option<Metadata>

    constructor (site: Site)
      ensures this.site == site && State() == EMPTY_STORE
    {
      this.site := site;
      bundles, current := map[], None;
    }

    function State(): Store
      reads this
    {
      Store(bundles, current)
    }

    method WriteImmutableFile(name: string, content: string) returns (ok: bool)
      modifies this`bundles
      ensures ok <==> PutBundle(old(bundles), name, content).Some?
      ensures bundles == if ok then PutBundle(old(bundles), name, content).value else old(bundles)
    {
      if name in bundles {
        return bundles[name] == content;
      }
      bundles := bundles[name := content];
      return true;
    }

    method Read() returns (r: Result<Current, InstallError>)
      ensures r == ReadCurrent(site, State())
    {
      return Follow(site, current, bundles);
    }

    method InstallBundle(a: Attempt) returns (r: Result<Installed, InstallError>)
      modifies this
      ensures (State(), r) == Install(site, old(State()), a)
    {
      hide Follow, Verify, PutBundle, NormalizeLimits;
      var existing := Read();
      var last := a.lastAccepted;
      if existing.Ok? {
        var stronger := StrongerAcceptance(last, AcceptanceOf(existing.value.metadata));
        if stronger.Err? {
          return Err(Refused(stronger.error));
        }
        last := Some(stronger.value);
      } else if existing.error != NoCurrentBundle {
        return Err(existing.error);
      }
      var verified := VerifyAgainst(site, a, last);
      if verified.Err? {
        return Err(Refused(verified.error));
      }
      var metadata := MetadataOf(site, verified.value);
      if existing.Ok? && verified.value.replay && existing.value == Current(metadata, verified.value.canonical) {
        return Ok(Installed(metadata, false, true));
      }
      var written := WriteImmutableFile(metadata.bundleFile, verified.value.canonical);
      if !written {
        return Err(CurrentStateBroken);
      }
      current := Some(metadata);
      return Ok(Installed(metadata, true, verified.value.replay));
    }
  }

  const CHUNK := 0x1_0000

  /** The loop of `writeAndSync`: each call of `Write` takes as much of a chunk as it likes.  A file
      reported complete holds the whole content; otherwise it holds a prefix. */
  method WriteAndSync(content: string, taken: nat -> nat) returns (file: string, ok: bool)
    ensures ok ==> file == content
    ensures file <= content
  {
    file := "";
    var offset, calls := 0, 0;
    while offset < |content|
      invariant 0 <= offset <= |content| && file == content[..offset]
      decreases |content| - offset
    {
      var end := offset + CHUNK;
      if end > |content| {
        end := |content|;
      }
      var count := if taken(calls) <= end - offset then taken(calls) else end - offset;
      if count == 0 {
        return file, false;
      }
      assert content[..offset] + content[offset..offset + count] == content[..offset + count];
      file := file + content[offset..offset + count];
      offset, calls := offset + count, calls + 1;
    }
    return file, true;
  }
}
