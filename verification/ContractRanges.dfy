/** How far each field of a valid contract may move, one at a time: the limits of
    internal/controller/types.go and internal/bridge/scan.go, read off their validators. */
module ContractRanges {
  import opened Instants
  import opened Model
  import opened Scan
  import opened Contracts

  function Repeat(c: char, n: nat): string { seq(n, i => c) }

  /** Names of policies, groups, devices and actors have 1 to 128 characters; scan identifiers too. */
  lemma NameLengths(c: char, n: nat)
    requires 'a' <= c <= 'z' || 'A' <= c <= 'Z' || '0' <= c <= '9' || c == '_' || c == '-'
    ensures ValidName(Repeat(c, n)) <==> 1 <= n <= 128
    ensures ValidIdentifier(Repeat(c, n)) <==> 1 <= n <= 128
  {
    var s := Repeat(c, n);
    if n > 0 { assert s[0] == c; }
    forall x | x in s ensures x == c { }
  }

  /** Any other character is refused wherever it stands; a name may be "." or "..", an identifier not. */
  lemma NameCharacters(a: string, c: char, b: string)
    requires !('a' <= c <= 'z' || 'A' <= c <= 'Z' || '0' <= c <= '9' || c == '.' || c == '_' || c == '-')
    ensures !ValidName(a + [c] + b) && !ValidIdentifier(a + [c] + b)
    ensures ValidName(".") && ValidName("..") && !ValidIdentifier(".") && !ValidIdentifier("..")
  {
    assert c in a + [c] + b;
  }

  lemma {:induction false} RepeatTrims(c: char, n: nat)
    requires !IsSpace(c) && c < '\U{80}'
    ensures TrimRight(TrimLeft(Repeat(c, n))) == Repeat(c, n) && ByteLength(Repeat(c, n)) == n
  {
    if n > 0 {
      RepeatTrims(c, n - 1);
      assert Repeat(c, n)[..n - 1] == Repeat(c, n - 1);
      assert Repeat(c, n)[0] == c && Repeat(c, n)[n - 1] == c;
    }
  }

  /** Device names and versions have up to 256 bytes, platforms up to 64, and none is empty. */
  lemma DeviceLengths(m: DeviceMetadata, n: nat)
    requires ValidDeviceMetadata(m)
    ensures var text := Repeat('a', n);
      && (ValidDeviceMetadata(m.(name := text)) <==> 1 <= n <= 256)
      && (ValidDeviceMetadata(m.(platform := text)) <==> 1 <= n <= 64)
      && (ValidDeviceMetadata(m.(osVersion := text)) <==> 1 <= n <= 256)
      && (ValidDeviceMetadata(m.(agentVersion := text)) <==> 1 <= n <= 256)
  {
    hide TrimLeft, TrimRight, ByteLength;
    RepeatTrims('a', n);
    forall x | x in Repeat('a', n) ensures !IsControl(x) { }
  }

  /** A scan interval of a minute to 31 days, a jitter below it; reports, if any, every minute to 31 days;
      up to 512 checks, and a positive revision. */
  lemma PolicyRanges(d: PolicyDocument)
    requires ValidPolicy(d)
    ensures forall n: nat :: ValidPolicy(d.(revision := n)) <==> n > 0
    ensures forall n: nat :: ValidPolicy(d.(jitterSeconds := n)) <==> n < d.scanIntervalSeconds
    ensures forall n: nat :: ValidPolicy(d.(scanIntervalSeconds := n)) <==>
      60 <= n <= 2_678_400 && d.jitterSeconds < n
    ensures forall n: nat :: ValidPolicy(d.(reportingEnabled := true, syncIntervalSeconds := n)) <==>
      60 <= n <= 2_678_400
    ensures forall n: nat :: ValidPolicy(d.(reportingEnabled := false, syncIntervalSeconds := n)) <==> n == 0
    ensures forall n :: ValidPolicy(d.(schemaVersion := n)) <==> n == 1
    ensures forall s :: ValidPolicy(d.(schema := s)) <==> s == "io.oh-my-safety/organization-policy"
    ensures forall m :: ValidPolicy(d.(remediation := m)) <==> m == Observe || m == Prompt || m == SafeAutomatic
    ensures forall p :: ValidPolicy(d.(profile := p)) <==> p.Preset?
  {
    hide ValidName;
  }

  /** The checks are 1 to 512, with valid names, no two alike. */
  lemma PolicyChecks(d: PolicyDocument, checks: seq<PolicyCheck>)
    requires ValidPolicy(d)
    ensures ValidPolicy(d.(checks := checks)) <==>
      && 1 <= |checks| <= 512 && (forall c :: c in checks ==> ValidName(c.id))
      && (forall i, j :: 0 <= i < |checks| && 0 <= j < |checks| && checks[i].id == checks[j].id ==> i == j)
  {
    hide ValidName;
  }

  /** A report is at most five minutes ahead of the clock, and its findings of the report; it holds up to
      2000 findings, each seen at least once and of a known severity. */
  lemma ReportRanges(r: Report, now: Time, f: RedactedFinding)
    requires ValidReport(r, now) && f in r.findings
    ensures forall t: int :: 0 <= t ==> (ValidReport(r.(reportedAt := t, findings := []), now) <==>
      t != ZERO_TIME && t - now <= 300 * SECOND)
    ensures ValidRedacted(f, r.reportedAt)
    ensures forall n: nat :: ValidRedacted(f.(occurrences := n), r.reportedAt) <==> n > 0
    ensures forall s :: ValidRedacted(f.(severity := s), r.reportedAt) <==> s == Info || s == Warn || s == Critical
    ensures forall t :: ValidRedacted(f.(lastSeen := t), r.reportedAt) <==>
      t != ZERO_TIME && f.firstSeen <= t && t - r.reportedAt <= 300 * SECOND
    ensures forall t :: ValidRedacted(f.(firstSeen := t), r.reportedAt) <==> t != ZERO_TIME && t <= f.lastSeen
    ensures |r.findings| <= 2_000
  {
    hide ValidName;
  }

  /** The severities each status allows. */
  lemma AcceptedSeverities(status: CheckStatus, severity: Severity)
    ensures SeverityFits(status, severity) <==>
      (status, severity) in {(StatusOK, Info), (StatusSkip, Info), (StatusWarn, Info), (StatusWarn, Warn),
                             (StatusCritical, Critical), (StatusError, Critical)}
  {
  }

  /** What a valid row may change: texts without control characters that neither start nor end with a
      space, and no other guide than a plain relative path. */
  lemma ResultRanges(r: CheckResult)
    requires ValidResult(r)
    ensures ValidResult(r.(remediation := "")) && ValidResult(r.(guide := "")) && !ValidResult(r.(summary := ""))
    ensures forall s :: ValidResult(r.(remediation := s)) <==> s == "" || ValidToken(s, 65_536)
    ensures forall s :: ValidResult(r.(summary := s)) <==> ValidToken(s, 65_536)
    ensures forall s :: ValidResult(r.(guide := s)) <==> s == "" || ValidGuide(s)
    ensures !ValidResult(r.(category := "")) && !ValidResult(r.(name := ".."))
  {
    hide ValidToken, ValidGuide;
    assert !ValidToken("", 65_536) by { EmptyIsNoToken(); }
  }

  lemma EmptyIsNoToken()
    ensures !ValidToken("", 65_536)
  {
  }

  /** The metadata of a valid snapshot, one field at a time. */
  lemma MetadataRanges(m: ScanMetadata)
    requires ValidMetadata(m)
    ensures forall t :: ValidMetadata(m.(timestamp := t)) <==> t != ZERO_TIME && t <= m.updatedAt
    ensures forall t :: ValidMetadata(m.(updatedAt := t)) <==> t != ZERO_TIME && t >= m.timestamp
    ensures forall n :: ValidMetadata(m.(exit := n)) <==> 0 <= n < 4
    ensures forall s :: ValidMetadata(m.(scope := s)) <==> s == Full || s == Partial || s == Composite
    ensures forall s :: ValidMetadata(m.(version := s)) <==> ValidToken(s, 64)
    ensures forall s :: ValidMetadata(m.(platform := s)) <==> ValidIdentifier(s)
    ensures forall s :: ValidMetadata(m.(source := s)) <==> ValidIdentifier(s)
    ensures forall text, parses :: ValidMetadata(m.(publicIP := Address(text, parses))) <==> parses
  {
    hide ValidToken, ValidIdentifier;
  }

  /** An event carries schema, id, type, both times and a source, and its payload, if any, is JSON. */
  lemma EventsValidExactly(e: Event)
    ensures ValidateEvent(e).None? <==>
      && e.schema == "io.oh-my-safety/event" && e.schemaVersion == 1 && e.occurredAt != ZERO_TIME
      && e.recordedAt != ZERO_TIME && e.payload != NotJson
      && (exists c :: c in e.id && !IsSpace(c)) && (exists c :: c in e.kind && !IsSpace(c))
      && (exists c :: c in e.source && !IsSpace(c))
  {
  }

  /** The characters that count as spaces and as control characters, by code point. */
  lemma CharacterClasses(c: char)
    ensures IsSpace(c) <==>
      9 <= c as int <= 13 || 8192 <= c as int <= 8202
      || c as int in {32, 133, 160, 5760, 8232, 8233, 8239, 8287, 12288}
    ensures IsControl(c) <==> c as int < 32 || 127 <= c as int < 160
  {
  }

  /** A token's limit counts UTF-8 bytes, of which a character has 1 to 4. */
  lemma {:induction false} TokenBytes(c: char, n: nat)
    requires !IsSpace(c) && !IsControl(c)
    ensures ByteLength(Repeat(c, n)) ==
      n * (if c as int < 128 then 1 else if c as int < 2_048 then 2 else if c as int < 65_536 then 3 else 4)
    ensures forall maximum: nat :: ValidToken(Repeat(c, n), maximum) <==> n > 0 && ByteLength(Repeat(c, n)) <= maximum
  {
    if n > 0 {
      TokenBytes(c, n - 1);
      assert Repeat(c, n)[..n - 1] == Repeat(c, n - 1) && Repeat(c, n)[n - 1] == c;
    }
    forall x | x in Repeat(c, n) ensures x == c { }
  }

  /** A token neither starts nor ends with a space and holds no control character. */
  lemma TokenCharacters(s: string, maximum: nat, c: char)
    ensures ValidToken(s, maximum) ==> s != "" && !IsSpace(s[0]) && !IsSpace(s[|s| - 1])
    ensures IsSpace(c) ==> !ValidToken([c] + s, maximum) && !ValidToken(s + [c], maximum)
    ensures IsControl(c) && c in s ==> !ValidToken(s, maximum)
  {
    hide IsSpace, IsControl, ByteLength;
    assert ([c] + s)[0] == c && (s + [c])[|s|] == c;
  }

  /** A guide is relative, has no backslash, and does not climb out of its directory. */
  lemma GuidesStayInside(s: string)
    requires ValidGuide(s)
    ensures s != "" && s[0] != '/' && s != "." && s != ".." && !("../" <= s) && '\\' !in s
  {
    hide ByteLength, IsSpace, IsControl;
    var first := Split(s, '/')[0];
    assert first in Split(s, '/');
    FirstSegment(s);
  }

  lemma FirstSegment(s: string)
    requires s != ""
    ensures s[0] == '/' ==> Split(s, '/')[0] == ""
    ensures s == "." ==> Split(s, '/')[0] == "."
    ensures s == ".." ==> Split(s, '/')[0] == ".."
    ensures "../" <= s ==> Split(s, '/')[0] == ".."
  {
    if |s| >= 2 && s[0] == '.' && s[1] == '.' && (|s| == 2 || s[2] == '/') {
      var a, b := s[1..], s[2..];
      assert a[1..] == b;
      assert Split(b, '/')[0] == "";
      assert Split(a, '/')[0] == ['.'] + Split(b, '/')[0];
      assert Split(s, '/')[0] == ['.'] + Split(a, '/')[0];
    }
    if s == "." {
      assert s[1..] == "";
    }
  }
}
