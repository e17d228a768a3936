/** The scan text of internal/bridge/scan.go: the row parser, and its inverse on rendered snapshots. */
module ScanText {
  import opened Instants
  import opened Model
  import opened Scan

  const MAX_INPUT_BYTES := 0x40_0000
  const LINE_BUFFER := 0x1_0000

  /** Metadata keys. */
  datatype MetaKey = Timestamp | UpdatedAt | Version | Platform | Source | Scope | Exit | Fda | PublicIP

  function FieldText(f: MetaKey): string {
    match f
    case Timestamp => "timestamp"
    case UpdatedAt => "updated_at"
    case Version => "version"
    case Platform => "platform"
    case Source => "source"
    case Scope => "scope"
    case Exit => "exit"
    case Fda => "fda"
    case PublicIP => "public_ip"
  }

  function FieldOf(text: string): Option<MetaKey> {
    if text == "timestamp" then Some(Timestamp)
    else if text == "updated_at" then Some(UpdatedAt)
    else if text == "version" then Some(Version)
    else if text == "platform" then Some(Platform)
    else if text == "source" then Some(Source)
    else if text == "scope" then Some(Scope)
    else if text == "exit" then Some(Exit)
    else if text == "fda" then Some(Fda)
    else if text == "public_ip" then Some(PublicIP)
    else None
  }

  function StatusOf(text: string): CheckStatus {
    if text == "ok" then StatusOK
    else if text == "warn" then StatusWarn
    else if text == "critical" then StatusCritical
    else if text == "skip" then StatusSkip
    else if text == "error" then StatusError
    else OtherStatus(text)
  }

  function SeverityText(s: Severity): string {
    match s
    case Info => "info"
    case Warn => "warn"
    case Critical => "critical"
    case OtherSeverity(text) => text
  }

  function SeverityOf(text: string): Severity {
    if text == "info" then Info
    else if text == "warn" then Warn
    else if text == "critical" then Critical
    else OtherSeverity(text)
  }

  function ScopeOf(text: string): ScanScope {
    if text == "full" then Full
    else if text == "partial" then Partial
    else if text == "composite" then Composite
    else OtherScope(text)
  }

  function ExitOf(text: string): Option<int> {
    if text == "0" then Some(0) else if text == "1" then Some(1)
    else if text == "2" then Some(2) else if text == "3" then Some(3) else None
  }

  /** `time.Parse` with RFC 3339 and `net.ParseIP`. */
  datatype Parsers = Parsers(time: string -> Option<Time>, ip: string -> bool)

  datatype ParseError =
    | InputTooLarge | LineTooLong | ControlCharacter(line: nat) | NoSchema | DuplicateSchema(line: nat)
    | MetadataAfterResults(line: nat) | MalformedMetadata(line: nat) | UnknownKey(line: nat)
    | DuplicateKey(line: nat) | InvalidRow(line: nat) | DuplicateResult(line: nat) | TooManyResults
    | UnknownRow(line: nat) | NoResults | BadMetadata | BadSnapshot

  /** The parser between two lines. */
  datatype State = State(
    schemaSeen: bool, resultSection: bool, metadata: map<MetaKey, string>, results: seq<CheckResult>)

  const INITIAL := State(false, false, map[], [])

  predicate LineCharacters(line: string) { forall c :: c in line ==> c == '\t' || !IsControl(c) }

  function ParseResult(fields: seq<string>): Option<CheckResult> {
    if |fields| != 8 then None
    else
      var r := CheckResult(fields[1], fields[2], StatusOf(fields[3]), SeverityOf(fields[4]),
                           fields[5], fields[6], fields[7]);
      if ValidResult(r) then Some(r) else None
  }

  function HasKey(results: seq<CheckResult>, key: (string, string)): bool {
    exists r :: r in results && Key(r) == key
  }

  function MetaRow(s: State, fields: seq<string>, n: nat): Result<State, ParseError> {
    if s.resultSection then Err(MetadataAfterResults(n))
    else if |fields| != 3 || fields[1] == "" then Err(MalformedMetadata(n))
    else if FieldOf(fields[1]).None? then Err(UnknownKey(n))
    else if FieldOf(fields[1]).value in s.metadata then Err(DuplicateKey(n))
    else Ok(s.(metadata := s.metadata[FieldOf(fields[1]).value := fields[2]]))
  }

  function ResultRow(s: State, fields: seq<string>, n: nat): Result<State, ParseError> {
    match ParseResult(fields)
    case None => Err(InvalidRow(n))
    case Some(r) =>
      if HasKey(s.results, Key(r)) then Err(DuplicateResult(n))
      else if |s.results| + 1 > MAX_SCAN_RESULTS then Err(TooManyResults)
      else Ok(s.(resultSection := true, results := s.results + [r]))
  }

  /** One line, without its terminator. */
  function Row(s: State, line: string, n: nat): Result<State, ParseError> {
    if line == "" then Ok(s)
    else if !LineCharacters(line) then Err(ControlCharacter(n))
    else
      var fields := Split(line, '\t');
      if !s.schemaSeen then
        if |fields| == 2 && fields[0] == "schema" && fields[1] == "1" then Ok(s.(schemaSeen := true)) else Err(NoSchema)
      else if fields[0] == "schema" then Err(DuplicateSchema(n))
      else if fields[0] == "meta" then MetaRow(s, fields, n)
      else if fields[0] == "result" then ResultRow(s, fields, n)
      else if fields[0] == "detail" then Ok(s.(resultSection := true))
      else Err(UnknownRow(n))
  }

  function DropCR(line: string): string { if line != "" && line[|line| - 1] == '\r' then line[..|line| - 1] else line }

  /** The lines up to here, stopping at the first error.  A line that fills the buffer is too long. */
  function Rows(lines: seq<string>): Result<State, ParseError> {
    if lines == [] then Ok(INITIAL)
    else
      var n := |lines| - 1;
      match Rows(lines[..n])
      case Err(error) => Err(error)
      case Ok(s) =>
        if ByteLength(lines[n]) >= LINE_BUFFER then Err(LineTooLong) else Row(s, DropCR(lines[n]), n + 1)
  }

  predicate Required(metadata: map<MetaKey, string>) {
    {Timestamp, Version, Platform, Source, Exit, Fda} <= metadata.Keys
  }

  function ParseMetadata(p: Parsers, m: map<MetaKey, string>): Option<ScanMetadata> {
    if !Required(m) then None
    else
      var timestamp := p.time(m[Timestamp]);
      var updatedAt := if UpdatedAt in m then (if m[UpdatedAt] == "" then None else p.time(m[UpdatedAt])) else timestamp;
      var scope := if Scope in m then ScopeOf(m[Scope]) else Full;
      var address :=
        if PublicIP !in m || m[PublicIP] == "" then NoAddress else Address(m[PublicIP], p.ip(m[PublicIP]));
      if timestamp.None? || updatedAt.None? || updatedAt.value < timestamp.value
         || !ValidToken(m[Version], 64) || !ValidIdentifier(m[Platform]) || !ValidIdentifier(m[Source])
         || scope.OtherScope? || ExitOf(m[Exit]).None? || (m[Fda] != "true" && m[Fda] != "false")
         || (address.Address? && !address.parses)
      then None
      else
        Some(ScanMetadata(timestamp.value, updatedAt.value, m[Version], m[Platform], m[Source], scope,
                          ExitOf(m[Exit]).value, m[Fda] == "true", address))
  }

  function Finish(p: Parsers, s: State): Result<ScanSnapshot, ParseError> {
    if !s.schemaSeen then Err(NoSchema)
    else if s.results == [] then Err(NoResults)
    else
      match ParseMetadata(p, s.metadata)
      case None => Err(BadMetadata)
      case Some(metadata) =>
        var snapshot := ScanSnapshot(SCAN_SCHEMA_VERSION, metadata, s.results);
        if ValidSnapshot(snapshot) then Ok(snapshot) else Err(BadSnapshot)
  }

  function ParseLines(p: Parsers, lines: seq<string>): Result<ScanSnapshot, ParseError> {
    match Rows(lines)
    case Err(error) => Err(error)
    case Ok(s) => Finish(p, s)
  }

  function Parse(p: Parsers, content: string): Result<ScanSnapshot, ParseError> {
    if ByteLength(content) > MAX_INPUT_BYTES then Err(InputTooLarge) else ParseLines(p, Split(content, '\n'))
  }

  lemma {:induction false} RowsStop(lines: seq<string>, n: nat)
    requires n <= |lines| && Rows(lines[..n]).Err?
    ensures Rows(lines) == Rows(lines[..n])
  {
    hide Row, ByteLength;
    if n < |lines| {
      var m := |lines| - 1;
      assert lines[..m][..n] == lines[..n];
      RowsStop(lines[..m], n);
    } else {
      assert lines[..n] == lines;
    }
  }

  /** The loop of `ParseScan`, with its flags, its metadata map and its set of result keys. */
  method ParseScan(p: Parsers, content: string) returns (r: Result<ScanSnapshot, ParseError>)
    ensures r == Parse(p, content)
  {
    hide ByteLength, Finish, ValidResult, FieldOf, LineCharacters, Split, StatusOf, SeverityOf;
    if ByteLength(content) > MAX_INPUT_BYTES {
      return Err(InputTooLarge);
    }
    var lines := Split(content, '\n');
    var schemaSeen, resultSection := false, false;
    var metadata: map<MetaKey, string> := map[];
    var resultKeys: set<(string, string)> := {};
    var results: seq<CheckResult> := [];
    for i := 0 to |lines|
      invariant Rows(lines[..i]) == Ok(State(schemaSeen, resultSection, metadata, results))
      invariant forall key :: key in resultKeys <==> HasKey(results, key)
    {
      assert lines[..i + 1][..i] == lines[..i];
      ghost var next := Rows(lines[..i + 1]);
      if ByteLength(lines[i]) >= LINE_BUFFER {
        RowsStop(lines, i + 1);
        return Err(LineTooLong);
      }
      var line := DropCR(lines[i]);
      var moved, stop, added := ParseRow(State(schemaSeen, resultSection, metadata, results), resultKeys, line, i + 1);
      if stop.Some? {
        RowsStop(lines, i + 1);
        return Err(stop.value);
      }
      schemaSeen, resultSection, metadata := moved.schemaSeen, moved.resultSection, moved.metadata;
      results, resultKeys := moved.results, added;
    }
    assert lines[..|lines|] == lines;
    return Finish(p, State(schemaSeen, resultSection, metadata, results));
  }

  /** The body of the loop. */
  method ParseRow(s: State, resultKeys: set<(string, string)>, line: string, n: nat)
    returns (after: State, error: Option<ParseError>, keys: set<(string, string)>)
    requires forall key :: key in resultKeys <==> HasKey(s.results, key)
    ensures Row(s, line, n) == if error.Some? then Err(error.value) else Ok(after)
    ensures error.None? ==> forall key :: key in keys <==> HasKey(after.results, key)
  {
    hide ValidResult, FieldOf, LineCharacters, Split, StatusOf, SeverityOf;
    after, error, keys := s, None, resultKeys;
    if line == "" {
      return;
    }
    if !LineCharacters(line) {
      return s, Some(ControlCharacter(n)), keys;
    }
    var fields := Split(line, '\t');
    if !s.schemaSeen {
      if |fields| != 2 || fields[0] != "schema" || fields[1] != "1" {
        return s, Some(NoSchema), keys;
      }
      return s.(schemaSeen := true), None, keys;
    }
    if fields[0] == "schema" {
      return s, Some(DuplicateSchema(n)), keys;
    }
    if fields[0] == "meta" {
      var row := MetaRow(s, fields, n);
      if row.Err? {
        return s, Some(row.error), keys;
      }
      return row.value, None, keys;
    }
    if fields[0] == "result" {
      var result := ParseResult(fields);
      if result.None? {
        return s, Some(InvalidRow(n)), keys;
      }
      if Key(result.value) in resultKeys {
        return s, Some(DuplicateResult(n)), keys;
      }
      if |s.results| + 1 > MAX_SCAN_RESULTS {
        return s, Some(TooManyResults), keys;
      }
      KeySnoc(s.results, result.value);
      return s.(resultSection := true, results := s.results + [result.value]), None, keys + {Key(result.value)};
    }
    if fields[0] == "detail" {
      return s.(resultSection := true), None, keys;
    }
    return s, Some(UnknownRow(n)), keys;
  }

  lemma KeySnoc(results: seq<CheckResult>, r: CheckResult)
    ensures forall key :: HasKey(results + [r], key) <==> HasKey(results, key) || key == Key(r)
  {
    forall key ensures HasKey(results + [r], key) <==> HasKey(results, key) || key == Key(r) {
      if HasKey(results, key) {
        var x :| x in results && Key(x) == key;
        assert x in results + [r];
      }
      assert r in results + [r];
    }
  }
}
