/** Rendering a snapshot as rows and parsing it back, and the rows that do not matter. */
module ScanRoundTrip {
  import opened Instants
  import opened Model
  import opened Scan
  import opened Ingest
  import opened ScanText

  // ----- joining and splitting -----

  function Join(parts: seq<string>, separator: char): string
    requires parts != []
  {
    if |parts| == 1 then parts[0] else parts[0] + [separator] + Join(parts[1..], separator)
  }

  lemma {:induction false} SplitFirst(a: string, rest: string, separator: char)
    requires separator !in a
    ensures Split(a + [separator] + rest, separator) == [a] + Split(rest, separator)
    ensures Split(a, separator) == [a]
  {
    if a == "" {
      assert a + [separator] + rest == [separator] + rest;
      assert ([separator] + rest)[1..] == rest;
    } else {
      assert a[0] in a;
      assert (a + [separator] + rest)[1..] == a[1..] + [separator] + rest;
      SplitFirst(a[1..], rest, separator);
      assert a == [a[0]] + a[1..];
    }
  }

  lemma {:induction false} SplitJoin(parts: seq<string>, separator: char)
    requires parts != [] && forall i :: 0 <= i < |parts| ==> separator !in parts[i]
    ensures Split(Join(parts, separator), separator) == parts
  {
    if |parts| == 1 {
      SplitFirst(parts[0], "", separator);
    } else {
      SplitJoin(parts[1..], separator);
      SplitFirst(parts[0], Join(parts[1..], separator), separator);
      assert parts == [parts[0]] + parts[1..];
    }
  }

  lemma {:induction false} JoinedCharacters(parts: seq<string>, separator: char, c: char)
    requires parts != [] && c in Join(parts, separator)
    ensures c == separator || exists i :: 0 <= i < |parts| && c in parts[i]
  {
    if |parts| > 1 && c !in parts[0] && c != separator {
      JoinedCharacters(parts[1..], separator, c);
      var i :| 0 <= i < |parts[1..]| && c in parts[1..][i];
      assert c in parts[i + 1];
    }
  }

  // ----- rendering -----

  /** No control characters, hence no tab and no line end. */
  predicate Plain(s: string) { forall c :: c in s ==> !IsControl(c) }

  /** The parsers read back what is written: a time in the renderer's format; an address text is plain
      and not empty. */
  ghost predicate Inverts(p: Parsers, format: Time -> string) {
    && (forall t :: p.time(format(t)) == Some(t) && Plain(format(t)) && format(t) != "")
    && (forall text :: p.ip(text) ==> text != "" && Plain(text))
  }

  /** The address carries the parser's verdict. */
  predicate AddressJudged(p: Parsers, m: ScanMetadata) {
    m.publicIP.Address? ==> m.publicIP.parses == p.ip(m.publicIP.text)
  }

  datatype Meta = Meta(field: MetaKey, value: string)

  function ExitText(exit: int): string {
    if exit == 0 then "0" else if exit == 1 then "1" else if exit == 2 then "2" else "3"
  }

  function MetaOf(format: Time -> string, m: ScanMetadata): seq<Meta> {
    [Meta(Timestamp, format(m.timestamp)), Meta(UpdatedAt, format(m.updatedAt)), Meta(Version, m.version),
     Meta(Platform, m.platform), Meta(Source, m.source), Meta(Scope, ScopeText(m.scope)), Meta(Exit, ExitText(m.exit)),
     Meta(Fda, if m.fda then "true" else "false")]
    + (if m.publicIP.Address? then [Meta(PublicIP, m.publicIP.text)] else [])
  }

  function MetaFields(m: Meta): (fields: seq<string>)
    ensures |fields| == 3
  {
    ["meta", FieldText(m.field), m.value]
  }

  function ResultFields(r: CheckResult): (fields: seq<string>)
    ensures |fields| == 8
  {
    ["result", r.category, r.name, StatusText(r.status), SeverityText(r.severity), r.summary, r.remediation, r.guide]
  }

  function MetaLines(metas: seq<Meta>): seq<string> {
    seq(|metas|, i requires 0 <= i < |metas| => Join(MetaFields(metas[i]), '\t'))
  }

  function ResultLines(results: seq<CheckResult>): seq<string> {
    seq(|results|, i requires 0 <= i < |results| => Join(ResultFields(results[i]), '\t'))
  }

  function Render(format: Time -> string, s: ScanSnapshot): seq<string> {
    [Join(["schema", "1"], '\t')] + MetaLines(MetaOf(format, s.metadata)) + ResultLines(s.results)
  }

  /** The rows as text, each with its line end. */
  function RenderText(format: Time -> string, s: ScanSnapshot): string { Join(Render(format, s) + [""], '\n') }

  // ----- one row -----

  lemma FieldRoundTrip(f: MetaKey)
    ensures FieldOf(FieldText(f)) == Some(f) && Plain(FieldText(f)) && FieldText(f) != ""
  {
    var t := FieldText(f);
    assert |"timestamp"| == 9 && |"updated_at"| == 10 && |"version"| == 7 && |"platform"| == 8 && |"source"| == 6
      && |"scope"| == 5 && |"exit"| == 4 && |"fda"| == 3 && |"public_ip"| == 9;
    assert "timestamp"[0] == 't' && "public_ip"[0] == 'p';
  }

  lemma StatusRoundTrip(s: CheckStatus)
    requires !s.OtherStatus?
    ensures StatusOf(StatusText(s)) == s && Plain(StatusText(s))
  {
    assert |"ok"| == 2 && |"warn"| == 4 && |"critical"| == 8 && |"skip"| == 4 && |"error"| == 5;
    assert "warn"[0] == 'w' && "skip"[0] == 's';
  }

  lemma SeverityRoundTrip(s: Severity)
    requires s.Valid()
    ensures SeverityOf(SeverityText(s)) == s && Plain(SeverityText(s))
  {
    assert |"info"| == 4 && |"warn"| == 4 && |"critical"| == 8;
    assert "warn"[0] == 'w' && "info"[0] == 'i';
  }

  lemma ScopeRoundTrip(s: ScanScope)
    requires !s.OtherScope?
    ensures ScopeOf(ScopeText(s)) == s && Plain(ScopeText(s))
  {
    assert |"full"| == 4 && |"partial"| == 7 && |"composite"| == 9;
  }

  lemma ExitRoundTrip(exit: int)
    requires 0 <= exit <= 3
    ensures ExitOf(ExitText(exit)) == Some(exit) && Plain(ExitText(exit))
  {
    assert "0"[0] == '0' && "1"[0] == '1' && "2"[0] == '2' && "3"[0] == '3';
  }

  lemma PlainHasNo(s: string)
    requires Plain(s)
    ensures '\t' !in s && '\n' !in s && '\r' !in s
  {
  }

  /** A row of plain fields splits back into them and passes the character check. */
  lemma PlainRow(fields: seq<string>)
    requires fields != [] && forall i :: 0 <= i < |fields| ==> Plain(fields[i])
    requires fields[0] != ""
    ensures var line := Join(fields, '\t');
      line != "" && Split(line, '\t') == fields && LineCharacters(line) && '\n' !in line && DropCR(line) == line
  {
    hide Join, Split, Plain;
    forall i | 0 <= i < |fields| ensures '\t' !in fields[i] && '\n' !in fields[i] && '\r' !in fields[i] { PlainHasNo(fields[i]); }
    SplitJoin(fields, '\t');
    var line := Join(fields, '\t');
    forall c | c in line ensures (c == '\t' || !IsControl(c)) && c != '\n' && c != '\r' {
      JoinedCharacters(fields, '\t', c);
      if c != '\t' {
        var i :| 0 <= i < |fields| && c in fields[i];
        PlainCharacter(fields[i], c);
      }
    }
    SplitOfEmpty('\t');
    assert line == "" ==> fields == [""];
    assert line[|line| - 1] in line;
    EndsPlain(line);
  }

  lemma EndsPlain(line: string)
    requires line != "" && line[|line| - 1] != '\r'
    ensures DropCR(line) == line
  {
  }

  lemma PlainCharacter(s: string, c: char)
    requires Plain(s) && c in s
    ensures !IsControl(c) && c != '\n' && c != '\r'
  {
  }

  lemma SplitOfEmpty(separator: char)
    ensures Split("", separator) == [""]
  {
  }

  lemma TokensArePlain(value: string, maximum: nat)
    requires ValidToken(value, maximum)
    ensures Plain(value)
  {
    hide ByteLength;
  }

  lemma IdentifiersArePlain(value: string)
    requires ValidIdentifier(value)
    ensures Plain(value)
  {
    forall c | c in value ensures !IsControl(c) { assert IdentifierChar(c); }
  }

  lemma RowKinds()
    ensures "schema" != "meta" && "schema" != "result" && "meta" != "result" && "schema" != "detail"
    ensures "meta" != "detail" && "result" != "detail"
    ensures Plain("schema") && Plain("1") && Plain("meta") && Plain("result") && Plain("true") && Plain("false")
    ensures "true" != "false"
  {
    assert |"schema"| == 6 && |"meta"| == 4 && |"result"| == 6 && |"detail"| == 6;
    assert "schema"[0] == 's' && "result"[0] == 'r' && "detail"[0] == 'd' && |"true"| == 4 && |"false"| == 5;
  }

  lemma MetaRowParses(s: State, m: Meta, n: nat)
    requires s.schemaSeen && !s.resultSection && m.field !in s.metadata && Plain(m.value)
    ensures var line := Join(MetaFields(m), '\t');
      && DropCR(line) == line && '\n' !in line
      && Row(s, line, n) == Ok(s.(metadata := s.metadata[m.field := m.value]))
  {
    hide Join, Split, FieldOf, FieldText, Plain, LineCharacters, DropCR;
    FieldRoundTrip(m.field);
    RowKinds();
    MetaIsPlain(m);
    PlainRow(MetaFields(m));
  }

  lemma MetaIsPlain(m: Meta)
    requires Plain(m.value)
    ensures forall i :: 0 <= i < |MetaFields(m)| ==> Plain(MetaFields(m)[i])
    ensures MetaFields(m)[0] != ""
  {
    hide Plain, FieldText;
    FieldRoundTrip(m.field);
    RowKinds();
    assert |"meta"| == 4;
  }

  lemma ResultRowParses(s: State, r: CheckResult, n: nat)
    requires s.schemaSeen && ValidResult(r) && !HasKey(s.results, Key(r)) && |s.results| < MAX_SCAN_RESULTS
    ensures var line := Join(ResultFields(r), '\t');
      && DropCR(line) == line && '\n' !in line
      && Row(s, line, n) == Ok(s.(resultSection := true, results := s.results + [r]))
  {
    hide Join, Split, StatusOf, StatusText, SeverityOf, SeverityText, Plain, LineCharacters, DropCR, ValidResult, HasKey;
    RowKinds();
    ResultIsPlain(r);
    PlainRow(ResultFields(r));
    assert ParseResult(ResultFields(r)) == Some(r);
  }

  lemma ResultIsPlain(r: CheckResult)
    requires ValidResult(r)
    ensures forall i :: 0 <= i < |ResultFields(r)| ==> Plain(ResultFields(r)[i])
    ensures ResultFields(r)[0] != ""
    ensures StatusOf(StatusText(r.status)) == r.status && SeverityOf(SeverityText(r.severity)) == r.severity
  {
    hide Plain, ValidToken, ValidIdentifier, StatusOf, StatusText, SeverityOf, SeverityText;
    RowKinds();
    assert |"result"| == 6;
    StatusRoundTrip(r.status);
    SeverityRoundTrip(r.severity);
    IdentifiersArePlain(r.category);
    IdentifiersArePlain(r.name);
    TokensArePlain(r.summary, MAX_SCAN_LINE_BYTES);
    EmptyIsPlain();
    if r.remediation != "" { TokensArePlain(r.remediation, MAX_SCAN_LINE_BYTES); }
    if r.guide != "" { TokensArePlain(r.guide, 1024); }
  }

  lemma EmptyIsPlain()
    ensures Plain("")
  {
  }

  // ----- all rows -----

  predicate Short(lines: seq<string>) { forall i :: 0 <= i < |lines| ==> ByteLength(lines[i]) < LINE_BUFFER }

  lemma RowsSnoc(lines: seq<string>, line: string, s: State)
    requires Rows(lines) == Ok(s) && ByteLength(line) < LINE_BUFFER
    ensures Rows(lines + [line]) == Row(s, DropCR(line), |lines| + 1)
  {
    hide Row, ByteLength, DropCR;
    assert (lines + [line])[..|lines|] == lines;
  }

  function MapOf(metas: seq<Meta>): map<MetaKey, string> {
    if metas == [] then map[]
    else MapOf(metas[..|metas| - 1])[metas[|metas| - 1].field := metas[|metas| - 1].value]
  }

  ghost predicate MetaFits(metas: seq<Meta>) {
    && (forall i :: 0 <= i < |metas| ==> Plain(metas[i].value))
    && (forall i, j :: 0 <= i < j < |metas| ==> metas[i].field != metas[j].field)
  }

  lemma {:induction false} MapHas(metas: seq<Meta>, f: MetaKey)
    ensures f in MapOf(metas) <==> exists i :: 0 <= i < |metas| && metas[i].field == f
  {
    if metas != [] {
      var front := metas[..|metas| - 1];
      MapHas(front, f);
      if f in MapOf(front) {
        var i :| 0 <= i < |front| && front[i].field == f;
        assert metas[i].field == f;
      }
    }
  }

  lemma MetaSnoc(front: seq<Meta>, last: Meta)
    requires MetaFits(front + [last])
    ensures MetaFits(front) && Plain(last.value) && last.field !in MapOf(front)
    ensures MapOf(front + [last]) == MapOf(front)[last.field := last.value]
    ensures MetaLines(front + [last]) == MetaLines(front) + [Join(MetaFields(last), '\t')]
  {
    hide Plain, Join;
    var all := front + [last];
    assert all[|front|] == last && all[..|front|] == front && forall i :: 0 <= i < |front| ==> all[i] == front[i];
    MapHas(front, last.field);
  }

  lemma MetaLineStep(lines: seq<string>, s: State, m: Meta)
    requires Rows(lines) == Ok(s) && s.schemaSeen && !s.resultSection && m.field !in s.metadata && Plain(m.value)
    requires ByteLength(Join(MetaFields(m), '\t')) < LINE_BUFFER
    ensures Rows(lines + [Join(MetaFields(m), '\t')]) == Ok(s.(metadata := s.metadata[m.field := m.value]))
  {
    hide Row, ByteLength, DropCR, Join, Plain, Rows, MetaFields;
    MetaRowParses(s, m, |lines| + 1);
    RowsSnoc(lines, Join(MetaFields(m), '\t'), s);
  }

  lemma {:induction false} MetaLinesParse(head: seq<string>, s: State, metas: seq<Meta>)
    requires Rows(head) == Ok(s) && s.schemaSeen && !s.resultSection && s.metadata == map[]
    requires MetaFits(metas) && Short(MetaLines(metas))
    ensures Rows(head + MetaLines(metas)) == Ok(s.(metadata := MapOf(metas)))
  {
    hide Row, ByteLength, DropCR, Join, Plain, Rows, MetaFields;
    if metas == [] {
      assert head + MetaLines(metas) == head;
    } else {
      hide MetaFits, MapOf, MetaLines, Short;
      var front, last := metas[..|metas| - 1], metas[|metas| - 1];
      assert metas == front + [last];
      MetaSnoc(front, last);
      var lines, line := MetaLines(front), Join(MetaFields(last), '\t');
      ShortSnoc(lines, line);
      MetaLinesParse(head, s, front);
      MetaLineStep(head + lines, s.(metadata := MapOf(front)), last);
      assert head + MetaLines(metas) == head + lines + [line];
    }
  }

  lemma ShortSnoc(lines: seq<string>, line: string)
    requires Short(lines + [line])
    ensures Short(lines) && ByteLength(line) < LINE_BUFFER
  {
    hide ByteLength;
    var all := lines + [line];
    assert all[|lines|] == line && forall i :: 0 <= i < |lines| ==> all[i] == lines[i];
  }

  lemma ResultLineStep(lines: seq<string>, s: State, r: CheckResult)
    requires Rows(lines) == Ok(s) && s.schemaSeen && !HasKey(s.results, Key(r)) && ValidResult(r)
    requires |s.results| < MAX_SCAN_RESULTS && ByteLength(Join(ResultFields(r), '\t')) < LINE_BUFFER
    ensures Rows(lines + [Join(ResultFields(r), '\t')])
         == Ok(s.(resultSection := true, results := s.results + [r]))
  {
    hide Row, ByteLength, DropCR, Join, Rows, ResultFields, ValidResult, HasKey;
    ResultRowParses(s, r, |lines| + 1);
    RowsSnoc(lines, Join(ResultFields(r), '\t'), s);
  }

  lemma ResultSnoc(front: seq<CheckResult>, last: CheckResult)
    requires DistinctKeys(front + [last])
    ensures DistinctKeys(front) && !HasKey(front, Key(last))
    ensures ResultLines(front + [last]) == ResultLines(front) + [Join(ResultFields(last), '\t')]
  {
    hide Join, ResultFields, HasKey;
    var all := front + [last];
    assert all[|front|] == last && forall i :: 0 <= i < |front| ==> all[i] == front[i];
    NewKey(front, last);
  }

  lemma {:induction false} ResultLinesParse(head: seq<string>, s: State, results: seq<CheckResult>)
    requires Rows(head) == Ok(s) && s.schemaSeen && !s.resultSection && s.results == []
    requires (forall r :: r in results ==> ValidResult(r)) && DistinctKeys(results) && |results| <= MAX_SCAN_RESULTS
    requires Short(ResultLines(results))
    ensures Rows(head + ResultLines(results)) == Ok(s.(resultSection := results != [], results := results))
  {
    hide Row, ByteLength, DropCR, Join, Rows, ResultFields, ValidResult, HasKey;
    if results == [] {
      assert head + ResultLines(results) == head;
    } else {
      hide ResultLines, Short, DistinctKeys;
      var front, last := results[..|results| - 1], results[|results| - 1];
      assert results == front + [last];
      ResultSnoc(front, last);
      var lines, line := ResultLines(front), Join(ResultFields(last), '\t');
      ShortSnoc(lines, line);
      ResultLinesParse(head, s, front);
      ResultLineStep(head + lines, s.(resultSection := front != [], results := front), last);
      assert head + ResultLines(results) == head + lines + [line];
    }
  }

  lemma NewKey(front: seq<CheckResult>, last: CheckResult)
    requires DistinctKeys(front + [last])
    ensures !HasKey(front, Key(last))
  {
    var all := front + [last];
    forall r | r in front ensures Key(r) != Key(last) {
      var i :| 0 <= i < |front| && front[i] == r;
      assert Key(all[i]) != Key(all[|front|]);
    }
  }

  lemma MetaOfFits(p: Parsers, format: Time -> string, m: ScanMetadata)
    requires Inverts(p, format) && ValidMetadata(m) && AddressJudged(p, m)
    ensures MetaFits(MetaOf(format, m))
  {
    hide Plain, ValidToken, ValidIdentifier, ScopeText, ExitText, ScopeOf, ExitOf;
    TokensArePlain(m.version, 64);
    IdentifiersArePlain(m.platform);
    IdentifiersArePlain(m.source);
    ScopeRoundTrip(m.scope);
    ExitRoundTrip(m.exit);
    RowKinds();
    var metas := MetaOf(format, m);
    forall i | 0 <= i < |metas| ensures Plain(metas[i].value) {
    }
  }

  /** What the rendered metadata rows leave in the map. */
  ghost predicate Carries(format: Time -> string, m: ScanMetadata, v: map<MetaKey, string>) {
    && Required(v) && UpdatedAt in v && Scope in v
    && v[Timestamp] == format(m.timestamp) && v[UpdatedAt] == format(m.updatedAt) && v[Version] == m.version
    && v[Platform] == m.platform && v[Source] == m.source && v[Scope] == ScopeText(m.scope)
    && v[Exit] == ExitText(m.exit) && v[Fda] == (if m.fda then "true" else "false")
    && (PublicIP in v <==> m.publicIP.Address?) && (m.publicIP.Address? ==> v[PublicIP] == m.publicIP.text)
  }

  lemma {:induction false} MapValue(metas: seq<Meta>, i: nat)
    requires i < |metas| && forall j, k :: 0 <= j < k < |metas| ==> metas[j].field != metas[k].field
    ensures metas[i].field in MapOf(metas) && MapOf(metas)[metas[i].field] == metas[i].value
  {
    if i < |metas| - 1 { MapValue(metas[..|metas| - 1], i); }
  }

  lemma MetaOfCarries(format: Time -> string, m: ScanMetadata)
    requires MetaFits(MetaOf(format, m))
    ensures Carries(format, m, MapOf(MetaOf(format, m)))
  {
    hide Plain, ScopeText, ExitText, MapOf;
    var metas := MetaOf(format, m);
    forall i | 0 <= i < |metas| ensures metas[i].field in MapOf(metas) && MapOf(metas)[metas[i].field] == metas[i].value {
      MapValue(metas, i);
    }
    assert metas[0].field == Timestamp && metas[1].field == UpdatedAt && metas[2].field == Version && metas[3].field == Platform;
    assert metas[4].field == Source && metas[5].field == Scope && metas[6].field == Exit && metas[7].field == Fda;
    MapHas(metas, PublicIP);
    if m.publicIP.Address? { assert metas[8].field == PublicIP; }
  }

  lemma CarriedMetadataParses(p: Parsers, format: Time -> string, m: ScanMetadata, v: map<MetaKey, string>)
    requires Inverts(p, format) && ValidMetadata(m) && AddressJudged(p, m) && Carries(format, m, v)
    ensures ParseMetadata(p, v) == Some(m)
  {
    hide Plain, ValidToken, ValidIdentifier, ScopeText, ExitText, ScopeOf, ExitOf;
    ScopeRoundTrip(m.scope);
    ExitRoundTrip(m.exit);
    RowKinds();
    assert p.time(format(m.timestamp)) == Some(m.timestamp) && p.time(format(m.updatedAt)) == Some(m.updatedAt);
    if m.publicIP.Address? { assert p.ip(m.publicIP.text); }
  }

  /** The parser's state after the rendered rows. */
  lemma RenderedRows(p: Parsers, format: Time -> string, s: ScanSnapshot)
    requires Inverts(p, format) && ValidSnapshot(s) && AddressJudged(p, s.metadata) && Short(Render(format, s))
    ensures Rows(Render(format, s)) == Ok(State(true, true, MapOf(MetaOf(format, s.metadata)), s.results))
    ensures MetaFits(MetaOf(format, s.metadata))
  {
    hide Row, Join, Plain, MetaOf, ValidResult, Inverts, ByteLength, ExpectedExit, ValidMetadata;
    var head, metas := [Join(["schema", "1"], '\t')], MetaLines(MetaOf(format, s.metadata));
    MetaOfFits(p, format, s.metadata);
    var rows := Render(format, s);
    assert forall i :: 0 <= i < |metas| ==> rows[1 + i] == metas[i];
    assert forall i :: 0 <= i < |s.results| ==> rows[1 + |metas| + i] == ResultLines(s.results)[i];
    assert head[0] == rows[0];
    SchemaParses(head);
    var start := State(true, false, map[], []);
    MetaLinesParse(head, start, MetaOf(format, s.metadata));
    ResultLinesParse(head + metas, start.(metadata := MapOf(MetaOf(format, s.metadata))), s.results);
  }

  lemma SchemaParses(head: seq<string>)
    requires head == [Join(["schema", "1"], '\t')] && Short(head)
    ensures Rows(head) == Ok(State(true, false, map[], []))
  {
    hide Join, Split, Plain, LineCharacters, DropCR, ByteLength;
    RowKinds();
    var fields := ["schema", "1"];
    assert |"schema"| == 6;
    PlainRow(fields);
    assert Rows([]) == Ok(INITIAL) && [] + head == head;
    RowsSnoc([], head[0], INITIAL);
  }

  /** The text of a rendered snapshot and each of its rows fit the parser's limits. */
  predicate Fits(format: Time -> string, s: ScanSnapshot) {
    ByteLength(RenderText(format, s)) <= MAX_INPUT_BYTES && Short(Render(format, s))
  }

  lemma RenderedLines(p: Parsers, format: Time -> string, s: ScanSnapshot)
    requires Inverts(p, format) && ValidSnapshot(s) && AddressJudged(p, s.metadata)
    ensures Split(RenderText(format, s), '\n') == Render(format, s) + [""]
  {
    hide Join, Split, Plain, ValidResult, Inverts, ValidMetadata, ByteLength, ExpectedExit, MetaOf;
    var lines := Render(format, s) + [""];
    forall i | 0 <= i < |lines| ensures '\n' !in lines[i] { if i < |lines| - 1 { RenderedLineIsOne(p, format, s, i); } }
    SplitJoin(lines, '\n');
  }

  lemma RenderedLineIsOne(p: Parsers, format: Time -> string, s: ScanSnapshot, i: nat)
    requires Inverts(p, format) && ValidSnapshot(s) && AddressJudged(p, s.metadata) && i < |Render(format, s)|
    ensures '\n' !in Render(format, s)[i]
  {
    hide Join, Plain, ValidResult, Inverts, ValidMetadata, ByteLength, ExpectedExit, MetaOf, LineCharacters, DropCR, Split;
    var metas := MetaOf(format, s.metadata);
    RowKinds();
    assert |"schema"| == 6;
    if i == 0 {
      PlainRow(["schema", "1"]);
    } else if i <= |metas| {
      MetaOfFits(p, format, s.metadata);
      MetaIsPlain(metas[i - 1]);
      PlainRow(MetaFields(metas[i - 1]));
    } else {
      ResultIsPlain(s.results[i - 1 - |metas|]);
      PlainRow(ResultFields(s.results[i - 1 - |metas|]));
    }
  }

  /** A rendered valid snapshot parses back to itself, exactly when text and rows fit the limits: a
      valid summary can be as long as the line buffer, and its row then is too long. */
  lemma RenderThenParse(p: Parsers, format: Time -> string, s: ScanSnapshot)
    requires Inverts(p, format) && ValidSnapshot(s) && AddressJudged(p, s.metadata)
    ensures Parse(p, RenderText(format, s)) == Ok(s) <==> Fits(format, s)
    ensures !Fits(format, s) ==> Parse(p, RenderText(format, s)).Err?
  {
    hide RenderText, Render, Row, ByteLength, Split, ValidSnapshot, Inverts, MetaOf, MapOf;
    var rows := Render(format, s);
    RenderedLines(p, format, s);
    if !Short(rows) {
      var i :| 0 <= i < |rows| && ByteLength(rows[i]) >= LINE_BUFFER;
      LongLineFails(rows + [""], i);
    } else {
      RenderedRows(p, format, s);
      EmptyLine(rows);
      RenderedFinishes(p, format, s);
    }
  }

  lemma EmptyLine(rows: seq<string>)
    ensures Rows(rows).Ok? ==> Rows(rows + [""]) == Rows(rows)
  {
    hide ByteLength;
    if Rows(rows).Ok? {
      EmptyIsShort();
      RowsSnoc(rows, "", Rows(rows).value);
    }
  }

  lemma EmptyIsShort()
    ensures ByteLength("") < LINE_BUFFER
  {
  }

  lemma RenderedFinishes(p: Parsers, format: Time -> string, s: ScanSnapshot)
    requires Inverts(p, format) && ValidSnapshot(s) && AddressJudged(p, s.metadata)
    requires MetaFits(MetaOf(format, s.metadata))
    ensures Finish(p, State(true, true, MapOf(MetaOf(format, s.metadata)), s.results)) == Ok(s)
  {
    hide MapOf, MetaOf, ParseMetadata, ValidResult, ExpectedExit, Inverts, Carries, ValidMetadata;
    MetaOfCarries(format, s.metadata);
    CarriedMetadataParses(p, format, s.metadata, MapOf(MetaOf(format, s.metadata)));
  }

  lemma LongLineFails(lines: seq<string>, i: nat)
    requires i < |lines| && ByteLength(lines[i]) >= LINE_BUFFER
    ensures Rows(lines).Err?
  {
    hide Row, ByteLength;
    assert lines[..i + 1][..i] == lines[..i];
    RowsStop(lines, i + 1);
  }

  // ----- a valid snapshot that does not fit -----

  lemma {:induction false} BytesAdd(a: string, b: string)
    ensures ByteLength(a + b) == ByteLength(a) + ByteLength(b)
  {
    if b == "" {
      assert a + b == a;
    } else {
      assert (a + b)[..|a + b| - 1] == a + b[..|b| - 1];
      BytesAdd(a, b[..|b| - 1]);
    }
  }

  lemma {:induction false} JoinedIsLonger(parts: seq<string>, separator: char, i: nat)
    requires i < |parts|
    ensures ByteLength(Join(parts, separator)) >= ByteLength(parts[i])
  {
    hide ByteLength;
    if |parts| > 1 {
      var rest := Join(parts[1..], separator);
      BytesAdd(parts[0] + [separator], rest);
      BytesAdd(parts[0], [separator]);
      if i > 0 { JoinedIsLonger(parts[1..], separator, i - 1); }
    }
  }

  /** A summary of the allowed length makes its row too long for the parser. */
  lemma LongSummaryDoesNotFit(format: Time -> string, s: ScanSnapshot, i: nat)
    requires i < |s.results| && ByteLength(s.results[i].summary) >= MAX_SCAN_LINE_BYTES
    ensures !Fits(format, s)
  {
    hide ByteLength, Join, MetaOf, RenderText;
    var row := Render(format, s)[1 + |MetaOf(format, s.metadata)| + i];
    assert row == ResultLines(s.results)[i] == Join(ResultFields(s.results[i]), '\t');
    assert ResultFields(s.results[i])[5] == s.results[i].summary;
    JoinedIsLonger(ResultFields(s.results[i]), '\t', 5);
  }

  function OneRow(summary: string): ScanSnapshot {
    ScanSnapshot(SCAN_SCHEMA_VERSION, ScanMetadata(0, 0, "v", "p", "s", Full, 0, true, NoAddress),
                 [CheckResult("c", "n", StatusOK, Info, summary, "", "")])
  }

  lemma {:induction false} AsciiBytes(s: string)
    requires forall i :: 0 <= i < |s| ==> s[i] < '\U{80}'
    ensures ByteLength(s) == |s|
  {
    if s != "" { AsciiBytes(s[..|s| - 1]); }
  }

  lemma OneRowIsValid(summary: string)
    requires 0 < |summary| <= MAX_SCAN_LINE_BYTES && forall i :: 0 <= i < |summary| ==> summary[i] == 'x'
    ensures ValidSnapshot(OneRow(summary))
  {
    hide ByteLength;
    AsciiBytes(summary);
    AsciiBytes("v");
    assert summary[0] in summary && summary[|summary| - 1] in summary;
    var s := OneRow(summary);
    assert ValidResult(s.results[0]);
    assert s.results[..0] == [];
    assert ExpectedExit(s.results) == 0;
  }

  /** Such a snapshot: one ok row whose summary has the greatest allowed length.  It is valid, and its
      rendering does not parse. */
  lemma LongSummaryDoesNotParse(p: Parsers, format: Time -> string, summary: string)
    requires Inverts(p, format)
    requires |summary| == MAX_SCAN_LINE_BYTES && forall i :: 0 <= i < |summary| ==> summary[i] == 'x'
    ensures ValidSnapshot(OneRow(summary)) && Parse(p, RenderText(format, OneRow(summary))).Err?
  {
    hide ByteLength, Parse, RenderText, Fits, ValidSnapshot, Inverts;
    OneRowIsValid(summary);
    AsciiBytes(summary);
    LongSummaryDoesNotFit(format, OneRow(summary), 0);
    RenderThenParse(p, format, OneRow(summary));
  }

  // ----- rows that change nothing -----

  function Kind(line: string): string { Split(DropCR(line), '\t')[0] }

  /** A blank line, or a well-formed detail row. */
  predicate Idle(line: string) {
    && ByteLength(line) < LINE_BUFFER
    && (DropCR(line) == "" || (LineCharacters(DropCR(line)) && Kind(line) == "detail"))
  }

  /** Equal but for the section flag. */
  ghost predicate Alike(a: Result<State, ParseError>, b: Result<State, ParseError>) {
    && (a.Ok? <==> b.Ok?)
    && (a.Ok? ==> a.value.(resultSection := false) == b.value.(resultSection := false))
  }

  lemma RowIgnoresSection(s: State, t: State, line: string, n: nat, m: nat)
    requires s.(resultSection := false) == t.(resultSection := false) && (line == "" || Split(line, '\t')[0] != "meta")
    ensures Alike(Row(s, line, n), Row(t, line, m))
  {
    hide Split, LineCharacters, ParseResult, HasKey;
  }

  lemma {:induction false} TailIgnoresSection(a: seq<string>, b: seq<string>, tail: seq<string>)
    requires Alike(Rows(a), Rows(b))
    requires forall i :: 0 <= i < |tail| ==> DropCR(tail[i]) == "" || Kind(tail[i]) != "meta"
    ensures Alike(Rows(a + tail), Rows(b + tail))
  {
    hide Row, ByteLength, DropCR, Split;
    if tail == [] {
      assert a + tail == a && b + tail == b;
    } else {
      var front, last := tail[..|tail| - 1], tail[|tail| - 1];
      TailIgnoresSection(a, b, front);
      assert (a + tail)[..|a + tail| - 1] == a + front && (b + tail)[..|b + tail| - 1] == b + front;
      if Rows(a + front).Ok? {
        RowIgnoresSection(Rows(a + front).value, Rows(b + front).value, DropCR(last), |a + tail|, |b + tail|);
      }
    }
  }

  /** A blank or detail row added after the schema row and the metadata changes nothing: the text still
      parses to the same snapshot, or still does not parse. */
  lemma IdleRowChangesNothing(p: Parsers, a: seq<string>, line: string, b: seq<string>)
    requires Idle(line) && (Rows(a).Ok? ==> Rows(a).value.schemaSeen)
    requires forall i :: 0 <= i < |b| ==> DropCR(b[i]) == "" || Kind(b[i]) != "meta"
    ensures var longer, shorter := ParseLines(p, a + [line] + b), ParseLines(p, a + b);
      (longer.Ok? <==> shorter.Ok?) && (longer.Ok? ==> longer == shorter)
  {
    hide ByteLength, LineCharacters, Split, DropCR;
    RowKinds();
    assert Alike(Rows(a), Rows(a + [line])) by {
      if Rows(a).Ok? {
        RowsSnoc(a, line, Rows(a).value);
      } else {
        assert (a + [line])[..|a|] == a;
        RowsStop(a + [line], |a|);
      }
    }
    hide Row;
    TailIgnoresSection(a, a + [line], b);
  }
}
