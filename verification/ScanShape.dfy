/** Exactly which scan texts parse, and to what: the shape of the rows, without the parser's state. */
module ScanShape {
  import opened Model
  import opened Scan
  import opened Ingest
  import opened ScanText

  // ----- rows -----

  ghost predicate Empty(line: string) { DropCR(line) == "" }

  function Fields(line: string): (fields: seq<string>)
    ensures |fields| > 0
  {
    Split(DropCR(line), '\t')
  }

  /** Some row above line `n` is not empty; the first such row is the schema row. */
  ghost predicate Started(lines: seq<string>, n: int) {
    exists j :: 0 <= j < n && j < |lines| && !Empty(lines[j])
  }

  /** Line `j` is a row of this kind, below the schema row. */
  ghost predicate Kind(lines: seq<string>, j: int, kind: string) {
    0 <= j < |lines| && !Empty(lines[j]) && Started(lines, j) && Fields(lines[j])[0] == kind
  }

  /** A result or detail row stands above line `n`. */
  ghost predicate Section(lines: seq<string>, n: int) {
    exists j :: 0 <= j < n && (Kind(lines, j, "result") || Kind(lines, j, "detail"))
  }

  ghost predicate MetaAt(lines: seq<string>, j: int, key: MetaKey, value: string) {
    Kind(lines, j, "meta") && Fields(lines[j]) == ["meta", FieldText(key), value]
  }

  ghost predicate ResultAt(lines: seq<string>, j: int, r: CheckResult) {
    && Kind(lines, j, "result") && ValidResult(r)
    && Fields(lines[j]) == ["result", r.category, r.name, StatusText(r.status), SeverityText(r.severity), r.summary,
                            r.remediation, r.guide]
  }

  /** The results of the rows, in order. */
  ghost predicate ResultsAre(lines: seq<string>, results: seq<CheckResult>)
    decreases |lines|
  {
    if lines == [] then results == []
    else
      var n := |lines| - 1;
      if Kind(lines, n, "result") then
        results != [] && ResultAt(lines, n, results[|results| - 1]) && ResultsAre(lines[..n], results[..|results| - 1])
      else ResultsAre(lines[..n], results)
  }

  ghost predicate NewKey(lines: seq<string>, i: int, key: MetaKey) {
    forall j, value :: 0 <= j < i ==> !MetaAt(lines, j, key, value)
  }

  ghost predicate NewResult(lines: seq<string>, i: int, r: CheckResult) {
    forall j, q :: 0 <= j < i && ResultAt(lines, j, q) ==> Key(q) != Key(r)
  }

  /** Fewer than the allowed number of results stand above line `i`. */
  ghost predicate RoomFor(lines: seq<string>, i: nat)
    requires i <= |lines|
  {
    exists results :: ResultsAre(lines[..i], results) && |results| < 4_096
  }

  /** Line `i` is allowed after the lines above it. */
  ghost predicate Fits(lines: seq<string>, i: nat)
    requires i < |lines|
  {
    && ByteLength(lines[i]) < 0x1_0000
    && (Empty(lines[i])
        || ((forall c :: c in DropCR(lines[i]) ==> c == '\t' || !IsControl(c))
            && (if !Started(lines, i) then Fields(lines[i]) == ["schema", "1"]
                else
                  || (Kind(lines, i, "meta") && !Section(lines, i)
                      && exists key, value :: MetaAt(lines, i, key, value) && NewKey(lines, i, key))
                  || (Kind(lines, i, "result") && RoomFor(lines, i)
                      && exists r :: ResultAt(lines, i, r) && NewResult(lines, i, r))
                  || Kind(lines, i, "detail"))))
  }

  // ----- the parser's state, in terms of the lines -----

  ghost predicate MetadataAre(lines: seq<string>, metadata: map<MetaKey, string>) {
    forall key ::
      && (key in metadata ==> exists j :: MetaAt(lines, j, key, metadata[key]))
      && (forall j, value :: MetaAt(lines, j, key, value) ==> key in metadata && metadata[key] == value)
  }

  ghost predicate StateIs(lines: seq<string>, s: State) {
    && (s.schemaSeen <==> Started(lines, |lines|)) && (s.resultSection <==> Section(lines, |lines|))
    && MetadataAre(lines, s.metadata) && ResultsAre(lines, s.results)
    && (forall r :: r in s.results <==> exists j :: ResultAt(lines, j, r))
  }

  lemma FieldTexts(text: string, key: MetaKey)
    ensures FieldOf(text) == Some(key) <==> text == FieldText(key)
  {
    assert |FieldText(Timestamp)| == 9 && |FieldText(UpdatedAt)| == 10 && |FieldText(Version)| == 7;
    assert |FieldText(Platform)| == 8 && |FieldText(Source)| == 6 && |FieldText(Scope)| == 5;
    assert |FieldText(Exit)| == 4 && |FieldText(Fda)| == 3 && |FieldText(PublicIP)| == 9;
    assert FieldText(Timestamp)[0] == 't' && FieldText(PublicIP)[0] == 'p';
  }

  lemma NoFieldText(text: string)
    ensures FieldOf(text).None? <==> forall key :: text != FieldText(key)
  {
    forall key ensures FieldOf(text) == Some(key) <==> text == FieldText(key) { FieldTexts(text, key); }
  }

  lemma ResultFields(fields: seq<string>, r: CheckResult)
    requires |fields| > 0 && fields[0] == "result"
    ensures ParseResult(fields) == Some(r) <==>
      ValidResult(r)
      && fields == ["result", r.category, r.name, StatusText(r.status), SeverityText(r.severity), r.summary,
                    r.remediation, r.guide]
  {
    hide ValidIdentifier, ValidToken, ValidGuide;
  }

  /** The lines above a line are the same in every longer text. */
  lemma FrontAgrees(lines: seq<string>, n: nat)
    requires n <= |lines|
    ensures forall i: int :: i <= n ==> Started(lines[..n], i) == Started(lines, i)
    ensures forall j, kind :: j < n ==> Kind(lines[..n], j, kind) == Kind(lines, j, kind)
    ensures forall i: int :: i <= n ==> Section(lines[..n], i) == Section(lines, i)
    ensures forall j, key, value :: j < n ==> MetaAt(lines[..n], j, key, value) == MetaAt(lines, j, key, value)
    ensures forall j, r :: j < n ==> ResultAt(lines[..n], j, r) == ResultAt(lines, j, r)
  {
    hide Empty, Fields, ValidResult, StatusText, SeverityText, FieldText;
    var front := lines[..n];
    forall i: int | i <= n ensures Started(front, i) == Started(lines, i) {
      if Started(lines, i) {
        var j :| 0 <= j < i && j < |lines| && !Empty(lines[j]);
        assert !Empty(front[j]);
      }
      if Started(front, i) {
        var j :| 0 <= j < i && j < |front| && !Empty(front[j]);
        assert !Empty(lines[j]);
      }
    }
    forall j, kind | j < n ensures Kind(front, j, kind) == Kind(lines, j, kind) {
      if 0 <= j { assert front[j] == lines[j]; }
    }
    forall i: int | i <= n ensures Section(front, i) == Section(lines, i) {
      if Section(lines, i) {
        var j :| 0 <= j < i && (Kind(lines, j, "result") || Kind(lines, j, "detail"));
        assert Kind(front, j, "result") || Kind(front, j, "detail");
      }
      if Section(front, i) {
        var j :| 0 <= j < i && (Kind(front, j, "result") || Kind(front, j, "detail"));
        assert Kind(lines, j, "result") || Kind(lines, j, "detail");
      }
    }
  }

  lemma FitsFront(lines: seq<string>, n: nat, i: nat)
    requires i < n <= |lines|
    ensures Fits(lines[..n], i) == Fits(lines, i)
  {
    hide Empty, Fields, Kind, Section, Started, MetaAt, ResultAt, ResultsAre;
    FrontAgrees(lines, n);
    assert lines[..n][i] == lines[i] && lines[..n][..i] == lines[..i];
    forall key | NewKey(lines, i, key) || NewKey(lines[..n], i, key)
      ensures NewKey(lines[..n], i, key) && NewKey(lines, i, key)
    {
    }
    forall r | NewResult(lines, i, r) || NewResult(lines[..n], i, r)
      ensures NewResult(lines[..n], i, r) && NewResult(lines, i, r)
    {
    }
  }

  /** What the last line adds. */
  lemma LastLine(lines: seq<string>, n: nat)
    requires |lines| == n + 1
    ensures Started(lines, n + 1) <==> Started(lines[..n], n) || !Empty(lines[n])
    ensures Section(lines, n + 1) <==> Section(lines[..n], n) || Kind(lines, n, "result") || Kind(lines, n, "detail")
    ensures forall kind :: Kind(lines, n, kind) <==>
      !Empty(lines[n]) && Started(lines[..n], n) && Fields(lines[n])[0] == kind
  {
    hide Empty, Fields;
    FrontAgrees(lines, n);
    if Started(lines, n + 1) && Empty(lines[n]) {
      var j :| 0 <= j < n + 1 && j < |lines| && !Empty(lines[j]);
      assert Started(lines, n);
    }
    if Started(lines[..n], n) {
      var j :| 0 <= j < n && !Empty(lines[j]);
      assert Started(lines, n + 1);
    }
    if Section(lines, n + 1) {
      var j :| 0 <= j < n + 1 && (Kind(lines, j, "result") || Kind(lines, j, "detail"));
      if j < n { assert Section(lines, n); }
    }
  }

  lemma MetadataNext(lines: seq<string>, n: nat, metadata: map<MetaKey, string>)
    requires |lines| == n + 1 && MetadataAre(lines[..n], metadata)
    ensures (forall key, value :: !MetaAt(lines, n, key, value)) ==> MetadataAre(lines, metadata)
    ensures forall key, value :: MetaAt(lines, n, key, value) && key !in metadata ==>
      MetadataAre(lines, metadata[key := value])
    ensures forall key :: NewKey(lines, n, key) <==> key !in metadata
  {
    hide MetaAt;
    FrontAgrees(lines, n);
    forall j, key, value | MetaAt(lines, j, key, value) ensures 0 <= j <= n { MetaInLines(lines, j, key, value); }
    forall j, key, value | MetaAt(lines[..n], j, key, value) ensures 0 <= j < n {
      MetaInLines(lines[..n], j, key, value);
    }
    forall key ensures NewKey(lines, n, key) <==> key !in metadata {
      if key in metadata {
        var j :| MetaAt(lines[..n], j, key, metadata[key]);
        assert MetaAt(lines, j, key, metadata[key]);
      }
    }
    if forall key, value :: !MetaAt(lines, n, key, value) {
      forall key | key in metadata ensures exists j :: MetaAt(lines, j, key, metadata[key]) {
        var j :| MetaAt(lines[..n], j, key, metadata[key]);
        assert MetaAt(lines, j, key, metadata[key]);
      }
    }
    forall key, value | MetaAt(lines, n, key, value) && key !in metadata ensures MetadataAre(lines, metadata[key := value]) {
      OneMore(lines, n, metadata, key, value);
    }
  }

  lemma MetaInLines(lines: seq<string>, j: int, key: MetaKey, value: string)
    requires MetaAt(lines, j, key, value)
    ensures 0 <= j < |lines|
  {
  }

  lemma OneMore(lines: seq<string>, n: nat, metadata: map<MetaKey, string>, key: MetaKey, value: string)
    requires |lines| == n + 1 && MetadataAre(lines[..n], metadata)
    requires MetaAt(lines, n, key, value) && key !in metadata
    requires forall j, k, v :: j < n ==> MetaAt(lines[..n], j, k, v) == MetaAt(lines, j, k, v)
    requires forall j, k, v :: MetaAt(lines, j, k, v) ==> 0 <= j <= n
    requires forall j, k, v :: MetaAt(lines[..n], j, k, v) ==> 0 <= j < n
    ensures MetadataAre(lines, metadata[key := value])
  {
    hide MetaAt;
    var after := metadata[key := value];
    forall k, v | MetaAt(lines, n, k, v) ensures k == key && v == value { OneMeta(lines, n, key, value, k, v); }
    forall k | k in after ensures exists j :: MetaAt(lines, j, k, after[k]) {
      if k == key {
        assert MetaAt(lines, n, k, after[k]);
      } else {
        var j :| MetaAt(lines[..n], j, k, metadata[k]);
        assert MetaAt(lines, j, k, after[k]);
      }
    }
    forall j, k, v | MetaAt(lines, j, k, v) ensures k in after && after[k] == v {
      if j < n { assert MetaAt(lines[..n], j, k, v); }
    }
  }

  lemma OneMeta(lines: seq<string>, j: int, key: MetaKey, value: string, k: MetaKey, v: string)
    requires MetaAt(lines, j, key, value) && MetaAt(lines, j, k, v)
    ensures k == key && v == value
  {
    var fields := Fields(lines[j]);
    assert fields[1] == FieldText(key) == FieldText(k);
    FieldTexts(fields[1], key);
    FieldTexts(fields[1], k);
  }

  /** The results so far are those of the rows. */
  ghost predicate Collected(lines: seq<string>, results: seq<CheckResult>) {
    ResultsAre(lines, results) && forall r :: r in results <==> exists j :: ResultAt(lines, j, r)
  }

  lemma ResultInLines(lines: seq<string>, j: int, r: CheckResult)
    requires ResultAt(lines, j, r)
    ensures 0 <= j < |lines| && Kind(lines, j, "result")
  {
  }

  lemma OneResult(lines: seq<string>, j: int, r: CheckResult, q: CheckResult)
    requires ResultAt(lines, j, r) && ResultAt(lines, j, q)
    ensures r == q
  {
    hide ValidResult;
    ResultFields(Fields(lines[j]), r);
    ResultFields(Fields(lines[j]), q);
  }

  lemma ResultsNext(lines: seq<string>, n: nat, results: seq<CheckResult>)
    requires |lines| == n + 1 && Collected(lines[..n], results)
    ensures !Kind(lines, n, "result") ==> Collected(lines, results)
    ensures forall r :: ResultAt(lines, n, r) ==> Collected(lines, results + [r])
    ensures forall r :: NewResult(lines, n, r) <==> !HasKey(results, Key(r))
  {
    hide ResultAt, Kind;
    FrontAgrees(lines, n);
    forall j, r | ResultAt(lines, j, r) ensures 0 <= j <= n && Kind(lines, j, "result") { ResultInLines(lines, j, r); }
    forall j, r | ResultAt(lines[..n], j, r) ensures 0 <= j < n { ResultInLines(lines[..n], j, r); }
    forall r ensures NewResult(lines, n, r) <==> !HasKey(results, Key(r)) {
      if HasKey(results, Key(r)) {
        var q :| q in results && Key(q) == Key(r);
        var j :| ResultAt(lines[..n], j, q);
        assert ResultAt(lines, j, q);
      }
      if !NewResult(lines, n, r) {
        var j, q :| 0 <= j < n && ResultAt(lines, j, q) && Key(q) == Key(r);
        assert ResultAt(lines[..n], j, q);
      }
    }
    forall r, j | ResultAt(lines[..n], j, r) ensures ResultAt(lines, j, r) { }
    if !Kind(lines, n, "result") {
      forall r ensures r in results <==> exists j :: ResultAt(lines, j, r) {
        if r in results {
          var j :| ResultAt(lines[..n], j, r);
          assert ResultAt(lines, j, r);
        }
        if j :| ResultAt(lines, j, r) { assert ResultAt(lines[..n], j, r); }
      }
    }
    forall r | ResultAt(lines, n, r) ensures Collected(lines, results + [r]) {
      assert (results + [r])[..|results|] == results;
      forall q ensures q in results + [r] <==> exists j :: ResultAt(lines, j, q) {
        if q in results {
          var j :| ResultAt(lines[..n], j, q);
          assert ResultAt(lines, j, q);
        }
        if j :| ResultAt(lines, j, q) {
          if j == n { OneResult(lines, n, r, q); } else { assert ResultAt(lines[..n], j, q); }
        }
      }
    }
  }

  /** The rows above a line have one list of results. */
  lemma {:induction false} ResultsOnce(lines: seq<string>, a: seq<CheckResult>, b: seq<CheckResult>)
    requires ResultsAre(lines, a) && ResultsAre(lines, b)
    ensures a == b
    decreases |lines|
  {
    hide ResultAt, Kind;
    if lines != [] {
      var n := |lines| - 1;
      if Kind(lines, n, "result") {
        OneResult(lines, n, a[|a| - 1], b[|b| - 1]);
        ResultsOnce(lines[..n], a[..|a| - 1], b[..|b| - 1]);
        assert a == a[..|a| - 1] + [a[|a| - 1]] && b == b[..|b| - 1] + [b[|b| - 1]];
      } else {
        ResultsOnce(lines[..n], a, b);
      }
    }
  }

  // ----- the parser reads this shape -----

  lemma MetaStep(lines: seq<string>, n: nat, s: State)
    requires |lines| == n + 1 && StateIs(lines[..n], s) && Kind(lines, n, "meta")
    ensures MetaRow(s, Fields(lines[n]), n + 1).Ok? <==>
      !Section(lines, n) && exists key, value :: MetaAt(lines, n, key, value) && NewKey(lines, n, key)
    ensures MetaRow(s, Fields(lines[n]), n + 1).Ok? ==> StateIs(lines, MetaRow(s, Fields(lines[n]), n + 1).value)
  {
    hide Fields, Kind, Section, Started, FieldOf, FieldText, ResultsAre, ResultAt;
    var fields := Fields(lines[n]);
    FrontAgrees(lines, n);
    LastLine(lines, n);
    MetadataNext(lines, n, s.metadata);
    ResultsNext(lines, n, s.results);
    assert fields[0] == "meta" by { KindIs(lines, n, "meta"); }
    assert !Kind(lines, n, "result") && !Kind(lines, n, "detail") by { OneKind(lines, n, "meta"); }
    if |fields| == 3 {
      NoFieldText(fields[1]);
      forall key ensures FieldOf(fields[1]) == Some(key) <==> fields[1] == FieldText(key) { FieldTexts(fields[1], key); }
      FieldsNotEmpty();
      assert fields == ["meta", fields[1], fields[2]];
      if FieldOf(fields[1]).Some? {
        assert MetaAt(lines, n, FieldOf(fields[1]).value, fields[2]);
      }
    }
  }

  lemma FieldsNotEmpty()
    ensures forall key :: FieldText(key) != ""
  {
  }

  lemma KindIs(lines: seq<string>, n: nat, kind: string)
    requires Kind(lines, n, kind)
    ensures n < |lines| && Fields(lines[n])[0] == kind && !Empty(lines[n]) && Started(lines, n)
  {
  }

  lemma OneKind(lines: seq<string>, n: nat, kind: string)
    requires Kind(lines, n, kind)
    ensures forall other :: Kind(lines, n, other) ==> other == kind
    ensures "meta" != "result" && "meta" != "detail" && "result" != "detail" && "schema" != "meta"
    ensures "schema" != "result" && "schema" != "detail"
  {
    assert "meta"[0] == 'm' && "result"[0] == 'r' && "detail"[0] == 'd' && "schema"[0] == 's';
  }

  lemma ResultStep(lines: seq<string>, n: nat, s: State)
    requires |lines| == n + 1 && StateIs(lines[..n], s) && Kind(lines, n, "result")
    ensures ResultRow(s, Fields(lines[n]), n + 1).Ok? <==>
      RoomFor(lines, n) && exists r :: ResultAt(lines, n, r) && NewResult(lines, n, r)
    ensures ResultRow(s, Fields(lines[n]), n + 1).Ok? ==> StateIs(lines, ResultRow(s, Fields(lines[n]), n + 1).value)
  {
    hide Fields, Kind, Section, Started, MetaAt, ResultsAre, ParseResult, HasKey;
    var fields := Fields(lines[n]);
    FrontAgrees(lines, n);
    LastLine(lines, n);
    MetadataNext(lines, n, s.metadata);
    ResultsNext(lines, n, s.results);
    KindIs(lines, n, "result");
    OneKind(lines, n, "result");
    assert forall key, value :: !MetaAt(lines, n, key, value) by { NoMetaRow(lines, n, "result"); }
    forall r ensures ParseResult(fields) == Some(r) <==> ResultAt(lines, n, r) { ResultFields(fields, r); }
    assert RoomFor(lines, n) <==> |s.results| < 4_096 by {
      forall results | ResultsAre(lines[..n], results) ensures results == s.results {
        ResultsOnce(lines[..n], results, s.results);
      }
    }
    if ParseResult(fields).Some? { assert ResultAt(lines, n, ParseResult(fields).value); }
  }

  lemma NoMetaRow(lines: seq<string>, n: nat, kind: string)
    requires Kind(lines, n, kind) && kind != "meta"
    ensures forall key, value :: !MetaAt(lines, n, key, value)
  {
  }

  /** The last line leaves metadata and results alone. */
  lemma QuietLine(lines: seq<string>, n: nat, s: State, s': State)
    requires |lines| == n + 1 && StateIs(lines[..n], s)
    requires !Kind(lines, n, "meta") && !Kind(lines, n, "result")
    requires s'.metadata == s.metadata && s'.results == s.results
    requires s'.schemaSeen <==> s.schemaSeen || !Empty(lines[n])
    requires s'.resultSection <==> s.resultSection || Kind(lines, n, "detail")
    ensures StateIs(lines, s')
  {
    hide Fields, Section, Started, ResultsAre, ResultAt, Empty;
    LastLine(lines, n);
    MetadataNext(lines, n, s.metadata);
    ResultsNext(lines, n, s.results);
    forall key, value ensures !MetaAt(lines, n, key, value) { }
  }

  lemma RowStep(lines: seq<string>, n: nat, s: State)
    requires |lines| == n + 1 && StateIs(lines[..n], s)
    ensures ByteLength(lines[n]) < 0x1_0000 ==> (Row(s, DropCR(lines[n]), n + 1).Ok? <==> Fits(lines, n))
    ensures Row(s, DropCR(lines[n]), n + 1).Ok? ==> StateIs(lines, Row(s, DropCR(lines[n]), n + 1).value)
  {
    hide StateIs, MetaRow, ResultRow, DropCR, ByteLength, Started, Section, MetaAt, ResultAt, NewKey, NewResult, RoomFor;
    hide Split, Kind;
    LastLine(lines, n);
    FrontAgrees(lines, n);
    SeenIsStarted(lines[..n], s);
    if Empty(lines[n]) {
      NotARow(lines, n);
      QuietLine(lines, n, s, s);
    } else if LineCharacters(DropCR(lines[n])) {
      if !s.schemaSeen {
        HeaderIsPair(lines[n]);
        NotARow(lines, n);
        QuietLine(lines, n, s, s.(schemaSeen := true));
      } else {
        var kind := Fields(lines[n])[0];
        assert Kind(lines, n, kind);
        OneKind(lines, n, kind);
        if kind == "meta" {
          MetaStep(lines, n, s);
        } else if kind == "result" {
          ResultStep(lines, n, s);
        } else if kind == "detail" {
          QuietLine(lines, n, s, s.(resultSection := true));
        }
      }
    }
  }

  lemma SeenIsStarted(lines: seq<string>, s: State)
    requires StateIs(lines, s)
    ensures s.schemaSeen <==> Started(lines, |lines|)
    ensures s.resultSection <==> Section(lines, |lines|)
  {
    hide ResultsAre, MetadataAre, Section, Started;
  }

  lemma HeaderIsPair(line: string)
    ensures |Fields(line)| == 2 && Fields(line)[0] == "schema" && Fields(line)[1] == "1" <==> Fields(line) == ["schema", "1"]
  {
    hide Fields;
  }

  lemma NotARow(lines: seq<string>, n: nat)
    requires n < |lines| && (Empty(lines[n]) || !Started(lines, n))
    ensures forall kind :: !Kind(lines, n, kind)
  {
  }

  /** The row parser goes through exactly the lines that fit, and reads them. */
  lemma {:induction false} RowsExactly(lines: seq<string>)
    ensures Rows(lines).Ok? <==> forall i :: 0 <= i < |lines| ==> Fits(lines, i)
    ensures Rows(lines).Ok? ==> StateIs(lines, Rows(lines).value)
  {
    hide Row, Fits, StateIs, ByteLength, DropCR;
    if lines == [] {
      NothingRead();
    } else {
      var n := |lines| - 1;
      RowsExactly(lines[..n]);
      forall i | 0 <= i < n ensures Fits(lines[..n], i) == Fits(lines, i) { FitsFront(lines, n, i); }
      if Rows(lines[..n]).Ok? {
        RowStep(lines, n, Rows(lines[..n]).value);
        FittingLineIsShort(lines, n);
      }
    }
  }

  lemma FittingLineIsShort(lines: seq<string>, n: nat)
    requires n < |lines|
    ensures Fits(lines, n) ==> ByteLength(lines[n]) < 0x1_0000
  {
    hide ByteLength, Empty, Fields, Kind, Section, Started, MetaAt, ResultAt;
  }

  lemma NothingRead()
    ensures StateIs([], INITIAL)
  {
  }

  // ----- the snapshot -----

  ghost predicate Value(lines: seq<string>, key: MetaKey, value: string) {
    exists j :: MetaAt(lines, j, key, value)
  }

  ghost predicate Absent(lines: seq<string>, key: MetaKey) { forall j, value :: !MetaAt(lines, j, key, value) }

  /** The metadata rows say this; the update time defaults to the timestamp, the scope to full. */
  ghost predicate Says(p: Parsers, lines: seq<string>, m: ScanMetadata) {
    && (exists text :: Value(lines, Timestamp, text) && p.time(text) == Some(m.timestamp))
    && (if Absent(lines, UpdatedAt) then m.updatedAt == m.timestamp
        else exists text :: Value(lines, UpdatedAt, text) && text != "" && p.time(text) == Some(m.updatedAt))
    && Value(lines, Version, m.version) && Value(lines, Platform, m.platform) && Value(lines, Source, m.source)
    && (if Absent(lines, Scope) then m.scope == Full else Value(lines, Scope, ScopeText(m.scope)))
    && (exists text :: Value(lines, Exit, text) && |text| == 1 && '0' <= text[0] <= '3' && m.exit == text[0] as int - 48)
    && Value(lines, Fda, if m.fda then "true" else "false")
    && (if Absent(lines, PublicIP) || Value(lines, PublicIP, "") then m.publicIP == NoAddress
        else m.publicIP.Address? && Value(lines, PublicIP, m.publicIP.text) && m.publicIP.parses == p.ip(m.publicIP.text))
  }

  lemma ValuesAre(lines: seq<string>, metadata: map<MetaKey, string>)
    requires MetadataAre(lines, metadata)
    ensures forall key, value :: Value(lines, key, value) <==> key in metadata && metadata[key] == value
    ensures forall key :: Absent(lines, key) <==> key !in metadata
  {
    hide MetaAt;
    forall key, value ensures Value(lines, key, value) <==> key in metadata && metadata[key] == value {
      if Value(lines, key, value) { var j :| MetaAt(lines, j, key, value); }
    }
    forall key ensures Absent(lines, key) <==> key !in metadata {
      if key in metadata { var j :| MetaAt(lines, j, key, metadata[key]); }
    }
  }

  lemma ScopesRead(scope: ScanScope, text: string)
    requires !scope.OtherScope?
    ensures ScopeOf(text) == scope <==> text == ScopeText(scope)
  {
  }

  lemma ExitsRead(exit: int, text: string)
    ensures ExitOf(text) == Some(exit) <==> |text| == 1 && '0' <= text[0] <= '3' && exit == text[0] as int - 48
  {
    if |text| == 1 { assert text == [text[0]]; }
  }

  /** Valid metadata are parsed exactly when the rows say them. */
  lemma MetadataExactly(p: Parsers, lines: seq<string>, metadata: map<MetaKey, string>, m: ScanMetadata)
    requires MetadataAre(lines, metadata) && ValidMetadata(m)
    ensures ParseMetadata(p, metadata) == Some(m) <==> Says(p, lines, m)
  {
    hide MetadataAre, Value, Absent, ValidToken, ValidIdentifier, ScopeOf, ScopeText, ExitOf, MetaAt;
    ValuesAre(lines, metadata);
    if Scope in metadata { ScopesRead(m.scope, metadata[Scope]); }
    if Exit in metadata { ExitsRead(m.exit, metadata[Exit]); }
  }

  /** A text parses to a snapshot exactly when it is not too large, each line fits below the lines above
      it, the rows say the snapshot's metadata and are its results in order, and the snapshot is valid. */
  lemma ParsesExactly(p: Parsers, content: string, s: ScanSnapshot)
    ensures Parse(p, content) == Ok(s) <==>
      var lines := Split(content, '\n');
      && ByteLength(content) <= 0x40_0000 && Started(lines, |lines|)
      && (forall i :: 0 <= i < |lines| ==> Fits(lines, i))
      && ResultsAre(lines, s.results) && Says(p, lines, s.metadata) && ValidSnapshot(s)
  {
    hide Rows, Fits, ByteLength, Started, Says, ParseMetadata, ResultsAre, MetadataAre, ValidMetadata, ValidResult, Split;
    var lines := Split(content, '\n');
    RowsExactly(lines);
    if Rows(lines).Ok? {
      var state := Rows(lines).value;
      if ResultsAre(lines, s.results) { ResultsOnce(lines, s.results, state.results); }
      if ParseMetadata(p, state.metadata).Some? && ValidMetadata(ParseMetadata(p, state.metadata).value) {
        MetadataExactly(p, lines, state.metadata, ParseMetadata(p, state.metadata).value);
      }
      if ValidSnapshot(s) { MetadataExactly(p, lines, state.metadata, s.metadata); }
    }
  }
}
