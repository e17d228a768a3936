/** Coverage limits of internal/scanner/contract.go: notes about what a bounded scan left out,
    combined per limit. */
module Coverage {
  import opened Ordering
  import opened Model

  datatype Code = MaxFileBytes | MaxTotalBytes | MaxDepth | MaxFiles | MaxFindings

  function CodeText(c: Code): string {
    match c
    case MaxFileBytes => "max_file_bytes"
    case MaxTotalBytes => "max_total_bytes"
    case MaxDepth => "max_depth"
    case MaxFiles => "max_files"
    case MaxFindings => "max_findings"
  }

  datatype LimitFinding = LimitFinding(
    scannerID: string, code: Code, path: string, limit: int, observed: int, occurrences: nat)

  /** One call of `add`. */
  datatype Note = Note(code: Code, path: string, limit: int, observed: int)

  type Table = map<Code, LimitFinding>

  function SmallerPath(current: string, path: string): string {
    if path != "" && (current == "" || StrLess(path, current)) then path else current
  }

  function AddNote(table: Table, scannerID: string, n: Note): Table {
    if n.code !in table then table[n.code := LimitFinding(scannerID, n.code, n.path, n.limit, n.observed, 1)]
    else
      var f := table[n.code];
      table[n.code := f.(occurrences := f.occurrences + 1, path := SmallerPath(f.path, n.path),
                         observed := if n.observed > f.observed then n.observed else f.observed)]
  }

  /** The table after at most one note. */
  function Marked(table: Table, scannerID: string, note: Option<Note>): Table {
    match note
    case None => table
    case Some(n) => AddNote(table, scannerID, n)
  }

  function CodeTextOf(): LimitFinding -> string { (f: LimitFinding) => CodeText(f.code) }

  /** One entry per limit, so the path never decides. */
  function ByCode(): (LimitFinding, LimitFinding) -> bool { ByKey(CodeTextOf()) }

  class Accumulator {
    const scannerID: string
    var byCode: Table

    constructor (scannerID: string)
      ensures byCode == map[] && this.scannerID == scannerID
    {
      this.scannerID := scannerID;
      byCode := map[];
    }

    method Add(code: Code, path: string, limit: int, observed: int)
      modifies this
      ensures byCode == AddNote(old(byCode), scannerID, Note(code, path, limit, observed))
    {
      if code !in byCode {
        byCode := byCode[code := LimitFinding(scannerID, code, path, limit, observed, 1)];
        return;
      }
      var finding := byCode[code];
      finding := finding.(occurrences := finding.occurrences + 1);
      if path != "" && (finding.path == "" || StrLess(path, finding.path)) {
        finding := finding.(path := path);
      }
      if observed > finding.observed {
        finding := finding.(observed := observed);
      }
      byCode := byCode[code := finding];
    }

    /** The entries, in the order of their code texts. */
    method Findings() returns (findings: seq<LimitFinding>)
      requires forall code :: code in byCode ==> byCode[code].code == code
      ensures StrictlySorted(ByCode(), findings)
      ensures |findings| == |byCode| && forall f :: f in findings <==> f.code in byCode && byCode[f.code] == f
    {
      hide Sort, StrLess;
      findings := [];
      var codes := byCode.Keys;
      while codes != {}
        invariant codes <= byCode.Keys && |findings| + |codes| == |byCode|
        invariant forall f :: f in findings <==> f.code in byCode && f.code !in codes && byCode[f.code] == f
        invariant forall i, j :: 0 <= i < j < |findings| ==> findings[i].code != findings[j].code
        decreases codes
      {
        var code :| code in codes;
        findings, codes := findings + [byCode[code]], codes - {code};
      }
      CodesDistinguish(findings);
      ByKeyIsStrictOrder(CodeTextOf());
      SortIsSorted(ByCode(), findings);
      SortPermutes(ByCode(), findings);
      SortKeepsMembers(ByCode(), findings);
      findings := Sort(ByCode(), findings);
    }
  }

  lemma CodeTextsDiffer(a: Code, b: Code)
    ensures CodeText(a) == CodeText(b) <==> a == b
  {
    assert |CodeText(MaxFileBytes)| == 14 && |CodeText(MaxTotalBytes)| == 15 && |CodeText(MaxDepth)| == 9
      && |CodeText(MaxFiles)| == 9 && |CodeText(MaxFindings)| == 12;
    assert CodeText(MaxDepth)[4] == 'd' && CodeText(MaxFiles)[4] == 'f';
  }

  lemma CodesDistinguish(findings: seq<LimitFinding>)
    requires forall i, j :: 0 <= i < j < |findings| ==> findings[i].code != findings[j].code
    ensures Distinguished(ByCode(), findings)
  {
    hide CodeText, StrLess;
    forall i, j | 0 <= i < j < |findings|
      ensures ByCode()(findings[i], findings[j]) || ByCode()(findings[j], findings[i])
    {
      CodeTextsDiffer(findings[i].code, findings[j].code);
      StrLessTotal(CodeText(findings[i].code), CodeText(findings[j].code));
    }
  }

  // ----- what the table says -----

  function Fold(scannerID: string, notes: seq<Note>): Table {
    if notes == [] then map[]
    else AddNote(Fold(scannerID, notes[..|notes| - 1]), scannerID, notes[|notes| - 1])
  }

  function Count(notes: seq<Note>, code: Code): nat {
    if notes == [] then 0
    else Count(notes[..|notes| - 1], code) + (if notes[|notes| - 1].code == code then 1 else 0)
  }

  /** An entry counts the notes of its limit, keeps the largest value observed and the smallest path
      that is not empty. */
  ghost predicate Summary(notes: seq<Note>, code: Code, f: LimitFinding) {
    && f.code == code && f.occurrences == Count(notes, code)
    && (exists n :: n in notes && n.code == code && n.limit == f.limit)
    && (exists n :: n in notes && n.code == code && n.observed == f.observed)
    && (forall n :: n in notes && n.code == code ==> n.observed <= f.observed)
    && (exists n :: n in notes && n.code == code && n.path == f.path)
    && (forall n :: n in notes && n.code == code && n.path != "" ==> f.path != "" && !StrLess(n.path, f.path))
  }

  lemma SmallerPathIsSmaller(a: string, b: string)
    ensures var p := SmallerPath(a, b);
      && (p == a || p == b)
      && (a != "" || b != "" ==> p != "")
      && (a != "" ==> !StrLess(a, p)) && (b != "" ==> !StrLess(b, p))
      && forall c :: a != "" && !StrLess(c, a) ==> !StrLess(c, p)
  {
    StrLessIrreflexive(a);
    StrLessIrreflexive(b);
    if StrLess(b, a) { StrLessAsymmetric(b, a); }
    forall c | a != "" && !StrLess(c, a) ensures !StrLess(c, SmallerPath(a, b)) {
      if b != "" && StrLess(b, a) && StrLess(c, b) { StrLessTransitive(c, b, a); }
    }
  }

  lemma {:induction false} FoldSummarizes(scannerID: string, notes: seq<Note>)
    ensures forall code :: code in Fold(scannerID, notes) <==> exists n :: n in notes && n.code == code
    ensures forall code :: code in Fold(scannerID, notes) ==> Summary(notes, code, Fold(scannerID, notes)[code])
    ensures forall code :: code !in Fold(scannerID, notes) ==> Count(notes, code) == 0
  {
    hide SmallerPath, StrLess, Summary;
    if notes != [] {
      var front, last := notes[..|notes| - 1], notes[|notes| - 1];
      assert notes == front + [last];
      FoldSummarizes(scannerID, front);
      var before, after := Fold(scannerID, front), Fold(scannerID, notes);
      assert last in notes;
      forall code | code in after ensures Summary(notes, code, after[code]) {
        if code != last.code {
          OtherNote(front, last, code, before[code]);
        } else if code in before {
          AnotherNote(front, last, before[code]);
        } else {
          FirstNote(front, last, scannerID);
        }
      }
    }
  }

  lemma OtherNote(front: seq<Note>, last: Note, code: Code, f: LimitFinding)
    requires Summary(front, code, f) && last.code != code
    ensures Summary(front + [last], code, f)
  {
    assert (front + [last])[..|front|] == front;
  }

  lemma FirstNote(front: seq<Note>, last: Note, scannerID: string)
    requires Count(front, last.code) == 0 && forall n :: n in front ==> n.code != last.code
    ensures Summary(front + [last], last.code, LimitFinding(scannerID, last.code, last.path, last.limit, last.observed, 1))
  {
    assert (front + [last])[..|front|] == front;
    assert last in front + [last];
    StrLessIrreflexive(last.path);
  }

  lemma AnotherNote(front: seq<Note>, last: Note, f: LimitFinding)
    requires Summary(front, last.code, f)
    ensures Summary(front + [last], last.code,
      f.(occurrences := f.occurrences + 1, path := SmallerPath(f.path, last.path),
         observed := if last.observed > f.observed then last.observed else f.observed))
  {
    hide SmallerPath, StrLess;
    assert (front + [last])[..|front|] == front;
    assert last in front + [last];
    SmallerPathIsSmaller(f.path, last.path);
  }

  /** The table entry's number of occurrences, 0 for none. */
  function Occurrences(table: Table, code: Code): nat {
    if code in table then table[code].occurrences else 0
  }

  lemma AddCounts(table: Table, scannerID: string, n: Note)
    ensures forall code ::
      Occurrences(AddNote(table, scannerID, n), code) == Occurrences(table, code) + (if code == n.code then 1 else 0)
    ensures AddNote(table, scannerID, n).Keys == table.Keys + {n.code}
    ensures (forall code :: code in table ==> table[code].code == code) ==>
      forall code :: code in AddNote(table, scannerID, n) ==> AddNote(table, scannerID, n)[code].code == code
  {
    hide SmallerPath;
  }
}
