/** The secret scan of internal/scanner/secret.go: file, byte and finding budgets over whatever the
    directory walk yields. */
module SecretScan {
  import opened Ordering
  import opened Model
  import opened Coverage
  import opened FileRead
  import opened SecretText
  import Scan

  datatype Limits = Limits(maxFileBytes: int, maxTotalBytes: int, maxDepth: int, maxFiles: int, maxFindings: int)

  predicate ValidLimits(l: Limits) {
    l.maxFileBytes > 0 && l.maxTotalBytes > 0 && l.maxDepth >= 0 && l.maxFiles > 0 && l.maxFindings > 0
  }

  /** What `Info` and opening a walked file give, and whether the context is cancelled before the k-th
      line of its text. */
  datatype Info = InfoFails | NotRegular | Regular(size: int, opening: Opening, cancelled: nat -> bool)

  /** One call of the walk function; the path relative to its root may be unknown. */
  datatype Visit = WalkFails | Entry(path: string, relative: Option<string>, link: bool, isDir: bool, info: Info)

  /** `relativeDepth`. */
  function Depth(v: Visit): Option<int>
    requires v.Entry?
  {
    match v.relative
    case None => None
    case Some(relative) => Some(if relative == "." then 0 else |Scan.Split(relative, '/')|)
  }

  /** A root is at depth 0; below it the depth is one more than the slashes of the relative path. */
  lemma DepthCountsSlashes(v: Visit)
    requires v.Entry? && v.relative.Some?
    ensures Depth(v) == Some(if v.relative.value == "." then 0 else 1 + |Slashes(v.relative.value)|)
  {
    SplitCounts(v.relative.value);
  }

  ghost function Slashes(s: string): set<nat> { set i: nat | i < |s| && s[i] == '/' }

  lemma {:induction false} SplitCounts(s: string)
    ensures |Scan.Split(s, '/')| == 1 + |Slashes(s)|
  {
    if s == "" {
      assert Slashes(s) == {};
    } else {
      SplitCounts(s[1..]);
      var rest := Slashes(s[1..]);
      var shifted := set i | i in rest :: i + 1;
      ShiftedSize(rest, shifted);
      forall i ensures i in Slashes(s) <==> (i == 0 && s[0] == '/') || i in shifted {
        if i > 0 { assert i - 1 in rest <==> i in Slashes(s); }
      }
      if s[0] == '/' {
        assert Slashes(s) == shifted + {0};
      } else {
        assert Slashes(s) == shifted;
      }
    }
  }

  lemma {:induction false} ShiftedSize(rest: set<nat>, shifted: set<nat>)
    requires shifted == set i | i in rest :: i + 1
    ensures |shifted| == |rest|
    decreases |rest|
  {
    if rest != {} {
      var i :| i in rest;
      var fewer := set j | j in rest - {i} :: j + 1;
      forall x ensures x in fewer <==> x in shifted - {i + 1} {
        if x in shifted - {i + 1} { assert x - 1 in rest - {i}; }
      }
      assert fewer == shifted - {i + 1};
      ShiftedSize(rest - {i}, fewer);
    }
  }

  /** Path cleaning, and the calls the walk of a root makes. */
  datatype Tree = Tree(clean: string -> string, walk: string -> seq<Visit>)

  function Visits(tree: Tree, roots: seq<string>): seq<Visit> {
    if roots == [] then [] else Visits(tree, roots[..|roots| - 1]) + tree.walk(roots[|roots| - 1])
  }

  const STR_LESS: (string, string) -> bool := (a, b) => StrLess(a, b)

  /** The cleaned paths that are not blank, each once, in order. */
  ghost predicate NormalPaths(tree: Tree, paths: seq<string>, normalized: seq<string>) {
    && StrictlySorted(STR_LESS, normalized)
    && forall root :: root in normalized <==> exists path :: path in paths && !Blank(path) && tree.clean(path) == root
  }

  method NormalizePaths(tree: Tree, paths: seq<string>) returns (normalized: seq<string>)
    ensures NormalPaths(tree, paths, normalized)
  {
    hide Sort, StrLess, Blank;
    var unique: set<string> := {};
    for i := 0 to |paths|
      invariant forall root :: root in unique <==>
        exists path :: path in paths[..i] && !Blank(path) && tree.clean(path) == root
    {
      assert paths[..i + 1] == paths[..i] + [paths[i]];
      if !Blank(paths[i]) {
        unique := unique + {tree.clean(paths[i])};
      }
    }
    assert paths[..|paths|] == paths;
    normalized := [];
    var rest := unique;
    while rest != {}
      invariant rest <= unique
      invariant forall root :: root in normalized <==> root in unique && root !in rest
      invariant forall i, j :: 0 <= i < j < |normalized| ==> normalized[i] != normalized[j]
      decreases rest
    {
      var root :| root in rest;
      normalized, rest := normalized + [root], rest - {root};
    }
    StringsDistinguish(normalized);
    SortIsSorted(STR_LESS, normalized);
    SortKeepsMembers(STR_LESS, normalized);
    normalized := Sort(STR_LESS, normalized);
  }

  lemma StringsDistinguish(s: seq<string>)
    requires forall i, j :: 0 <= i < j < |s| ==> s[i] != s[j]
    ensures StrictOrder(STR_LESS) && Distinguished(STR_LESS, s)
  {
    hide StrLess;
    forall x: string ensures !STR_LESS(x, x) { StrLessIrreflexive(x); }
    forall x: string, y: string, z: string | STR_LESS(x, y) && STR_LESS(y, z) ensures STR_LESS(x, z) {
      StrLessTransitive(x, y, z);
    }
    forall i, j | 0 <= i < j < |s| ensures STR_LESS(s[i], s[j]) || STR_LESS(s[j], s[i]) { StrLessTotal(s[i], s[j]); }
  }

  ghost predicate Progresses(v: Visit) {
    v.Entry? && v.info.Regular? ==> FileRead.Progresses(v.info.opening)
  }

  datatype Stats = Stats(
    considered: nat, scanned: nat, bytesRead: nat, symlinks: nat, nonRegular: nat, binary: nat, oversize: nat)

  datatype File = File(path: string, content: string)

  datatype Content = Content(bytes: string, exceeded: bool, failed: bool)

  const CHUNK: nat := 0x8000

  /** What the loop's end means: at the limit, a file that goes on is too long. */
  function ReadAfter(file: OpenFile, content: string, stop: Stop): Content {
    match stop
    case AtEnd => Content(content, false, false)
    case AtLimit =>
      (match file.sizes(0)
       case None => Content(content, false, true)
       case Some(size) => Content(content, size > |content|, false))
    case _ => Content(content, false, true)
  }

  /** The outcome of `readRegularFileBounded`, in terms of what the file does. */
  ghost predicate ReadOutcome(o: Opening, limit: nat, r: Content) {
    match o
    case OpenFails => r == Content("", false, true)
    case Replaced => r == Content("", false, false)
    case Opened(file) => exists n: nat, stop ::
      StopsAfter(file, CHUNK, limit, n, stop) && r == ReadAfter(file, Gather(file, CHUNK, limit, n), stop)
  }

  /** A file that was replaced reads as empty. */
  method ReadBounded(o: Opening, limit: nat) returns (r: Content)
    requires FileRead.Progresses(o)
    ensures ReadOutcome(o, limit, r) && |r.bytes| <= limit
  {
    hide Gather, StopsAfter, FileRead.Progresses;
    match o {
      case OpenFails => return Content("", false, true);
      case Replaced => return Content("", false, false);
      case Opened(file) =>
        var content, n, stop := ReadLoop(file, CHUNK, limit);
        if stop == OnError || stop == OnCancel {
          return Content(content, false, true);
        }
        if stop == AtLimit {
          var current := file.sizes(0);
          if current.None? {
            return Content(content, false, true);
          }
          return Content(content, current.value > |content|, false);
        }
        return Content(content, false, false);
    }
  }

  function Lines(f: File): seq<string> { Scan.Split(f.content, '\n') }

  /** All findings of the scanned files, file by file. */
  function FoundIn(d: Detectors, files: seq<File>): seq<SecretFinding> {
    if files == [] then []
    else
      var last := files[|files| - 1];
      FoundIn(d, files[..|files| - 1]) + SortFindings(AllFindings(d, last.path, Lines(last), 0))
  }

  /** Files with a recorded outcome. */
  function Outcomes(s: Stats): nat { s.scanned + s.nonRegular + s.binary + s.oversize }

  predicate TooDeep(l: Limits, v: Visit) { v.Entry? && Depth(v).Some? && Depth(v).value > l.maxDepth }

  predicate SkippedLink(l: Limits, v: Visit) {
    v.Entry? && Depth(v).Some? && Depth(v).value <= l.maxDepth && v.link
  }

  function CountDeep(l: Limits, visits: seq<Visit>): nat {
    if visits == [] then 0
    else CountDeep(l, visits[..|visits| - 1]) + (if TooDeep(l, visits[|visits| - 1]) then 1 else 0)
  }

  function CountLinks(l: Limits, visits: seq<Visit>): nat {
    if visits == [] then 0
    else CountLinks(l, visits[..|visits| - 1]) + (if SkippedLink(l, visits[|visits| - 1]) then 1 else 0)
  }

  /** What the scan knows while it runs. */
  datatype State = State(stats: Stats, findings: seq<SecretFinding>, seen: set<string>, files: seq<File>)

  /** The recorded stops. */
  function Stops(table: Table): nat {
    Occurrences(table, MaxFiles) + Occurrences(table, MaxTotalBytes) + Occurrences(table, MaxFindings)
  }

  /** The books before visit `i`: every file considered has one outcome, each oversize file has its
      note, no stop is recorded, and nothing found is missing. */
  ghost predicate Books(l: Limits, d: Detectors, visits: seq<Visit>, i: nat, s: State, table: Table) {
    && i <= |visits|
    && s.stats.considered == Outcomes(s.stats) && s.stats.considered <= l.maxFiles
    && s.stats.bytesRead <= l.maxTotalBytes
    && Occurrences(table, MaxFileBytes) == s.stats.oversize
    && Occurrences(table, MaxDepth) == CountDeep(l, visits[..i]) && s.stats.symlinks == CountLinks(l, visits[..i])
    && Stops(table) == 0
    && |s.files| == s.stats.scanned && s.findings == FoundIn(d, s.files) && |s.findings| <= l.maxFindings
    && ScannedOnce(s.files, s.seen)
  }

  /** The books of a scan that ran to its end after `n` visits: a stop for the total bytes leaves one
      file without outcome, and so does none else; visits not made are explained by one recorded stop;
      all findings are there, or the finding limit is recorded and exactly met. */
  ghost predicate Balanced(l: Limits, d: Detectors, visits: seq<Visit>, n: nat, s: State, table: Table) {
    && n <= |visits|
    && s.stats.considered == Outcomes(s.stats) + Occurrences(table, MaxTotalBytes)
    && s.stats.considered <= l.maxFiles
    && Occurrences(table, MaxFileBytes) == s.stats.oversize
    && Occurrences(table, MaxDepth) == CountDeep(l, visits[..n]) && s.stats.symlinks == CountLinks(l, visits[..n])
    && Stops(table) <= 1 && (n < |visits| ==> Stops(table) == 1)
    && (Occurrences(table, MaxFiles) > 0 ==> s.stats.considered == l.maxFiles)
    && |s.files| == s.stats.scanned && ScannedOnce(s.files, s.seen)
    && (if Occurrences(table, MaxFindings) > 0
        then |s.findings| == l.maxFindings < |FoundIn(d, s.files)|
        else s.findings == FoundIn(d, s.files) && |s.findings| <= l.maxFindings)
  }

  /** No path is scanned twice, though roots may overlap. */
  ghost predicate ScannedOnce(files: seq<File>, seen: set<string>) {
    && (forall f :: f in files ==> f.path in seen)
    && (forall i, j :: 0 <= i < j < |files| ==> files[i].path != files[j].path)
  }

  ghost predicate OneFileMore(before: seq<File>, after: seq<File>, path: string) {
    after == before || (exists f :: after == before + [f] && f.path == path)
  }

  lemma StillScannedOnce(before: seq<File>, after: seq<File>, path: string, seen: set<string>)
    requires ScannedOnce(before, seen) && path !in seen && OneFileMore(before, after, path)
    ensures ScannedOnce(after, seen + {path})
  {
    if after != before {
      var f :| after == before + [f] && f.path == path;
      assert forall i :: 0 <= i < |before| ==> before[i] in before;
    }
  }

  datatype Verdict = Fails | Halts | Continues

  /** One note more. */
  ghost predicate Noted(before: Table, after: Table, code: Code) {
    && Occurrences(after, MaxFileBytes) == Occurrences(before, MaxFileBytes) + (if code == MaxFileBytes then 1 else 0)
    && Occurrences(after, MaxTotalBytes) == Occurrences(before, MaxTotalBytes) + (if code == MaxTotalBytes then 1 else 0)
    && Occurrences(after, MaxFiles) == Occurrences(before, MaxFiles) + (if code == MaxFiles then 1 else 0)
    && Occurrences(after, MaxDepth) == Occurrences(before, MaxDepth) + (if code == MaxDepth then 1 else 0)
    && Occurrences(after, MaxFindings) == Occurrences(before, MaxFindings) + (if code == MaxFindings then 1 else 0)
  }

  method AddNoteTo(coverage: Accumulator, code: Code, path: string, limit: int, observed: int)
    returns (ghost note: Option<Note>)
    modifies coverage
    ensures note == Some(Note(code, path, limit, observed))
    ensures coverage.byCode == Marked(old(coverage.byCode), coverage.scannerID, note)
    ensures Noted(old(coverage.byCode), coverage.byCode, code)
  {
    hide AddNote, Occurrences;
    note := Some(Note(code, path, limit, observed));
    AddCounts(coverage.byCode, coverage.scannerID, Note(code, path, limit, observed));
    coverage.Add(code, path, limit, observed);
  }

  /** How a considered file's outcome is booked: its counter, its note, its bytes, its findings. */
  ghost predicate Outcome(l: Limits, d: Detectors, path: string, verdict: Verdict, before: State, after: State, table: Table, table': Table) {
    && after.seen == before.seen && after.stats.considered == before.stats.considered
    && after.stats.symlinks == before.stats.symlinks
    && after.stats.nonRegular == before.stats.nonRegular
    && after.stats.bytesRead <= l.maxTotalBytes
    && OneFileMore(before.files, after.files, path)
    && match verdict
       case Fails => true
       case Halts =>
         if Occurrences(table', MaxFindings) > 0 then
           && Noted(table, table', MaxFindings)
           && after.stats.(bytesRead := 0) == before.stats.(bytesRead := 0, scanned := before.stats.scanned + 1)
           && |after.files| == |before.files| + 1
           && |after.findings| == l.maxFindings < |FoundIn(d, after.files)|
         else
           && Noted(table, table', MaxTotalBytes)
           && after.stats.(bytesRead := 0) == before.stats.(bytesRead := 0)
           && after.files == before.files && after.findings == before.findings
       case Continues =>
         && Outcomes(after.stats) == Outcomes(before.stats) + 1
         && |after.files| == |before.files| + after.stats.scanned - before.stats.scanned
         && after.findings == FoundIn(d, after.files) && |after.findings| <= l.maxFindings
         && (if after.stats.oversize == before.stats.oversize then table' == table
             else after.stats.oversize == before.stats.oversize + 1 && Noted(table, table', MaxFileBytes))
  }

  lemma FoundSnoc(d: Detectors, files: seq<File>, f: File)
    ensures FoundIn(d, files + [f]) == FoundIn(d, files) + SortFindings(AllFindings(d, f.path, Lines(f), 0))
  {
    assert (files + [f])[..|files|] == files;
  }

  lemma SortKeepsLength(s: seq<SecretFinding>)
    ensures |SortFindings(s)| == |s|
  {
    SortPermutes(FINDING_LESS, s);
  }

  lemma TakeLength<T>(s: seq<T>, limit: int)
    requires limit >= 0
    ensures |Take(s, limit)| == if |s| <= limit then |s| else limit
    ensures |s| <= limit ==> Take(s, limit) == s
  {
  }

  /** One turn: how the scan goes on, the new state, and the note. */
  datatype Turn = Turn(verdict: Verdict, state: State, note: Option<Note>)

  /** The total leaves nothing, or less than the file's size. */
  predicate Short(l: Limits, stats: Stats, size: int) {
    l.maxTotalBytes <= stats.bytesRead || size > l.maxTotalBytes - stats.bytesRead
  }

  /** How many bytes of a file may be read. */
  function Budget(l: Limits, stats: Stats): (n: nat)
    requires ValidLimits(l) && stats.bytesRead <= l.maxTotalBytes
    ensures n <= l.maxFileBytes && stats.bytesRead + n <= l.maxTotalBytes
  {
    if l.maxFileBytes < l.maxTotalBytes - stats.bytesRead then l.maxFileBytes else l.maxTotalBytes - stats.bytesRead
  }

  /** What follows from a file's findings. */
  function AfterInspection(l: Limits, f: File, s: State, found: seq<SecretFinding>): Turn {
    var room := l.maxFindings - |s.findings|;
    var after := State(s.stats.(scanned := s.stats.scanned + 1), s.findings + Take(found, room), s.seen, s.files + [f]);
    if |found| <= room then Turn(Continues, after, None)
    else Turn(Halts, after, Some(Note(MaxFindings, f.path, l.maxFindings, l.maxFindings + 1)))
  }

  /** One more finding than there is room for, which shows that there are too many. */
  function TextLimit(l: Limits, s: State): int { l.maxFindings - |s.findings| + 1 }

  /** The turn of a text file, in terms of what inspecting it gives. */
  ghost predicate KeptAs(l: Limits, d: Detectors, f: File, cancelled: nat -> bool, s: State, t: Turn) {
    exists found, failed ::
      && Inspected(d, f.path, Lines(f), TextLimit(l, s), cancelled, found, failed)
      && t == if failed then Turn(Fails, s.(stats := s.stats.(scanned := s.stats.scanned + 1)), None)
              else AfterInspection(l, f, s, found)
  }

  /** The turn of a file that was read. */
  ghost predicate ReadAs(l: Limits, d: Detectors, binary: string -> bool, path: string, cancelled: nat -> bool, s: State,
                         c: Content, t: Turn)
  {
    var read := s.stats.(bytesRead := s.stats.bytesRead + |c.bytes|);
    if c.failed then t == Turn(Fails, s.(stats := read), None)
    else if c.exceeded && l.maxTotalBytes - s.stats.bytesRead < l.maxFileBytes then
      t == Turn(Halts, s.(stats := read), Some(Note(MaxTotalBytes, path, l.maxTotalBytes, read.bytesRead + 1)))
    else if c.exceeded then
      t == Turn(Continues, s.(stats := read.(oversize := read.oversize + 1)),
                Some(Note(MaxFileBytes, path, l.maxFileBytes, |c.bytes| + 1)))
    else if binary(c.bytes) then t == Turn(Continues, s.(stats := read.(binary := read.binary + 1)), None)
    else KeptAs(l, d, File(path, c.bytes), cancelled, s.(stats := read), t)
  }

  /** The turn of a regular file, in terms of what reading it gives. */
  ghost predicate ScannedAs(l: Limits, d: Detectors, binary: string -> bool, path: string, size: int, opening: Opening,
                            cancelled: nat -> bool, s: State, t: Turn)
    requires ValidLimits(l) && s.stats.bytesRead <= l.maxTotalBytes
  {
    if size > l.maxFileBytes then
      t == Turn(Continues, s.(stats := s.stats.(oversize := s.stats.oversize + 1)),
                Some(Note(MaxFileBytes, path, l.maxFileBytes, size)))
    else if Short(l, s.stats, size) then
      t == Turn(Halts, s, Some(Note(MaxTotalBytes, path, l.maxTotalBytes, s.stats.bytesRead + size)))
    else exists c :: ReadOutcome(opening, Budget(l, s.stats), c) && ReadAs(l, d, binary, path, cancelled, s, c, t)
  }

  lemma UnreadIsScanned(l: Limits, d: Detectors, binary: string -> bool, path: string, size: int, opening: Opening,
                        cancelled: nat -> bool, s: State)
    requires ValidLimits(l) && s.stats.bytesRead <= l.maxTotalBytes
    ensures size > l.maxFileBytes ==>
      ScannedAs(l, d, binary, path, size, opening, cancelled, s,
                Turn(Continues, s.(stats := s.stats.(oversize := s.stats.oversize + 1)),
                     Some(Note(MaxFileBytes, path, l.maxFileBytes, size))))
    ensures size <= l.maxFileBytes && Short(l, s.stats, size) ==>
      ScannedAs(l, d, binary, path, size, opening, cancelled, s,
                Turn(Halts, s, Some(Note(MaxTotalBytes, path, l.maxTotalBytes, s.stats.bytesRead + size))))
  {
    hide ReadOutcome, ReadAs;
  }

  lemma ReadIsScanned(l: Limits, d: Detectors, binary: string -> bool, path: string, size: int, opening: Opening,
                      cancelled: nat -> bool, s: State, c: Content, t: Turn)
    requires ValidLimits(l) && s.stats.bytesRead <= l.maxTotalBytes && size <= l.maxFileBytes && !Short(l, s.stats, size)
    requires ReadOutcome(opening, Budget(l, s.stats), c) && ReadAs(l, d, binary, path, cancelled, s, c, t)
    ensures ScannedAs(l, d, binary, path, size, opening, cancelled, s, t)
  {
    hide ReadOutcome, ReadAs;
  }

  /** Reads and inspects one regular file. */
  method ScanFile(l: Limits, d: Detectors, binary: string -> bool, path: string, size: int, opening: Opening,
                  cancelled: nat -> bool, s: State, coverage: Accumulator)
    returns (verdict: Verdict, after: State, ghost note: Option<Note>)
    requires ValidLimits(l) && FileRead.Progresses(opening) && s.stats.bytesRead <= l.maxTotalBytes
    requires Stops(coverage.byCode) == 0
    requires s.findings == FoundIn(d, s.files) && |s.findings| <= l.maxFindings
    modifies coverage
    ensures ScannedAs(l, d, binary, path, size, opening, cancelled, s, Turn(verdict, after, note))
    ensures coverage.byCode == Marked(old(coverage.byCode), coverage.scannerID, note)
    ensures Outcome(l, d, path, verdict, s, after, old(coverage.byCode), coverage.byCode)
  {
    hide Occurrences, FoundIn, Take, SortFindings, AllFindings, Lines, ReadOutcome, ScannedAs, KeptAs;
    after, note := s, None;
    var remaining := l.maxTotalBytes - s.stats.bytesRead;
    UnreadIsScanned(l, d, binary, path, size, opening, cancelled, s);
    if size > l.maxFileBytes {
      note := AddNoteTo(coverage, MaxFileBytes, path, l.maxFileBytes, size);
      return Continues, s.(stats := s.stats.(oversize := s.stats.oversize + 1)), note;
    }
    if remaining <= 0 || size > remaining {
      note := AddNoteTo(coverage, MaxTotalBytes, path, l.maxTotalBytes, s.stats.bytesRead + size);
      return Halts, s, note;
    }
    var content := ReadBounded(opening, if l.maxFileBytes < remaining then l.maxFileBytes else remaining);
    verdict, after, note := HandleContent(l, d, binary, path, content, cancelled, s, coverage);
    ReadIsScanned(l, d, binary, path, size, opening, cancelled, s, content, Turn(verdict, after, note));
  }

  /** What `ScanFile` does with what it read. */
  method HandleContent(l: Limits, d: Detectors, binary: string -> bool, path: string, content: Content,
                       cancelled: nat -> bool, s: State, coverage: Accumulator)
    returns (verdict: Verdict, after: State, ghost note: Option<Note>)
    requires s.stats.bytesRead + |content.bytes| <= l.maxTotalBytes
    requires Stops(coverage.byCode) == 0
    requires s.findings == FoundIn(d, s.files) && |s.findings| <= l.maxFindings
    modifies coverage
    ensures ReadAs(l, d, binary, path, cancelled, s, content, Turn(verdict, after, note))
    ensures coverage.byCode == Marked(old(coverage.byCode), coverage.scannerID, note)
    ensures Outcome(l, d, path, verdict, s, after, old(coverage.byCode), coverage.byCode)
  {
    hide Occurrences, FoundIn, KeptAs;
    var remaining := l.maxTotalBytes - s.stats.bytesRead;
    var read := s.stats.(bytesRead := s.stats.bytesRead + |content.bytes|);
    if content.failed {
      return Fails, s.(stats := read), None;
    }
    if content.exceeded {
      if remaining < l.maxFileBytes {
        note := AddNoteTo(coverage, MaxTotalBytes, path, l.maxTotalBytes, read.bytesRead + 1);
        return Halts, s.(stats := read), note;
      }
      note := AddNoteTo(coverage, MaxFileBytes, path, l.maxFileBytes, |content.bytes| + 1);
      return Continues, s.(stats := read.(oversize := read.oversize + 1)), note;
    }
    if binary(content.bytes) {
      return Continues, s.(stats := read.(binary := read.binary + 1)), None;
    }
    verdict, after, note := KeepFindings(l, d, File(path, content.bytes), cancelled, s.(stats := read), coverage);
  }

  /** Takes over a scanned file's findings, as far as the limit goes. */
  method KeepFindings(l: Limits, d: Detectors, f: File, cancelled: nat -> bool, s: State, coverage: Accumulator)
    returns (verdict: Verdict, after: State, ghost note: Option<Note>)
    requires Stops(coverage.byCode) == 0 && s.stats.bytesRead <= l.maxTotalBytes
    requires s.findings == FoundIn(d, s.files) && |s.findings| <= l.maxFindings
    modifies coverage
    ensures KeptAs(l, d, f, cancelled, s, Turn(verdict, after, note))
    ensures coverage.byCode == Marked(old(coverage.byCode), coverage.scannerID, note)
    ensures Outcome(l, d, f.path, verdict, s, after, old(coverage.byCode), coverage.byCode)
    ensures after.stats == s.stats.(scanned := s.stats.scanned + 1)
  {
    hide Occurrences, FoundIn, Take, SortFindings, AllFindings, Lines, Inspected, KeptAs;
    var remaining := l.maxFindings - |s.findings|;
    var found, failed := InspectText(d, f.path, Lines(f), remaining + 1, cancelled);
    ghost var kept := if failed then Turn(Fails, s.(stats := s.stats.(scanned := s.stats.scanned + 1)), None)
                      else AfterInspection(l, f, s, found);
    InspectedIsKept(l, d, f, cancelled, s, found, failed, kept);
    if failed {
      return Fails, s.(stats := s.stats.(scanned := s.stats.scanned + 1)), None;
    }
    ghost var all := AllFindings(d, f.path, Lines(f), 0);
    TakeLength(all, remaining + 1);
    SortKeepsLength(Take(all, remaining + 1));
    SortKeepsLength(all);
    FoundSnoc(d, s.files, f);
    TakeIsSlice(found, remaining);
    var findings := s.findings;
    for k := 0 to |found|
      invariant findings == s.findings + found[..k] && |findings| <= l.maxFindings
    {
      if |findings| >= l.maxFindings {
        note := AddNoteTo(coverage, MaxFindings, f.path, l.maxFindings, |findings| + 1);
        return Halts, State(s.stats.(scanned := s.stats.scanned + 1), findings, s.seen, s.files + [f]), note;
      }
      findings := findings + [found[k]];
    }
    assert found[..|found|] == found;
    return Continues, State(s.stats.(scanned := s.stats.scanned + 1), findings, s.seen, s.files + [f]), None;
  }

  lemma InspectedIsKept(l: Limits, d: Detectors, f: File, cancelled: nat -> bool, s: State, found: seq<SecretFinding>,
                        failed: bool, t: Turn)
    requires Inspected(d, f.path, Lines(f), TextLimit(l, s), cancelled, found, failed)
    requires t == if failed then Turn(Fails, s.(stats := s.stats.(scanned := s.stats.scanned + 1)), None)
                  else AfterInspection(l, f, s, found)
    ensures KeptAs(l, d, f, cancelled, s, t)
  {
    hide Inspected, AfterInspection, TextLimit;
  }

  lemma TakeIsSlice<T>(s: seq<T>, n: nat)
    ensures Take(s, n) == if |s| <= n then s else s[..n]
  {
  }

  lemma CountsNext(l: Limits, visits: seq<Visit>, i: nat)
    requires i < |visits|
    ensures CountDeep(l, visits[..i + 1]) == CountDeep(l, visits[..i]) + (if TooDeep(l, visits[i]) then 1 else 0)
    ensures CountLinks(l, visits[..i + 1]) == CountLinks(l, visits[..i]) + (if SkippedLink(l, visits[i]) then 1 else 0)
  {
    assert visits[..i + 1][..i] == visits[..i];
  }

  /** The books after a file's outcome. */
  lemma OutcomeBooks(l: Limits, d: Detectors, visits: seq<Visit>, i: nat, verdict: Verdict, s: State, before: State,
                     after: State, table: Table, table': Table)
    requires Books(l, d, visits, i, s, table) && i < |visits|
    requires !TooDeep(l, visits[i]) && !SkippedLink(l, visits[i]) && s.stats.considered < l.maxFiles
    requires before == s.(stats := s.stats.(considered := s.stats.considered + 1), seen := before.seen)
    requires visits[i].Entry? && visits[i].path !in s.seen && before.seen == s.seen + {visits[i].path}
    requires Outcome(l, d, visits[i].path, verdict, before, after, table, table')
    ensures verdict.Continues? ==> Books(l, d, visits, i + 1, after, table')
    ensures verdict.Halts? ==> Balanced(l, d, visits, i + 1, after, table')
  {
    hide Occurrences, FoundIn, CountDeep, CountLinks, TooDeep, SkippedLink, ScannedOnce, OneFileMore;
    CountsNext(l, visits, i);
    StillScannedOnce(before.files, after.files, visits[i].path, s.seen);
  }

  /** The turn of one call of the walk function. */
  ghost predicate WalkedAs(l: Limits, d: Detectors, binary: string -> bool, visit: Visit, cancelled: bool, s: State,
                           t: Turn)
    requires ValidLimits(l) && s.stats.bytesRead <= l.maxTotalBytes
  {
    if cancelled || visit.WalkFails? || Depth(visit).None? then t == Turn(Fails, s, None)
    else if Depth(visit).value > l.maxDepth then
      t == Turn(Continues, s, Some(Note(MaxDepth, visit.path, l.maxDepth, Depth(visit).value)))
    else if visit.link then t == Turn(Continues, s.(stats := s.stats.(symlinks := s.stats.symlinks + 1)), None)
    else if visit.isDir || visit.path in s.seen then t == Turn(Continues, s, None)
    else
      var seen := s.(seen := s.seen + {visit.path});
      if s.stats.considered >= l.maxFiles then
        t == Turn(Halts, seen, Some(Note(MaxFiles, visit.path, l.maxFiles, s.stats.considered + 1)))
      else
        var now := seen.(stats := s.stats.(considered := s.stats.considered + 1));
        match visit.info
        case InfoFails => t == Turn(Fails, now, None)
        case NotRegular => t == Turn(Continues, now.(stats := now.stats.(nonRegular := now.stats.nonRegular + 1)), None)
        case Regular(size, opening, textCancelled) =>
          ScannedAs(l, d, binary, visit.path, size, opening, textCancelled, now, t)
  }

  /** The walk function, called for visit `i`. */
  method Walk(l: Limits, d: Detectors, binary: string -> bool, visit: Visit, ghost visits: seq<Visit>, i: nat,
              s: State, coverage: Accumulator, cancelled: nat -> bool)
    returns (verdict: Verdict, after: State, ghost note: Option<Note>)
    requires ValidLimits(l) && i < |visits| && visits[i] == visit && Progresses(visit)
    requires Books(l, d, visits, i, s, coverage.byCode)
    modifies coverage
    ensures s.stats.bytesRead <= l.maxTotalBytes
    ensures WalkedAs(l, d, binary, visit, cancelled(i), s, Turn(verdict, after, note))
    ensures coverage.byCode == Marked(old(coverage.byCode), coverage.scannerID, note)
    ensures after.stats.bytesRead <= l.maxTotalBytes
    ensures verdict.Continues? ==> Books(l, d, visits, i + 1, after, coverage.byCode)
    ensures verdict.Halts? ==> Balanced(l, d, visits, i + 1, after, coverage.byCode)
  {
    hide Occurrences, FoundIn, CountDeep, CountLinks, Outcome, ScannedOnce, ScannedAs;
    ghost var table := coverage.byCode;
    CountsNext(l, visits, i);
    note := None;
    if cancelled(i) || visit.WalkFails? || Depth(visit).None? {
      return Fails, s, None;
    }
    if Depth(visit).value > l.maxDepth {
      note := AddNoteTo(coverage, MaxDepth, visit.path, l.maxDepth, Depth(visit).value);
      return Continues, s, note;
    }
    if visit.link {
      return Continues, s.(stats := s.stats.(symlinks := s.stats.symlinks + 1)), None;
    }
    if visit.isDir || visit.path in s.seen {
      return Continues, s, None;
    }
    var seen := s.seen + {visit.path};
    StillScannedOnce(s.files, s.files, visit.path, s.seen);
    if s.stats.considered >= l.maxFiles {
      note := AddNoteTo(coverage, MaxFiles, visit.path, l.maxFiles, s.stats.considered + 1);
      return Halts, s.(seen := seen), note;
    }
    var now := s.(stats := s.stats.(considered := s.stats.considered + 1), seen := seen);
    match visit.info {
      case InfoFails => return Fails, now, None;
      case NotRegular => return Continues, now.(stats := now.stats.(nonRegular := now.stats.nonRegular + 1)), None;
      case Regular(size, opening, textCancelled) =>
        verdict, after, note := ScanFile(l, d, binary, visit.path, size, opening, textCancelled, now, coverage);
        OutcomeBooks(l, d, visits, i, verdict, s, now, after, table, coverage.byCode);
        OutcomeBytes(l, d, visit.path, verdict, now, after, table, coverage.byCode);
    }
  }

  lemma OutcomeBytes(l: Limits, d: Detectors, path: string, verdict: Verdict, before: State, after: State, table: Table, table': Table)
    requires Outcome(l, d, path, verdict, before, after, table, table')
    ensures after.stats.bytesRead <= l.maxTotalBytes
  {
    hide Occurrences, FoundIn;
  }

  lemma {:induction false} VisitsOfRoot(tree: Tree, roots: seq<string>, i: nat)
    requires i < |roots|
    ensures Visits(tree, roots[..i + 1]) == Visits(tree, roots[..i]) + tree.walk(roots[i])
    ensures Visits(tree, roots[..i + 1]) <= Visits(tree, roots)
  {
    assert roots[..i + 1][..i] == roots[..i];
    VisitsPrefix(tree, roots, i + 1);
  }

  lemma {:induction false} VisitsPrefix(tree: Tree, roots: seq<string>, i: nat)
    requires i <= |roots|
    ensures Visits(tree, roots[..i]) <= Visits(tree, roots)
  {
    if i < |roots| {
      assert roots[..|roots| - 1][..i] == roots[..i];
      VisitsPrefix(tree, roots[..|roots| - 1], i);
    } else {
      assert roots[..i] == roots;
    }
  }

  // ----- the run -----

  const SCANNER_ID := "local-secret-scanner"

  const NOTHING_YET := State(Stats(0, 0, 0, 0, 0, 0, 0), [], {}, [])

  /** When the context is cancelled: before the scan, and before the k-th call of the walk function. */
  datatype Cancellation = Cancellation(start: bool, before: nat -> bool)

  /** One call of the walk function, with its note. */
  ghost predicate Stepped(l: Limits, d: Detectors, binary: string -> bool, visit: Visit, cancelled: bool, s: State,
                          table: Table, verdict: Verdict, s': State, table': Table)
    requires ValidLimits(l)
  {
    && s.stats.bytesRead <= l.maxTotalBytes
    && exists note ::
         WalkedAs(l, d, binary, visit, cancelled, s, Turn(verdict, s', note)) && table' == Marked(table, SCANNER_ID, note)
  }

  /** `n` calls lead to this state and table, the last with this verdict and all before it going on. */
  ghost predicate RunsTo(l: Limits, d: Detectors, binary: string -> bool, visits: seq<Visit>, cancel: Cancellation,
                         n: nat, verdict: Verdict, s: State, table: Table)
    requires ValidLimits(l)
  {
    if n == 0 then verdict == Continues && s == NOTHING_YET && table == map[]
    else
      var k: nat := n - 1;
      && n <= |visits|
      && exists s0, table0 ::
           && RunsTo(l, d, binary, visits, cancel, k, Continues, s0, table0)
           && Stepped(l, d, binary, visits[k], cancel.before(k), s0, table0, verdict, s, table)
  }

  lemma RunsNext(l: Limits, d: Detectors, binary: string -> bool, visits: seq<Visit>, cancel: Cancellation, n: nat,
                 s: State, table: Table, verdict: Verdict, s': State, table': Table, note: Option<Note>)
    requires ValidLimits(l) && n < |visits| && RunsTo(l, d, binary, visits, cancel, n, Continues, s, table)
    requires s.stats.bytesRead <= l.maxTotalBytes
    requires WalkedAs(l, d, binary, visits[n], cancel.before(n), s, Turn(verdict, s', note))
    requires table' == Marked(table, SCANNER_ID, note)
    ensures RunsTo(l, d, binary, visits, cancel, n + 1, verdict, s', table')
  {
    hide WalkedAs, Marked;
    assert Stepped(l, d, binary, visits[n], cancel.before(n), s, table, verdict, s', table');
  }

  lemma RunStarts(l: Limits, d: Detectors, binary: string -> bool, visits: seq<Visit>, cancel: Cancellation)
    requires ValidLimits(l)
    ensures RunsTo(l, d, binary, visits, cancel, 0, Continues, NOTHING_YET, map[])
  {
  }

  /** The visit is of a file the scan takes up, and its text is what reading it gives. */
  ghost predicate ReadFrom(l: Limits, binary: string -> bool, visit: Visit, f: File) {
    && visit.Entry? && visit.path == f.path && !visit.link && !visit.isDir
    && Depth(visit).Some? && Depth(visit).value <= l.maxDepth
    && visit.info.Regular? && visit.info.size <= l.maxFileBytes && !binary(f.content)
    && exists limit: nat :: limit <= l.maxFileBytes && ReadOutcome(visit.info.opening, limit, Content(f.content, false, false))
  }

  /** Every scanned file is of one of these visits. */
  ghost predicate FromVisits(l: Limits, binary: string -> bool, visits: seq<Visit>, n: nat, files: seq<File>) {
    n <= |visits| && forall f :: f in files ==> exists k :: 0 <= k < n && ReadFrom(l, binary, visits[k], f)
  }

  lemma KeptFile(l: Limits, d: Detectors, f: File, cancelled: nat -> bool, s: State, t: Turn)
    requires KeptAs(l, d, f, cancelled, s, t)
    ensures t.state.files == s.files || t.state.files == s.files + [f]
  {
    hide Inspected;
  }

  lemma WalkedFile(l: Limits, d: Detectors, binary: string -> bool, visit: Visit, cancelled: bool, s: State, t: Turn)
    requires ValidLimits(l) && s.stats.bytesRead <= l.maxTotalBytes && WalkedAs(l, d, binary, visit, cancelled, s, t)
    ensures forall f :: f in t.state.files ==> f in s.files || ReadFrom(l, binary, visit, f)
  {
    hide ReadOutcome, KeptAs, Depth;
    if t.state.files != s.files {
      var now := s.(stats := s.stats.(considered := s.stats.considered + 1), seen := s.seen + {visit.path});
      var size, opening, textCancelled := visit.info.size, visit.info.opening, visit.info.cancelled;
      var c :| ReadOutcome(opening, Budget(l, now.stats), c) && ReadAs(l, d, binary, visit.path, textCancelled, now, c, t);
      var read := now.(stats := now.stats.(bytesRead := now.stats.bytesRead + |c.bytes|));
      KeptFile(l, d, File(visit.path, c.bytes), textCancelled, read, t);
      assert c == Content(c.bytes, false, false);
    }
  }

  /** The scanned paths and texts are those of visited files. */
  lemma {:induction false} FilesAreVisited(l: Limits, d: Detectors, binary: string -> bool, visits: seq<Visit>,
                                           cancel: Cancellation, n: nat, verdict: Verdict, s: State, table: Table)
    requires ValidLimits(l) && RunsTo(l, d, binary, visits, cancel, n, verdict, s, table)
    ensures FromVisits(l, binary, visits, n, s.files)
  {
    hide WalkedAs, ReadFrom;
    if n > 0 {
      var k := n - 1;
      var s0, table0 :| RunsTo(l, d, binary, visits, cancel, k, Continues, s0, table0)
        && Stepped(l, d, binary, visits[k], cancel.before(k), s0, table0, verdict, s, table);
      FilesAreVisited(l, d, binary, visits, cancel, k, Continues, s0, table0);
      var note :| WalkedAs(l, d, binary, visits[k], cancel.before(k), s0, Turn(verdict, s, note))
        && table == Marked(table0, SCANNER_ID, note);
      WalkedFile(l, d, binary, visits[k], cancel.before(k), s0, Turn(verdict, s, note));
    }
  }

  /** Which note a call leaves: its path, the configured limit it is about, and the value observed. */
  lemma NotesAreExact(l: Limits, d: Detectors, binary: string -> bool, visit: Visit, cancelled: bool, s: State, t: Turn)
    requires ValidLimits(l) && s.stats.bytesRead <= l.maxTotalBytes && WalkedAs(l, d, binary, visit, cancelled, s, t)
    ensures t.note.Some? ==>
      && visit.Entry? && t.note.value.path == visit.path
      && match t.note.value.code
         case MaxDepth =>
           t.verdict == Continues && t.note.value.limit == l.maxDepth && Depth(visit) == Some(t.note.value.observed)
         case MaxFiles =>
           t.verdict == Halts && t.note.value.limit == l.maxFiles && t.note.value.observed == s.stats.considered + 1
         case MaxFindings =>
           t.verdict == Halts && t.note.value.limit == l.maxFindings && t.note.value.observed == l.maxFindings + 1
         case MaxFileBytes =>
           && visit.info.Regular? && t.verdict == Continues && t.note.value.limit == l.maxFileBytes
           && t.note.value.observed == (if visit.info.size > l.maxFileBytes then visit.info.size
                                        else t.state.stats.bytesRead - s.stats.bytesRead + 1)
         case MaxTotalBytes =>
           && visit.info.Regular? && t.verdict == Halts && t.note.value.limit == l.maxTotalBytes
           && t.note.value.observed == (if l.maxTotalBytes <= s.stats.bytesRead || visit.info.size > l.maxTotalBytes - s.stats.bytesRead
                                        then s.stats.bytesRead + visit.info.size
                                        else t.state.stats.bytesRead + 1)
    ensures t.state.stats.bytesRead != s.stats.bytesRead ==>
      visit.Entry? && visit.info.Regular? && visit.info.size <= l.maxFileBytes
      && visit.info.size <= l.maxTotalBytes - s.stats.bytesRead
  {
    hide ReadOutcome, Inspected, Depth;
  }

  /** The visit gets past the checks of path, depth and file count. */
  predicate TakenUp(l: Limits, visit: Visit, s: State) {
    && visit.Entry? && Depth(visit).Some? && Depth(visit).value <= l.maxDepth
    && !visit.link && !visit.isDir && visit.path !in s.seen && s.stats.considered < l.maxFiles
  }

  /** The visit is taken up, and its file is within the size limits. */
  predicate FileFits(l: Limits, visit: Visit, s: State) {
    TakenUp(l, visit, s) && visit.info.Regular? && visit.info.size <= l.maxFileBytes && !Short(l, s.stats, visit.info.size)
  }

  ghost predicate ReadFails(o: Opening, limit: nat) { exists c :: ReadOutcome(o, limit, c) && c.failed }

  ghost predicate ReadExceeds(o: Opening, limit: nat) { exists c :: ReadOutcome(o, limit, c) && c.exceeded }

  /** Reading the file gives a text during whose inspection the context is cancelled. */
  ghost predicate TextCancelled(o: Opening, limit: nat, path: string, cancelled: nat -> bool) {
    exists c: Content, k: nat ::
      ReadOutcome(o, limit, c) && !c.failed && !c.exceeded && cancelled(k) && k < |Lines(File(path, c.bytes))|
  }

  /** Reading the file gives a text with more findings than there is room for. */
  ghost predicate TooManyFindings(o: Opening, limit: nat, d: Detectors, path: string, room: int) {
    exists c :: ReadOutcome(o, limit, c) && !c.failed && !c.exceeded
      && |AllFindings(d, path, Lines(File(path, c.bytes)), 0)| > room
  }

  /** Why a call fails the scan or halts it. */
  ghost predicate Justified(l: Limits, d: Detectors, visit: Visit, cancelled: bool, s: State, verdict: Verdict)
    requires ValidLimits(l) && s.stats.bytesRead <= l.maxTotalBytes
  {
    match verdict
    case Continues => !cancelled
    case Fails =>
      cancelled || visit.WalkFails? || Depth(visit).None? || (TakenUp(l, visit, s) && visit.info.InfoFails?)
      || (FileFits(l, visit, s)
          && (ReadFails(visit.info.opening, Budget(l, s.stats))
              || TextCancelled(visit.info.opening, Budget(l, s.stats), visit.path, visit.info.cancelled)))
    case Halts =>
      && !cancelled
      && (s.stats.considered >= l.maxFiles
          || (TakenUp(l, visit, s) && visit.info.Regular? && visit.info.size <= l.maxFileBytes
              && Short(l, s.stats, visit.info.size))
          || (FileFits(l, visit, s)
              && ((l.maxTotalBytes - s.stats.bytesRead < l.maxFileBytes
                   && ReadExceeds(visit.info.opening, Budget(l, s.stats)))
                  || TooManyFindings(visit.info.opening, Budget(l, s.stats), d, visit.path,
                                     l.maxFindings - |s.findings|))))
  }

  lemma KeptMeans(l: Limits, d: Detectors, f: File, cancelled: nat -> bool, s: State, t: Turn)
    requires KeptAs(l, d, f, cancelled, s, t)
    ensures t.verdict.Fails? ==> exists k: nat :: k < |Lines(f)| && cancelled(k)
    ensures t.verdict.Halts? ==> |AllFindings(d, f.path, Lines(f), 0)| > l.maxFindings - |s.findings|
  {
    hide AllFindings, Lines, SortFindings, Seen;
    var found, failed :| Inspected(d, f.path, Lines(f), TextLimit(l, s), cancelled, found, failed)
      && t == if failed then Turn(Fails, s.(stats := s.stats.(scanned := s.stats.scanned + 1)), None)
              else AfterInspection(l, f, s, found);
    SortKeepsLength(Take(AllFindings(d, f.path, Lines(f), 0), TextLimit(l, s)));
  }

  lemma FileIsJustified(l: Limits, d: Detectors, binary: string -> bool, visit: Visit, s: State, now: State, t: Turn)
    requires ValidLimits(l) && s.stats.bytesRead <= l.maxTotalBytes && TakenUp(l, visit, s) && visit.info.Regular?
    requires now == s.(seen := s.seen + {visit.path}, stats := s.stats.(considered := s.stats.considered + 1))
    requires ScannedAs(l, d, binary, visit.path, visit.info.size, visit.info.opening, visit.info.cancelled, now, t)
    ensures Justified(l, d, visit, false, s, t.verdict)
  {
    hide ReadOutcome, KeptAs, Depth, AllFindings, Lines;
    var opening := visit.info.opening;
    if FileFits(l, visit, s) {
      assert Budget(l, now.stats) == Budget(l, s.stats);
      var c :| ReadOutcome(opening, Budget(l, now.stats), c)
        && ReadAs(l, d, binary, visit.path, visit.info.cancelled, now, c, t);
      if !c.failed && !c.exceeded && !binary(c.bytes) {
        KeptMeans(l, d, File(visit.path, c.bytes), visit.info.cancelled,
                  now.(stats := now.stats.(bytesRead := now.stats.bytesRead + |c.bytes|)), t);
      }
    }
  }

  /** A call fails only for a cancellation, an entry that cannot be inspected or a file that cannot be
      read, and halts the scan only for the number of files, for want of bytes or for too many findings. */
  lemma TurnIsJustified(l: Limits, d: Detectors, binary: string -> bool, visit: Visit, cancelled: bool, s: State, t: Turn)
    requires ValidLimits(l) && s.stats.bytesRead <= l.maxTotalBytes && WalkedAs(l, d, binary, visit, cancelled, s, t)
    ensures Justified(l, d, visit, cancelled, s, t.verdict)
  {
    hide ScannedAs, ReadFails, ReadExceeds, TextCancelled, TooManyFindings, Depth, Short;
    if TakenUp(l, visit, s) && !cancelled && visit.info.Regular? {
      var now := s.(seen := s.seen + {visit.path}, stats := s.stats.(considered := s.stats.considered + 1));
      FileIsJustified(l, d, binary, visit, s, now, t);
    }
  }

  /** The last call of a run, and why the run ends with it. */
  lemma EndIsJustified(l: Limits, d: Detectors, binary: string -> bool, visits: seq<Visit>, cancel: Cancellation,
                       n: nat, verdict: Verdict, s: State, table: Table) returns (s0: State, table0: Table)
    requires ValidLimits(l) && n > 0 && RunsTo(l, d, binary, visits, cancel, n, verdict, s, table)
    ensures n <= |visits| && RunsTo(l, d, binary, visits, cancel, n - 1, Continues, s0, table0)
    ensures s0.stats.bytesRead <= l.maxTotalBytes
    ensures Justified(l, d, visits[n - 1], cancel.before(n - 1), s0, verdict)
  {
    hide WalkedAs, Justified, Marked;
    var k := n - 1;
    s0, table0 :| RunsTo(l, d, binary, visits, cancel, k, Continues, s0, table0)
      && Stepped(l, d, binary, visits[k], cancel.before(k), s0, table0, verdict, s, table);
    var note :| WalkedAs(l, d, binary, visits[k], cancel.before(k), s0, Turn(verdict, s, note))
      && table == Marked(table0, SCANNER_ID, note);
    TurnIsJustified(l, d, binary, visits[k], cancel.before(k), s0, Turn(verdict, s, note));
  }

  /** `Scan`: the roots in order, and the calls of the walk function each of them gives, until one stops
      the scan.  `n` calls are made, the last with this verdict. */
  method ScanRoots(l: Limits, d: Detectors, binary: string -> bool, tree: Tree, paths: seq<string>,
                   cancel: Cancellation)
    returns (s: State, coverage: Accumulator, sorted: seq<SecretFinding>, failed: bool, roots: seq<string>, n: nat,
             ghost verdict: Verdict)
    requires ValidLimits(l) && forall root, v :: v in tree.walk(root) ==> Progresses(v)
    ensures cancel.start ==> failed && n == 0
    ensures !cancel.start ==> NormalPaths(tree, paths, roots)
    ensures RunsTo(l, d, binary, Visits(tree, roots), cancel, n, verdict, s, coverage.byCode)
    ensures failed <==> cancel.start || verdict.Fails?
    ensures !failed && verdict.Continues? ==> n == |Visits(tree, roots)|
    ensures FromVisits(l, binary, Visits(tree, roots), n, s.files)
    ensures fresh(coverage) && s.stats.bytesRead <= l.maxTotalBytes
    ensures sorted == SortFindings(s.findings)
    ensures !failed ==> Balanced(l, d, Visits(tree, roots), n, s, coverage.byCode)
  {
    hide Books, Balanced, Progresses, SortFindings, NormalPaths, Visits, RunsTo, FromVisits, WalkedAs, Marked;
    coverage := new Accumulator(SCANNER_ID);
    s, n, verdict := NOTHING_YET, 0, Continues;
    if cancel.start {
      roots := [];
      RunStarts(l, d, binary, Visits(tree, roots), cancel);
      FilesAreVisited(l, d, binary, Visits(tree, roots), cancel, n, verdict, s, coverage.byCode);
      return s, coverage, SortFindings(s.findings), true, roots, n, verdict;
    }
    roots := NormalizePaths(tree, paths);
    ghost var visits := Visits(tree, roots);
    BooksOpen(l, d, visits, s, coverage.byCode);
    RunStarts(l, d, binary, visits, cancel);
    NoRootsNoVisits(tree, roots, n);
    for i := 0 to |roots|
      invariant fresh(coverage) && coverage.scannerID == SCANNER_ID && s.stats.bytesRead <= l.maxTotalBytes
      invariant n == |Visits(tree, roots[..i])| <= |visits|
      invariant RunsTo(l, d, binary, visits, cancel, n, Continues, s, coverage.byCode)
      invariant Books(l, d, visits, n, s, coverage.byCode)
    {
      VisitsOfRoot(tree, roots, i);
      var walked := tree.walk(roots[i]);
      for j := 0 to |walked|
        invariant fresh(coverage) && coverage.scannerID == SCANNER_ID && s.stats.bytesRead <= l.maxTotalBytes
        invariant n == |Visits(tree, roots[..i])| + j <= |visits|
        invariant RunsTo(l, d, binary, visits, cancel, n, Continues, s, coverage.byCode)
        invariant Books(l, d, visits, n, s, coverage.byCode)
      {
        assert walked[j] == Visits(tree, roots[..i + 1])[n] == visits[n];
        assert walked[j] in tree.walk(roots[i]);
        ghost var s0, table0, note := s, coverage.byCode, None;
        var next;
        next, s, note := Walk(l, d, binary, walked[j], visits, n, s, coverage, cancel.before);
        RunsNext(l, d, binary, visits, cancel, n, s0, table0, next, s, coverage.byCode, note);
        n := n + 1;
        if !next.Continues? {
          FilesAreVisited(l, d, binary, visits, cancel, n, next, s, coverage.byCode);
          return s, coverage, SortFindings(s.findings), next.Fails?, roots, n, next;
        }
      }
    }
    assert roots[..|roots|] == roots;
    BooksBalance(l, d, visits, s, coverage.byCode);
    FilesAreVisited(l, d, binary, visits, cancel, n, Continues, s, coverage.byCode);
    return s, coverage, SortFindings(s.findings), false, roots, n, Continues;
  }

  lemma NoRootsNoVisits(tree: Tree, roots: seq<string>, n: nat)
    requires n == 0
    ensures Visits(tree, roots[..n]) == []
  {
  }

  lemma BooksOpen(l: Limits, d: Detectors, visits: seq<Visit>, s: State, table: Table)
    requires ValidLimits(l) && table == map[]
    requires s == State(Stats(0, 0, 0, 0, 0, 0, 0), [], {}, [])
    ensures Books(l, d, visits, 0, s, table)
  {
  }

  lemma BooksBalance(l: Limits, d: Detectors, visits: seq<Visit>, s: State, table: Table)
    requires Books(l, d, visits, |visits|, s, table)
    ensures Balanced(l, d, visits, |visits|, s, table)
  {
    hide Occurrences, FoundIn, CountDeep, CountLinks;
  }
}
