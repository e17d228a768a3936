/** Executable triage of internal/scanner/executable.go: hashing within byte budgets, whatever the
    files do meanwhile. */
module Triage {
  import opened Ordering
  import opened Model
  import opened Coverage
  import opened FileRead

  // ----- hashing one file -----

  datatype Hashed = Hashed(content: string, exceeded: bool, usable: bool, failed: bool)

  const BUFFER: nat := 0x1_0000

  /** The closing inspection, number `k`: the size must be what was hashed. */
  function FinalCheck(file: OpenFile, content: string, k: nat): (Hashed, nat) {
    match file.sizes(k)
    case None => (Hashed(content, false, false, true), k + 1)
    case Some(size) => (Hashed(content, size != |content|, true, false), k + 1)
  }

  /** What the loop's end means, and the number of inspections it took.  At the limit a file that goes on
      is too long; one that does not is inspected once more. */
  function HashedAfter(file: OpenFile, content: string, stop: Stop): (Hashed, nat) {
    match stop
    case AtEnd => FinalCheck(file, content, 0)
    case AtLimit =>
      (match file.sizes(0)
       case None => (Hashed(content, false, false, true), 1)
       case Some(size) =>
         if size > |content| then (Hashed(content, true, true, false), 1) else FinalCheck(file, content, 1))
    case _ => (Hashed(content, false, false, true), 0)
  }

  /** The outcome of `hashExecutableBounded`, in terms of what the file does. */
  ghost predicate HashOutcome(o: Opening, limit: nat, r: Hashed, stats: nat) {
    match o
    case OpenFails => r == Hashed("", false, false, true) && stats == 0
    case Replaced => r == Hashed("", false, false, false) && stats == 0
    case Opened(file) => exists n: nat, stop ::
      StopsAfter(file, BUFFER, limit, n, stop) && (r, stats) == HashedAfter(file, Gather(file, BUFFER, limit, n), stop)
  }

  /** The size the file had when it was last inspected. */
  function LastSize(o: Opening, stats: nat): Option<int> {
    if o.Opened? && stats > 0 then o.file.sizes(stats - 1) else None
  }

  /** `content` is what went into the hash, `stats` the number of inspections. */
  method HashBounded(o: Opening, limit: nat) returns (r: Hashed, stats: nat)
    requires Progresses(o)
    ensures HashOutcome(o, limit, r, stats)
    ensures |r.content| <= limit
    ensures !r.usable && !r.failed <==> o.Replaced?
    ensures o.Replaced? ==> r.content == ""
    ensures r.usable ==> !r.failed && stats > 0 && LastSize(o, stats).Some?
    ensures r.usable ==> (r.exceeded <==> LastSize(o, stats).value != |r.content|)
  {
    hide Gather, StopsAfter, Progresses;
    match o {
      case OpenFails => return Hashed("", false, false, true), 0;
      case Replaced => return Hashed("", false, false, false), 0;
      case Opened(file) =>
        var content, n, stop := ReadLoop(file, BUFFER, limit);
        stats := 0;
        if stop == OnError || stop == OnCancel {
          return Hashed(content, false, false, true), stats;
        }
        if stop == AtLimit {
          var current := file.sizes(stats);
          stats := stats + 1;
          if current.None? {
            return Hashed(content, false, false, true), stats;
          }
          if current.value > |content| {
            return Hashed(content, true, true, false), stats;
          }
        }
        var final := file.sizes(stats);
        stats := stats + 1;
        if final.None? {
          return Hashed(content, false, false, true), stats;
        }
        return Hashed(content, final.value != |content|, true, false), stats;
    }
  }

  /** A file that shrinks after its last byte was read counts as exceeding a limit, though the bytes
      hashed are within it and the file is smaller still. */
  lemma ShrunkFileExceeds(file: OpenFile, bytes: string, size: nat, limit: nat, r: Hashed, stats: nat)
    requires file.chunks(0) == End(bytes) && !file.cancelled(0) && file.sizes(0) == Some(size)
    requires size < |bytes| <= limit && |bytes| <= BUFFER
    requires HashOutcome(Opened(file), limit, r, stats)
    ensures r == Hashed(bytes, true, true, false) && LastSize(Opened(file), stats) == Some(size)
  {
    var n: nat, stop :| StopsAfter(file, BUFFER, limit, n, stop)
      && (r, stats) == HashedAfter(file, Gather(file, BUFFER, limit, n), stop);
    OneReadStops(file, bytes, limit, 1);
    StopsOnce(file, BUFFER, limit, n, 1, stop, AtEnd);
  }

  lemma OneReadStops(file: OpenFile, bytes: string, limit: nat, n: nat)
    requires n == 1 && file.chunks(0) == End(bytes) && !file.cancelled(0) && 0 < |bytes| <= limit && |bytes| <= BUFFER
    ensures Gather(file, BUFFER, limit, n) == bytes && StopsAfter(file, BUFFER, limit, n, AtEnd)
  {
    GatherNext(file, BUFFER, limit, 0);
    assert Gather(file, BUFFER, limit, 0) == "";
  }

  // ----- candidates -----

  /** What `Lstat` finds at a path, and what opening it would give. */
  datatype Inspection = Missing | Unreadable | Symlink | NonRegular | NonExecutable | Executable(size: int, opening: Opening)

  datatype Candidate = Candidate(path: string, isNew: bool)

  datatype Limits = Limits(maxFileBytes: int, maxTotalBytes: int, maxFiles: int)

  predicate ValidLimits(l: Limits) { l.maxFileBytes > 0 && l.maxTotalBytes > 0 && l.maxFiles > 0 }

  function PathOf(): Candidate -> string { (c: Candidate) => c.path }

  function ByPath(): (Candidate, Candidate) -> bool { ByKey(PathOf()) }

  /** The file system: path cleaning, and the state of each path when it is visited. */
  datatype FileSystem = FileSystem(clean: string -> string, inspect: string -> Inspection)

  ghost predicate Behaves(fs: FileSystem) {
    forall path :: fs.inspect(path).Executable? ==> Progresses(fs.inspect(path).opening)
  }

  ghost predicate Listed(fs: FileSystem, candidates: seq<Candidate>, path: string) {
    exists c :: c in candidates && !Blank(c.path) && fs.clean(c.path) == path
  }

  ghost predicate ListedAsNew(fs: FileSystem, candidates: seq<Candidate>, path: string) {
    exists c :: c in candidates && !Blank(c.path) && fs.clean(c.path) == path && c.isNew
  }

  /** Each cleaned path once, in strict order, new when any of its listings was. */
  ghost predicate Normalizes(fs: FileSystem, candidates: seq<Candidate>, normalized: seq<Candidate>) {
    && StrictlySorted(ByPath(), normalized)
    && (forall c :: c in normalized ==> Listed(fs, candidates, c.path) && (c.isNew <==> ListedAsNew(fs, candidates, c.path)))
    && (forall path :: Listed(fs, candidates, path) ==> exists c :: c in normalized && c.path == path)
  }

  /** The map of `normalizeCandidates`, after some candidates. */
  ghost predicate Collected(fs: FileSystem, candidates: seq<Candidate>, byPath: map<string, Candidate>) {
    && (forall path :: path in byPath <==> Listed(fs, candidates, path))
    && (forall path :: path in byPath ==>
          byPath[path].path == path && (byPath[path].isNew <==> ListedAsNew(fs, candidates, path)))
  }

  method CollectCandidates(fs: FileSystem, candidates: seq<Candidate>) returns (byPath: map<string, Candidate>)
    ensures Collected(fs, candidates, byPath)
  {
    hide Blank, Listed, ListedAsNew;
    byPath := map[];
    NothingListed(fs);
    for i := 0 to |candidates|
      invariant Collected(fs, candidates[..i], byPath)
    {
      assert candidates[..i + 1] == candidates[..i] + [candidates[i]];
      ListingGrows(fs, candidates[..i], candidates[i]);
      var candidate := candidates[i];
      if !Blank(candidate.path) {
        var path := fs.clean(candidate.path);
        if path in byPath {
          byPath := byPath[path := byPath[path].(isNew := byPath[path].isNew || candidate.isNew)];
        } else {
          byPath := byPath[path := Candidate(path, candidate.isNew)];
        }
      }
    }
    assert candidates[..|candidates|] == candidates;
  }

  lemma NothingListed(fs: FileSystem)
    ensures forall path :: !Listed(fs, [], path) && !ListedAsNew(fs, [], path)
  {
  }

  method NormalizeCandidates(fs: FileSystem, candidates: seq<Candidate>) returns (normalized: seq<Candidate>)
    ensures Normalizes(fs, candidates, normalized)
  {
    hide Sort, StrLess, Blank, Listed, ListedAsNew;
    var byPath := CollectCandidates(fs, candidates);
    normalized := [];
    var paths := byPath.Keys;
    while paths != {}
      invariant paths <= byPath.Keys
      invariant forall c :: c in normalized <==> c.path in byPath && c.path !in paths && byPath[c.path] == c
      invariant forall i, j :: 0 <= i < j < |normalized| ==> normalized[i].path != normalized[j].path
      decreases paths
    {
      var path :| path in paths;
      normalized, paths := normalized + [byPath[path]], paths - {path};
    }
    PathsDistinguish(normalized);
    ByKeyIsStrictOrder(PathOf());
    SortIsSorted(ByPath(), normalized);
    SortKeepsMembers(ByPath(), normalized);
    normalized := Sort(ByPath(), normalized);
    forall path | Listed(fs, candidates, path) ensures exists c :: c in normalized && c.path == path {
      assert byPath[path] in normalized;
    }
  }

  lemma ListingGrows(fs: FileSystem, before: seq<Candidate>, c: Candidate)
    ensures forall path :: Listed(fs, before + [c], path) <==>
      Listed(fs, before, path) || (!Blank(c.path) && fs.clean(c.path) == path)
    ensures forall path :: ListedAsNew(fs, before + [c], path) <==>
      ListedAsNew(fs, before, path) || (!Blank(c.path) && fs.clean(c.path) == path && c.isNew)
    ensures forall path :: ListedAsNew(fs, before, path) ==> Listed(fs, before, path)
  {
    hide Blank;
    assert c in before + [c];
    forall path | Listed(fs, before, path) ensures Listed(fs, before + [c], path) {
      var x :| x in before && !Blank(x.path) && fs.clean(x.path) == path;
      assert x in before + [c];
    }
    forall path | ListedAsNew(fs, before, path) ensures ListedAsNew(fs, before + [c], path) && Listed(fs, before, path) {
      var x :| x in before && !Blank(x.path) && fs.clean(x.path) == path && x.isNew;
      assert x in before + [c];
    }
  }

  lemma PathsDistinguish(candidates: seq<Candidate>)
    requires forall i, j :: 0 <= i < j < |candidates| ==> candidates[i].path != candidates[j].path
    ensures Distinguished(ByPath(), candidates)
  {
    hide StrLess;
    forall i, j | 0 <= i < j < |candidates|
      ensures ByPath()(candidates[i], candidates[j]) || ByPath()(candidates[j], candidates[i])
    {
      StrLessTotal(candidates[i].path, candidates[j].path);
    }
  }

  // ----- triage -----

  datatype ExecutableRecord = ExecutableRecord(path: string, content: string)

  datatype Stats = Stats(
    considered: nat, triaged: nat, bytesHashed: nat, missing: nat, symlinks: nat, nonRegular: nat,
    nonExecutable: nat, oversize: nat)

  /** Candidates with a recorded outcome. */
  function Outcomes(s: Stats): nat {
    s.triaged + s.missing + s.symlinks + s.nonRegular + s.nonExecutable + s.oversize
  }

  /** Why a candidate is skipped whatever the budgets, if it is. */
  datatype Skip = AsMissing | AsSymlink | AsNonRegular | AsNonExecutable | NotSkipped

  function SkipOf(l: Limits, i: Inspection): Skip {
    match i
    case Missing => AsMissing
    case Symlink => AsSymlink
    case NonRegular => AsNonRegular
    case NonExecutable => AsNonExecutable
    case Executable(size, opening) => if size <= l.maxFileBytes && opening.Replaced? then AsNonRegular else NotSkipped
    case Unreadable => NotSkipped
  }

  function Skipped(l: Limits, fs: FileSystem, candidates: seq<Candidate>, skip: Skip): nat {
    if candidates == [] then 0
    else
      var last := candidates[|candidates| - 1];
      Skipped(l, fs, candidates[..|candidates| - 1], skip) + (if SkipOf(l, fs.inspect(last.path)) == skip then 1 else 0)
  }

  datatype Skips = Skips(missing: nat, symlinks: nat, nonRegular: nat, nonExecutable: nat)

  function SkipsIn(s: Stats): Skips { Skips(s.missing, s.symlinks, s.nonRegular, s.nonExecutable) }

  function CountSkips(l: Limits, fs: FileSystem, candidates: seq<Candidate>): Skips {
    Skips(Skipped(l, fs, candidates, AsMissing), Skipped(l, fs, candidates, AsSymlink),
          Skipped(l, fs, candidates, AsNonRegular), Skipped(l, fs, candidates, AsNonExecutable))
  }

  function AddSkip(c: Skips, skip: Skip): Skips {
    match skip
    case AsMissing => c.(missing := c.missing + 1)
    case AsSymlink => c.(symlinks := c.symlinks + 1)
    case AsNonRegular => c.(nonRegular := c.nonRegular + 1)
    case AsNonExecutable => c.(nonExecutable := c.nonExecutable + 1)
    case NotSkipped => c
  }

  lemma SkipsNext(l: Limits, fs: FileSystem, candidates: seq<Candidate>, i: nat)
    requires i < |candidates|
    ensures CountSkips(l, fs, candidates[..i + 1]) ==
      AddSkip(CountSkips(l, fs, candidates[..i]), SkipOf(l, fs.inspect(candidates[i].path)))
  {
    hide SkipOf;
    assert candidates[..i + 1][..i] == candidates[..i];
  }

  ghost function CandidatesThat(fs: FileSystem, candidates: seq<Candidate>, holds: Inspection -> bool): set<nat> {
    set i: nat | i < |candidates| && holds(fs.inspect(candidates[i].path))
  }

  /** The counters count candidates: missing paths, symbolic links, other files that are not regular or were
      replaced before they could be hashed, and files that are not executable. */
  lemma {:induction false} SkipsAreCounted(l: Limits, fs: FileSystem, candidates: seq<Candidate>, skip: Skip,
                                           holds: Inspection -> bool)
    requires forall i :: holds(i) <==> match skip
      case AsMissing => i.Missing?
      case AsSymlink => i.Symlink?
      case AsNonRegular => i.NonRegular? || (i.Executable? && i.size <= l.maxFileBytes && i.opening.Replaced?)
      case AsNonExecutable => i.NonExecutable?
      case NotSkipped => i.Unreadable? || (i.Executable? && (i.size > l.maxFileBytes || !i.opening.Replaced?))
    ensures Skipped(l, fs, candidates, skip) == |CandidatesThat(fs, candidates, holds)|
  {
    if candidates == [] {
      assert CandidatesThat(fs, candidates, holds) == {};
    } else {
      var n := |candidates| - 1;
      SkipsAreCounted(l, fs, candidates[..n], skip, holds);
      var before := CandidatesThat(fs, candidates[..n], holds);
      if holds(fs.inspect(candidates[n].path)) {
        assert CandidatesThat(fs, candidates, holds) == before + {n};
      } else {
        assert CandidatesThat(fs, candidates, holds) == before;
      }
    }
  }

  datatype Report = Report(executables: seq<ExecutableRecord>, coverage: Table, stats: Stats)

  /** The books of a triage that ran to its end: every candidate considered has one outcome, except the
      one at which a total-bytes limit stopped the scan; each oversize file has its note; and candidates
      left unvisited are explained by a recorded stop. */
  ghost predicate Balanced(l: Limits, fs: FileSystem, normalized: seq<Candidate>, r: Report) {
    var candidates := |normalized|;
    && r.stats.considered == Outcomes(r.stats) + Occurrences(r.coverage, MaxTotalBytes)
    && Occurrences(r.coverage, MaxTotalBytes) <= 1
    && Occurrences(r.coverage, MaxFileBytes) == r.stats.oversize
    && r.stats.considered <= candidates && r.stats.considered <= l.maxFiles
    && (r.stats.considered < candidates ==> Occurrences(r.coverage, MaxTotalBytes) + Occurrences(r.coverage, MaxFiles) == 1)
    && (Occurrences(r.coverage, MaxFiles) > 0 ==> r.stats.considered == l.maxFiles < candidates)
    && |r.executables| == r.stats.triaged
    && SkipsIn(r.stats) == CountSkips(l, fs, normalized[..Outcomes(r.stats)])
  }

  datatype Verdict = Fails | Stops | Continues

  ghost predicate Noted(before: Table, after: Table, code: Code) {
    && Occurrences(after, MaxFileBytes) == Occurrences(before, MaxFileBytes) + (if code == MaxFileBytes then 1 else 0)
    && Occurrences(after, MaxTotalBytes) == Occurrences(before, MaxTotalBytes) + (if code == MaxTotalBytes then 1 else 0)
    && Occurrences(after, MaxFiles) == Occurrences(before, MaxFiles) + (if code == MaxFiles then 1 else 0)
  }

  /** One candidate's turn: how the scan goes on, the new counts, what is recorded, and the note. */
  datatype Turn = Turn(verdict: Verdict, stats: Stats, content: Option<string>, note: Option<Note>)

  /** The total leaves nothing, or less than the file's size. */
  predicate Short(l: Limits, stats: Stats, size: int) {
    l.maxTotalBytes <= stats.bytesHashed || size > l.maxTotalBytes - stats.bytesHashed
  }

  /** How many bytes of a file may be hashed. */
  function Budget(l: Limits, stats: Stats): (n: nat)
    requires ValidLimits(l) && stats.bytesHashed <= l.maxTotalBytes
    ensures n <= l.maxFileBytes && stats.bytesHashed + n <= l.maxTotalBytes
  {
    if l.maxFileBytes < l.maxTotalBytes - stats.bytesHashed then l.maxFileBytes else l.maxTotalBytes - stats.bytesHashed
  }

  /** What follows from hashing; `looked` says that the context was cancelled during the package lookup. */
  function AfterHash(l: Limits, path: string, looked: bool, stats: Stats, h: Hashed): Turn {
    var after := stats.(bytesHashed := stats.bytesHashed + |h.content|);
    if h.failed then Turn(Fails, after, None, None)
    else if !h.usable then Turn(Continues, after.(nonRegular := stats.nonRegular + 1), None, None)
    else if h.exceeded && l.maxTotalBytes - stats.bytesHashed < l.maxFileBytes then
      Turn(Stops, after, None, Some(Note(MaxTotalBytes, path, l.maxTotalBytes, after.bytesHashed + 1)))
    else if h.exceeded then
      Turn(Continues, after.(oversize := stats.oversize + 1), None,
           Some(Note(MaxFileBytes, path, l.maxFileBytes, |h.content| + 1)))
    else if looked then Turn(Fails, after, None, None)
    else Turn(Continues, after.(triaged := stats.triaged + 1), Some(h.content), None)
  }

  /** The turn of an executable file, in terms of what hashing it gives. */
  ghost predicate ExaminedAs(l: Limits, path: string, size: int, opening: Opening, looked: bool, stats: Stats, t: Turn)
    requires ValidLimits(l) && stats.bytesHashed <= l.maxTotalBytes
  {
    if size > l.maxFileBytes then
      t == Turn(Continues, stats.(oversize := stats.oversize + 1), None,
                Some(Note(MaxFileBytes, path, l.maxFileBytes, size)))
    else if Short(l, stats, size) then
      t == Turn(Stops, stats, None, Some(Note(MaxTotalBytes, path, l.maxTotalBytes, stats.bytesHashed + size)))
    else
      exists h, k: nat :: HashOutcome(opening, Budget(l, stats), h, k) && t == AfterHash(l, path, looked, stats, h)
  }

  lemma UnhashedIsExamined(l: Limits, path: string, size: int, opening: Opening, looked: bool, stats: Stats)
    requires ValidLimits(l) && stats.bytesHashed <= l.maxTotalBytes
    ensures size > l.maxFileBytes ==>
      ExaminedAs(l, path, size, opening, looked, stats,
                 Turn(Continues, stats.(oversize := stats.oversize + 1), None,
                      Some(Note(MaxFileBytes, path, l.maxFileBytes, size))))
    ensures size <= l.maxFileBytes && Short(l, stats, size) ==>
      ExaminedAs(l, path, size, opening, looked, stats,
                 Turn(Stops, stats, None, Some(Note(MaxTotalBytes, path, l.maxTotalBytes, stats.bytesHashed + size))))
  {
    hide HashOutcome, AfterHash;
  }

  lemma HashedIsExamined(l: Limits, path: string, size: int, opening: Opening, looked: bool, stats: Stats, h: Hashed,
                         k: nat)
    requires ValidLimits(l) && stats.bytesHashed <= l.maxTotalBytes
    requires size <= l.maxFileBytes && !Short(l, stats, size) && HashOutcome(opening, Budget(l, stats), h, k)
    ensures ExaminedAs(l, path, size, opening, looked, stats, AfterHash(l, path, looked, stats, h))
  {
    hide HashOutcome, AfterHash;
  }

  /** The part of the loop that sizes up and hashes one executable file. */
  method Examine(l: Limits, path: string, size: int, opening: Opening, looked: bool, stats: Stats,
                 coverage: Accumulator)
    returns (verdict: Verdict, after: Stats, content: Option<string>, ghost note: Option<Note>)
    requires ValidLimits(l) && Progresses(opening) && stats.bytesHashed <= l.maxTotalBytes
    modifies coverage
    ensures ExaminedAs(l, path, size, opening, looked, stats, Turn(verdict, after, content, note))
    ensures coverage.byCode == Marked(old(coverage.byCode), coverage.scannerID, note)
    ensures after.bytesHashed <= l.maxTotalBytes
    ensures !verdict.Continues? ==> content.None?
    ensures verdict.Stops? ==>
      after == stats.(bytesHashed := after.bytesHashed) && Noted(old(coverage.byCode), coverage.byCode, MaxTotalBytes)
    ensures verdict.Continues? && content.Some? ==>
      && after == stats.(bytesHashed := stats.bytesHashed + |content.value|, triaged := stats.triaged + 1)
      && |content.value| <= l.maxFileBytes && coverage.byCode == old(coverage.byCode)
      && SkipOf(l, Executable(size, opening)) == NotSkipped
    ensures verdict.Continues? && content.None? && SkipOf(l, Executable(size, opening)) == AsNonRegular ==>
      after == stats.(nonRegular := stats.nonRegular + 1) && coverage.byCode == old(coverage.byCode)
    ensures verdict.Continues? && content.None? && SkipOf(l, Executable(size, opening)) != AsNonRegular ==>
      && after == stats.(bytesHashed := after.bytesHashed, oversize := stats.oversize + 1)
      && Noted(old(coverage.byCode), coverage.byCode, MaxFileBytes)
  {
    hide AddNote, Occurrences, HashOutcome, ExaminedAs;
    after, content, note := stats, None, None;
    var remaining := l.maxTotalBytes - stats.bytesHashed;
    if size > l.maxFileBytes {
      note := Some(Note(MaxFileBytes, path, l.maxFileBytes, size));
      AddCounts(coverage.byCode, coverage.scannerID, note.value);
      coverage.Add(MaxFileBytes, path, l.maxFileBytes, size);
      UnhashedIsExamined(l, path, size, opening, looked, stats);
      return Continues, stats.(oversize := stats.oversize + 1), None, note;
    }
    if remaining <= 0 || size > remaining {
      note := Some(Note(MaxTotalBytes, path, l.maxTotalBytes, stats.bytesHashed + size));
      AddCounts(coverage.byCode, coverage.scannerID, note.value);
      coverage.Add(MaxTotalBytes, path, l.maxTotalBytes, stats.bytesHashed + size);
      UnhashedIsExamined(l, path, size, opening, looked, stats);
      return Stops, stats, None, note;
    }
    var limit: nat := if l.maxFileBytes < remaining then l.maxFileBytes else remaining;
    var hashed, inspections := HashBounded(opening, limit);
    HashedIsExamined(l, path, size, opening, looked, stats, hashed, inspections);
    after := stats.(bytesHashed := stats.bytesHashed + |hashed.content|);
    if hashed.failed {
      return Fails, after, None, None;
    }
    if !hashed.usable {
      return Continues, after.(nonRegular := stats.nonRegular + 1), None, None;
    }
    if hashed.exceeded {
      var total := remaining < l.maxFileBytes;
      var exceeding :=
        if total then Note(MaxTotalBytes, path, l.maxTotalBytes, after.bytesHashed + 1)
        else Note(MaxFileBytes, path, l.maxFileBytes, |hashed.content| + 1);
      AddCounts(coverage.byCode, coverage.scannerID, exceeding);
      coverage.Add(exceeding.code, exceeding.path, exceeding.limit, exceeding.observed);
      if total {
        return Stops, after, None, Some(exceeding);
      }
      return Continues, after.(oversize := stats.oversize + 1), None, Some(exceeding);
    }
    if looked {
      return Fails, after, None, None;
    }
    return Continues, after.(triaged := stats.triaged + 1), Some(hashed.content), None;
  }

  /** How the books move when a candidate gets its outcome. */
  ghost predicate Booked(l: Limits, i: Inspection, before: Stats, after: Stats, table: Table, table': Table,
                         content: Option<string>)
  {
    && after.considered == before.considered + 1 && Outcomes(after) == Outcomes(before) + 1
    && SkipsIn(after) == AddSkip(SkipsIn(before), SkipOf(l, i))
    && after.triaged == before.triaged + (if content.Some? then 1 else 0)
    && Occurrences(table', MaxFileBytes) == Occurrences(table, MaxFileBytes) + after.oversize - before.oversize
    && Occurrences(table', MaxTotalBytes) == Occurrences(table, MaxTotalBytes)
    && Occurrences(table', MaxFiles) == Occurrences(table, MaxFiles)
  }

  /** The turn of one more candidate considered. */
  ghost predicate VisitedAs(l: Limits, path: string, i: Inspection, looked: bool, stats: Stats, t: Turn)
    requires ValidLimits(l) && stats.bytesHashed <= l.maxTotalBytes
  {
    var now := stats.(considered := stats.considered + 1);
    match i
    case Missing => t == Turn(Continues, now.(missing := stats.missing + 1), None, None)
    case Unreadable => t == Turn(Fails, now, None, None)
    case Symlink => t == Turn(Continues, now.(symlinks := stats.symlinks + 1), None, None)
    case NonRegular => t == Turn(Continues, now.(nonRegular := stats.nonRegular + 1), None, None)
    case NonExecutable => t == Turn(Continues, now.(nonExecutable := stats.nonExecutable + 1), None, None)
    case Executable(size, opening) => ExaminedAs(l, path, size, opening, looked, now, t)
  }

  /** The rest of the loop body: one more candidate considered. */
  method Visit(l: Limits, path: string, i: Inspection, looked: bool, stats: Stats, coverage: Accumulator)
    returns (verdict: Verdict, after: Stats, content: Option<string>, ghost note: Option<Note>)
    requires ValidLimits(l) && (i.Executable? ==> Progresses(i.opening)) && stats.bytesHashed <= l.maxTotalBytes
    modifies coverage
    ensures VisitedAs(l, path, i, looked, stats, Turn(verdict, after, content, note))
    ensures coverage.byCode == Marked(old(coverage.byCode), coverage.scannerID, note)
    ensures after.bytesHashed <= l.maxTotalBytes
    ensures !verdict.Continues? ==> content.None?
    ensures verdict.Stops? ==>
      && after == stats.(considered := stats.considered + 1, bytesHashed := after.bytesHashed)
      && Noted(old(coverage.byCode), coverage.byCode, MaxTotalBytes)
    ensures verdict.Continues? ==> Booked(l, i, stats, after, old(coverage.byCode), coverage.byCode, content)
    ensures content.Some? ==> |content.value| <= l.maxFileBytes
  {
    hide Occurrences, ExaminedAs;
    verdict, content, note := Continues, None, None;
    after := stats.(considered := stats.considered + 1);
    match i {
      case Missing => after := after.(missing := stats.missing + 1);
      case Unreadable => verdict := Fails;
      case Symlink => after := after.(symlinks := stats.symlinks + 1);
      case NonRegular => after := after.(nonRegular := stats.nonRegular + 1);
      case NonExecutable => after := after.(nonExecutable := stats.nonExecutable + 1);
      case Executable(size, opening) =>
        verdict, after, content, note := Examine(l, path, size, opening, looked, after, coverage);
    }
  }

  // ----- the run -----

  const SCANNER_ID := "changed-executable-triage"

  const NOTHING_YET := Report([], map[], Stats(0, 0, 0, 0, 0, 0, 0, 0))

  /** When the context is cancelled: before the triage, before the k-th candidate, and during its package
      lookup. */
  datatype Cancellation = Cancellation(start: bool, before: nat -> bool, looked: nat -> bool)

  function Recorded(r: Report, path: string, t: Turn): Report {
    Report(if t.content.Some? then r.executables + [ExecutableRecord(path, t.content.value)] else r.executables,
           Marked(r.coverage, SCANNER_ID, t.note), t.stats)
  }

  /** One turn of the loop. */
  ghost predicate Stepped(l: Limits, fs: FileSystem, path: string, cancelled: bool, looked: bool, r: Report,
                          verdict: Verdict, after: Report)
    requires ValidLimits(l)
  {
    && r.stats.bytesHashed <= l.maxTotalBytes
    && if cancelled then verdict == Fails && after == r
       else if r.stats.considered >= l.maxFiles then
         && verdict == Stops
         && after == r.(coverage := AddNote(r.coverage, SCANNER_ID,
                                            Note(MaxFiles, path, l.maxFiles, r.stats.considered + 1)))
       else exists t ::
         VisitedAs(l, path, fs.inspect(path), looked, r.stats, t) && verdict == t.verdict && after == Recorded(r, path, t)
  }

  /** `n` turns lead to this report, the last with this verdict and all before it going on. */
  ghost predicate RunsTo(l: Limits, fs: FileSystem, normalized: seq<Candidate>, cancel: Cancellation, n: nat,
                         verdict: Verdict, r: Report)
    requires ValidLimits(l)
  {
    if n == 0 then verdict == Continues && r == NOTHING_YET
    else
      var k: nat := n - 1;
      && n <= |normalized|
      && exists before ::
           && RunsTo(l, fs, normalized, cancel, k, Continues, before)
           && Stepped(l, fs, normalized[k].path, cancel.before(k), cancel.looked(k), before, verdict, r)
  }

  lemma RunsNext(l: Limits, fs: FileSystem, normalized: seq<Candidate>, cancel: Cancellation, n: nat, before: Report,
                 verdict: Verdict, r: Report)
    requires ValidLimits(l) && n < |normalized| && RunsTo(l, fs, normalized, cancel, n, Continues, before)
    requires Stepped(l, fs, normalized[n].path, cancel.before(n), cancel.looked(n), before, verdict, r)
    ensures RunsTo(l, fs, normalized, cancel, n + 1, verdict, r)
  {
    hide Stepped;
  }

  lemma RunStarts(l: Limits, fs: FileSystem, normalized: seq<Candidate>, cancel: Cancellation)
    requires ValidLimits(l)
    ensures RunsTo(l, fs, normalized, cancel, 0, Continues, NOTHING_YET)
  {
  }

  /** The file at this path was executable, within the size limits and not replaced, its bytes are the
      ones hashed, and its size was theirs at the end. */
  ghost predicate ReadFrom(l: Limits, fs: FileSystem, x: ExecutableRecord) {
    var i := fs.inspect(x.path);
    && i.Executable? && i.size <= l.maxFileBytes
    && exists limit: nat, k: nat ::
      && limit <= l.maxFileBytes && HashOutcome(i.opening, limit, Hashed(x.content, false, true, false), k)
  }

  /** Which note a turn leaves: its path, the configured limit it is about, and the size observed, which
      is the file's, or one more than was hashed. */
  lemma NotesAreExact(l: Limits, path: string, i: Inspection, looked: bool, stats: Stats, t: Turn)
    requires ValidLimits(l) && stats.bytesHashed <= l.maxTotalBytes && VisitedAs(l, path, i, looked, stats, t)
    ensures t.note.Some? ==>
      && i.Executable? && t.note.value.path == path && t.content.None?
      && (t.note.value.code == MaxFileBytes || t.note.value.code == MaxTotalBytes)
      && (t.note.value.code == MaxFileBytes ==>
            && t.verdict == Continues && t.note.value.limit == l.maxFileBytes
            && t.note.value.observed == (if i.size > l.maxFileBytes then i.size
                                         else t.stats.bytesHashed - stats.bytesHashed + 1))
      && (t.note.value.code == MaxTotalBytes ==>
            && t.verdict == Stops && t.note.value.limit == l.maxTotalBytes
            && t.note.value.observed == (if l.maxTotalBytes <= stats.bytesHashed || i.size > l.maxTotalBytes - stats.bytesHashed
                                         then stats.bytesHashed + i.size
                                         else t.stats.bytesHashed + 1))
    ensures i.Executable? && i.size <= l.maxFileBytes && i.size > l.maxTotalBytes - stats.bytesHashed ==>
      t.verdict == Stops && t.stats.bytesHashed == stats.bytesHashed
    ensures t.stats.bytesHashed != stats.bytesHashed ==>
      i.Executable? && i.size <= l.maxFileBytes && i.size <= l.maxTotalBytes - stats.bytesHashed
    ensures t.note.None? <==> t.verdict.Fails? || (t.verdict.Continues? && t.stats.oversize == stats.oversize)
  {
    hide HashOutcome;
  }

  lemma ContentIsHashed(l: Limits, fs: FileSystem, path: string, looked: bool, stats: Stats, t: Turn)
    requires ValidLimits(l) && stats.bytesHashed <= l.maxTotalBytes
    requires VisitedAs(l, path, fs.inspect(path), looked, stats, t) && t.content.Some?
    ensures ReadFrom(l, fs, ExecutableRecord(path, t.content.value))
  {
    hide HashOutcome;
    var i := fs.inspect(path);
    var now := stats.(considered := stats.considered + 1);
    var h, k: nat :| HashOutcome(i.opening, Budget(l, now), h, k) && t == AfterHash(l, path, looked, now, h);
    assert h == Hashed(t.content.value, false, true, false);
  }

  /** Every record is what hashing its file gives. */
  lemma {:induction false} RecordsAreHashed(l: Limits, fs: FileSystem, normalized: seq<Candidate>, cancel: Cancellation,
                                            n: nat, verdict: Verdict, r: Report)
    requires ValidLimits(l) && RunsTo(l, fs, normalized, cancel, n, verdict, r)
    ensures forall x :: x in r.executables ==> ReadFrom(l, fs, x)
  {
    hide Stepped, ReadFrom;
    if n > 0 {
      var k := n - 1;
      var before :| RunsTo(l, fs, normalized, cancel, k, Continues, before)
        && Stepped(l, fs, normalized[k].path, cancel.before(k), cancel.looked(k), before, verdict, r);
      RecordsAreHashed(l, fs, normalized, cancel, k, Continues, before);
      StepRecords(l, fs, normalized[k].path, cancel.before(k), cancel.looked(k), before, verdict, r);
    }
  }

  lemma StepRecords(l: Limits, fs: FileSystem, path: string, cancelled: bool, looked: bool, r: Report,
                    verdict: Verdict, after: Report)
    requires ValidLimits(l) && Stepped(l, fs, path, cancelled, looked, r, verdict, after)
    ensures forall x :: x in after.executables ==> x in r.executables || ReadFrom(l, fs, x)
  {
    hide VisitedAs, ReadFrom, AddNote;
    if !cancelled && r.stats.considered < l.maxFiles {
      var t :| VisitedAs(l, path, fs.inspect(path), looked, r.stats, t)
        && verdict == t.verdict && after == Recorded(r, path, t);
      if t.content.Some? { ContentIsHashed(l, fs, path, looked, r.stats, t); }
    }
  }

  /** Hashing the file within this limit fails. */
  ghost predicate HashFails(o: Opening, limit: nat) { exists h: Hashed, k: nat :: h.failed && HashOutcome(o, limit, h, k) }

  /** Hashing the file within this limit finds more, or another size. */
  ghost predicate HashExceeds(o: Opening, limit: nat) {
    exists h: Hashed, k: nat :: h.usable && h.exceeded && HashOutcome(o, limit, h, k)
  }

  /** Why a turn fails or stops. */
  ghost predicate Justified(l: Limits, i: Inspection, cancelled: bool, looked: bool, stats: Stats, verdict: Verdict)
    requires ValidLimits(l) && stats.bytesHashed <= l.maxTotalBytes
  {
    match verdict
    case Continues => !cancelled
    case Fails =>
      cancelled || i.Unreadable?
      || (i.Executable? && i.size <= l.maxFileBytes && !Short(l, stats, i.size) && (looked || HashFails(i.opening, Budget(l, stats))))
    case Stops =>
      !cancelled
      && (stats.considered >= l.maxFiles
          || (i.Executable? && i.size <= l.maxFileBytes
              && (Short(l, stats, i.size)
                  || (l.maxTotalBytes - stats.bytesHashed < l.maxFileBytes && HashExceeds(i.opening, Budget(l, stats))))))
  }

  /** A turn fails only for a cancellation, an unreadable path or a failed hash, and stops only for the
      number of files or for want of bytes. */
  lemma TurnIsJustified(l: Limits, fs: FileSystem, path: string, cancelled: bool, looked: bool, r: Report,
                        verdict: Verdict, after: Report)
    requires ValidLimits(l) && Stepped(l, fs, path, cancelled, looked, r, verdict, after)
    ensures Justified(l, fs.inspect(path), cancelled, looked, r.stats, verdict)
  {
    hide HashOutcome, AddNote;
    var i := fs.inspect(path);
    if !cancelled && r.stats.considered < l.maxFiles {
      var t :| VisitedAs(l, path, i, looked, r.stats, t) && verdict == t.verdict && after == Recorded(r, path, t);
      var now := r.stats.(considered := r.stats.considered + 1);
      if i.Executable? && i.size <= l.maxFileBytes && !Short(l, now, i.size) {
        var h, k: nat :| HashOutcome(i.opening, Budget(l, now), h, k) && t == AfterHash(l, path, looked, now, h);
        assert Budget(l, now) == Budget(l, r.stats);
      }
    }
  }

  /** The last turn of a run, and why the run ends with it. */
  lemma EndIsJustified(l: Limits, fs: FileSystem, normalized: seq<Candidate>, cancel: Cancellation, n: nat,
                       verdict: Verdict, r: Report) returns (before: Report)
    requires ValidLimits(l) && n > 0 && RunsTo(l, fs, normalized, cancel, n, verdict, r)
    ensures n <= |normalized| && RunsTo(l, fs, normalized, cancel, n - 1, Continues, before)
    ensures before.stats.bytesHashed <= l.maxTotalBytes
    ensures Justified(l, fs.inspect(normalized[n - 1].path), cancel.before(n - 1), cancel.looked(n - 1), before.stats, verdict)
  {
    hide Stepped, Justified;
    var k := n - 1;
    before :| RunsTo(l, fs, normalized, cancel, k, Continues, before)
      && Stepped(l, fs, normalized[k].path, cancel.before(k), cancel.looked(k), before, verdict, r);
    assert before.stats.bytesHashed <= l.maxTotalBytes by {
      StepIsBounded(l, fs, normalized[k].path, cancel.before(k), cancel.looked(k), before, verdict, r);
    }
    TurnIsJustified(l, fs, normalized[k].path, cancel.before(k), cancel.looked(k), before, verdict, r);
  }

  lemma StepIsBounded(l: Limits, fs: FileSystem, path: string, cancelled: bool, looked: bool, r: Report,
                      verdict: Verdict, after: Report)
    requires ValidLimits(l) && Stepped(l, fs, path, cancelled, looked, r, verdict, after)
    ensures r.stats.bytesHashed <= l.maxTotalBytes
  {
  }

  lemma HashedOnce(o: Opening, limit: nat, a: Hashed, j: nat, b: Hashed, k: nat)
    requires HashOutcome(o, limit, a, j) && HashOutcome(o, limit, b, k)
    ensures a == b && j == k
  {
    if o.Opened? {
      hide Gather, StopsAfter, HashedAfter;
      var m: nat, s :| StopsAfter(o.file, BUFFER, limit, m, s)
        && (a, j) == HashedAfter(o.file, Gather(o.file, BUFFER, limit, m), s);
      var n: nat, t :| StopsAfter(o.file, BUFFER, limit, n, t)
        && (b, k) == HashedAfter(o.file, Gather(o.file, BUFFER, limit, n), t);
      StopsOnce(o.file, BUFFER, limit, m, n, s, t);
    }
  }

  lemma VisitedOnce(l: Limits, path: string, i: Inspection, looked: bool, stats: Stats, t: Turn, u: Turn)
    requires ValidLimits(l) && stats.bytesHashed <= l.maxTotalBytes
    requires VisitedAs(l, path, i, looked, stats, t) && VisitedAs(l, path, i, looked, stats, u)
    ensures t == u
  {
    hide HashOutcome, AfterHash;
    var now := stats.(considered := stats.considered + 1);
    if i.Executable? && i.size <= l.maxFileBytes && !Short(l, now, i.size) {
      var g, j: nat :| HashOutcome(i.opening, Budget(l, now), g, j) && t == AfterHash(l, path, looked, now, g);
      var h, k: nat :| HashOutcome(i.opening, Budget(l, now), h, k) && u == AfterHash(l, path, looked, now, h);
      HashedOnce(i.opening, Budget(l, now), g, j, h, k);
    }
  }

  /** The file system and the context alone decide the report. */
  lemma {:induction false} RunsOnce(l: Limits, fs: FileSystem, normalized: seq<Candidate>, cancel: Cancellation, n: nat,
                                    v: Verdict, r: Report, w: Verdict, s: Report)
    requires ValidLimits(l)
    requires RunsTo(l, fs, normalized, cancel, n, v, r) && RunsTo(l, fs, normalized, cancel, n, w, s)
    ensures v == w && r == s
  {
    hide Stepped;
    if n > 0 {
      var k := n - 1;
      var a :| RunsTo(l, fs, normalized, cancel, k, Continues, a)
        && Stepped(l, fs, normalized[k].path, cancel.before(k), cancel.looked(k), a, v, r);
      var b :| RunsTo(l, fs, normalized, cancel, k, Continues, b)
        && Stepped(l, fs, normalized[k].path, cancel.before(k), cancel.looked(k), b, w, s);
      RunsOnce(l, fs, normalized, cancel, k, Continues, a, Continues, b);
      SteppedOnce(l, fs, normalized[k].path, cancel.before(k), cancel.looked(k), a, v, r, w, s);
    }
  }

  lemma SteppedOnce(l: Limits, fs: FileSystem, path: string, cancelled: bool, looked: bool, before: Report,
                    v: Verdict, r: Report, w: Verdict, s: Report)
    requires ValidLimits(l) && Stepped(l, fs, path, cancelled, looked, before, v, r)
    requires Stepped(l, fs, path, cancelled, looked, before, w, s)
    ensures v == w && r == s
  {
    hide VisitedAs, Recorded;
    if !cancelled && before.stats.considered < l.maxFiles {
      var t :| VisitedAs(l, path, fs.inspect(path), looked, before.stats, t) && v == t.verdict && r == Recorded(before, path, t);
      var u :| VisitedAs(l, path, fs.inspect(path), looked, before.stats, u) && w == u.verdict && s == Recorded(before, path, u);
      VisitedOnce(l, path, fs.inspect(path), looked, before.stats, t, u);
    }
  }

  // ----- the books -----

  /** The books before candidate `i`. */
  ghost predicate Books(l: Limits, fs: FileSystem, normalized: seq<Candidate>, i: nat, stats: Stats, table: Table,
                        executables: seq<ExecutableRecord>)
  {
    && i <= |normalized| && stats.considered == i == Outcomes(stats) && i <= l.maxFiles
    && |executables| == stats.triaged
    && SkipsIn(stats) == CountSkips(l, fs, normalized[..i])
    && Occurrences(table, MaxFileBytes) == stats.oversize
    && Occurrences(table, MaxTotalBytes) == Occurrences(table, MaxFiles) == 0
    && Visited(normalized, i, executables, l)
  }

  /** `Triage`: the candidates in order, until one stops the scan or fails.  `n` turns are made, the last
      with this verdict. */
  method TriageCandidates(l: Limits, fs: FileSystem, candidates: seq<Candidate>, cancel: Cancellation)
    returns (r: Report, failed: bool, normalized: seq<Candidate>, n: nat, ghost verdict: Verdict)
    requires ValidLimits(l) && Behaves(fs)
    ensures cancel.start ==> failed && n == 0
    ensures !cancel.start ==> Normalizes(fs, candidates, normalized)
    ensures RunsTo(l, fs, normalized, cancel, n, verdict, r)
    ensures failed <==> cancel.start || verdict.Fails?
    ensures !failed && verdict.Continues? ==> n == |normalized|
    ensures r.stats.bytesHashed <= l.maxTotalBytes
    ensures !failed ==> Balanced(l, fs, normalized, r)
    ensures RecordsVisited(l, normalized, r.executables)
    ensures forall x :: x in r.executables ==> ReadFrom(l, fs, x)
  {
    hide AddNote, Normalizes, Books, Balanced, RecordsVisited, Booked, Noted, StrictlySorted, RunsTo, VisitedAs, ReadFrom;
    if cancel.start {
      RunStarts(l, fs, [], cancel);
      NothingRecorded(l, fs);
      return NOTHING_YET, true, [], 0, Continues;
    }
    normalized := NormalizeCandidates(fs, candidates);
    NormalizedIsSorted(fs, candidates, normalized);
    var coverage := new Accumulator(SCANNER_ID);
    var stats := Stats(0, 0, 0, 0, 0, 0, 0, 0);
    var executables: seq<ExecutableRecord> := [];
    BooksOpen(l, fs, normalized, stats, coverage.byCode);
    RunStarts(l, fs, normalized, cancel);
    var i := 0;
    while i < |normalized|
      invariant 0 <= i <= |normalized| && stats.bytesHashed <= l.maxTotalBytes && coverage.scannerID == SCANNER_ID
      invariant RunsTo(l, fs, normalized, cancel, i, Continues, Report(executables, coverage.byCode, stats))
      invariant Books(l, fs, normalized, i, stats, coverage.byCode, executables)
    {
      var candidate := normalized[i];
      ghost var before := Report(executables, coverage.byCode, stats);
      BooksMean(l, fs, normalized, i, stats, coverage.byCode, executables);
      if cancel.before(i) {
        RunsNext(l, fs, normalized, cancel, i, before, Fails, before);
        RecordsAreHashed(l, fs, normalized, cancel, i + 1, Fails, before);
        return Report(executables, coverage.byCode, stats), true, normalized, i + 1, Fails;
      }
      if stats.considered >= l.maxFiles {
        FullBalances(l, fs, normalized, i, stats, coverage.byCode, executables, coverage.scannerID,
                     Note(MaxFiles, candidate.path, l.maxFiles, stats.considered + 1));
        coverage.Add(MaxFiles, candidate.path, l.maxFiles, stats.considered + 1);
        r := Report(executables, coverage.byCode, stats);
        RunsNext(l, fs, normalized, cancel, i, before, Stops, r);
        RecordsAreHashed(l, fs, normalized, cancel, i + 1, Stops, r);
        return r, false, normalized, i + 1, Stops;
      }
      ghost var note;
      var next, content;
      next, stats, content, note := Visit(l, candidate.path, fs.inspect(candidate.path), cancel.looked(i), stats, coverage);
      ghost var after := Recorded(before, candidate.path, Turn(next, stats, content, note));
      RunsNext(l, fs, normalized, cancel, i, before, next, after);
      if next.Fails? {
        RecordsAreHashed(l, fs, normalized, cancel, i + 1, next, after);
        r := Report(executables, coverage.byCode, stats);
        assert r == after;
        return r, true, normalized, i + 1, next;
      }
      if next.Stops? {
        StopBalances(l, fs, normalized, i, before.stats, stats, before.coverage, coverage.byCode, executables);
        RecordsAreHashed(l, fs, normalized, cancel, i + 1, next, after);
        return Report(executables, coverage.byCode, stats), false, normalized, i + 1, next;
      }
      BooksNext(l, fs, normalized, i, before.stats, stats, before.coverage, coverage.byCode, executables, content);
      if content.Some? {
        executables := executables + [ExecutableRecord(candidate.path, content.value)];
      }
      i := i + 1;
    }
    r := Report(executables, coverage.byCode, stats);
    EndBalances(l, fs, normalized, stats, coverage.byCode, executables);
    RecordsAreHashed(l, fs, normalized, cancel, i, Continues, r);
    return r, false, normalized, i, Continues;
  }

  lemma NothingRecorded(l: Limits, fs: FileSystem)
    requires ValidLimits(l)
    ensures RecordsVisited(l, [], NOTHING_YET.executables)
  {
  }

  lemma BooksOpen(l: Limits, fs: FileSystem, normalized: seq<Candidate>, stats: Stats, table: Table)
    requires ValidLimits(l) && table == map[]
    requires stats == Stats(0, 0, 0, 0, 0, 0, 0, 0)
    ensures Books(l, fs, normalized, 0, stats, table, [])
  {
    hide CountSkips, Visited, Occurrences;
    NothingVisited(l, fs, normalized);
    NothingNoted(table, MaxFileBytes);
    NothingNoted(table, MaxTotalBytes);
    NothingNoted(table, MaxFiles);
  }

  lemma NothingNoted(table: Table, code: Code)
    requires code !in table
    ensures Occurrences(table, code) == 0
  {
  }

  lemma NothingVisited(l: Limits, fs: FileSystem, normalized: seq<Candidate>)
    ensures Visited(normalized, 0, [], l) && CountSkips(l, fs, normalized[..0]) == Skips(0, 0, 0, 0)
  {
  }

  lemma BooksMean(l: Limits, fs: FileSystem, normalized: seq<Candidate>, i: nat, stats: Stats, table: Table,
                  executables: seq<ExecutableRecord>)
    requires Books(l, fs, normalized, i, stats, table, executables)
    ensures stats.considered == i && RecordsVisited(l, normalized, executables)
  {
    hide CountSkips, StrLess;
    VisitedMeans(normalized, i, executables, l);
  }

  lemma BooksNext(l: Limits, fs: FileSystem, normalized: seq<Candidate>, i: nat, before: Stats, after: Stats,
                  table: Table, table': Table, executables: seq<ExecutableRecord>, content: Option<string>)
    requires Books(l, fs, normalized, i, before, table, executables) && i < |normalized| && i < l.maxFiles
    requires StrictlySorted(ByPath(), normalized)
    requires Booked(l, fs.inspect(normalized[i].path), before, after, table, table', content)
    requires content.Some? ==> |content.value| <= l.maxFileBytes
    ensures Books(l, fs, normalized, i + 1, after, table',
      if content.Some? then executables + [ExecutableRecord(normalized[i].path, content.value)] else executables)
  {
    hide CountSkips, StrLess, Visited, SkipOf, AddSkip, Occurrences;
    VisitedNext(normalized, i, executables, l);
    SkipsNext(l, fs, normalized, i);
    if content.Some? { VisitedRecord(normalized, i + 1, executables, l, content.value); }
  }

  lemma FullBalances(l: Limits, fs: FileSystem, normalized: seq<Candidate>, i: nat, stats: Stats, table: Table,
                     executables: seq<ExecutableRecord>, scannerID: string, n: Note)
    requires Books(l, fs, normalized, i, stats, table, executables) && i < |normalized| && i >= l.maxFiles
    requires n.code == MaxFiles
    ensures Balanced(l, fs, normalized, Report(executables, AddNote(table, scannerID, n), stats))
  {
    hide CountSkips, Visited, Occurrences, AddNote;
    AddCounts(table, scannerID, n);
  }

  lemma StopBalances(l: Limits, fs: FileSystem, normalized: seq<Candidate>, i: nat, before: Stats, after: Stats,
                     table: Table, table': Table, executables: seq<ExecutableRecord>)
    requires Books(l, fs, normalized, i, before, table, executables) && i < |normalized| && i < l.maxFiles
    requires after == before.(considered := before.considered + 1, bytesHashed := after.bytesHashed)
    requires Noted(table, table', MaxTotalBytes)
    ensures Balanced(l, fs, normalized, Report(executables, table', after))
  {
    hide CountSkips, Visited, Occurrences;
  }

  lemma EndBalances(l: Limits, fs: FileSystem, normalized: seq<Candidate>, stats: Stats, table: Table,
                    executables: seq<ExecutableRecord>)
    requires Books(l, fs, normalized, |normalized|, stats, table, executables)
    ensures Balanced(l, fs, normalized, Report(executables, table, stats))
    ensures RecordsVisited(l, normalized, executables)
  {
    hide CountSkips, Visited, Occurrences;
    BooksMean(l, fs, normalized, |normalized|, stats, table, executables);
  }

  lemma NormalizedIsSorted(fs: FileSystem, candidates: seq<Candidate>, normalized: seq<Candidate>)
    requires Normalizes(fs, candidates, normalized)
    ensures StrictlySorted(ByPath(), normalized)
  {
  }

  /** Records of candidates, within the size limit, in strict path order. */
  ghost predicate RecordsVisited(l: Limits, normalized: seq<Candidate>, executables: seq<ExecutableRecord>) {
    && (forall x :: x in executables ==> |x.content| <= l.maxFileBytes && IsCandidate(normalized, x.path))
    && (forall a, b :: 0 <= a < b < |executables| ==> StrLess(executables[a].path, executables[b].path))
  }

  ghost predicate IsCandidate(normalized: seq<Candidate>, path: string) {
    exists k :: 0 <= k < |normalized| && normalized[k].path == path
  }

  /** The records so far: of visited candidates, in their order. */
  ghost predicate Visited(normalized: seq<Candidate>, i: nat, executables: seq<ExecutableRecord>, l: Limits) {
    && i <= |normalized|
    && (forall x :: x in executables ==>
          |x.content| <= l.maxFileBytes && exists k :: 0 <= k < i && normalized[k].path == x.path)
    && (forall a, b :: 0 <= a < b < |executables| ==> StrLess(executables[a].path, executables[b].path))
  }

  lemma VisitedNext(normalized: seq<Candidate>, i: nat, executables: seq<ExecutableRecord>, l: Limits)
    requires Visited(normalized, i, executables, l) && i < |normalized| && StrictlySorted(ByPath(), normalized)
    ensures Visited(normalized, i + 1, executables, l)
    ensures forall x :: x in executables ==> StrLess(x.path, normalized[i].path)
  {
    hide StrLess;
    forall x | x in executables
      ensures StrLess(x.path, normalized[i].path) && exists k :: 0 <= k < i + 1 && normalized[k].path == x.path
    {
      var k :| 0 <= k < i && normalized[k].path == x.path;
      assert ByPath()(normalized[k], normalized[i]);
    }
  }

  lemma VisitedRecord(normalized: seq<Candidate>, i: nat, executables: seq<ExecutableRecord>, l: Limits, content: string)
    requires 0 < i <= |normalized| && Visited(normalized, i, executables, l) && |content| <= l.maxFileBytes
    requires forall x :: x in executables ==> StrLess(x.path, normalized[i - 1].path)
    ensures Visited(normalized, i, executables + [ExecutableRecord(normalized[i - 1].path, content)], l)
  {
    hide StrLess;
    var all := executables + [ExecutableRecord(normalized[i - 1].path, content)];
    forall a, b | 0 <= a < b < |all| ensures StrLess(all[a].path, all[b].path) {
      if b == |executables| { assert executables[a] in executables; }
    }
  }

  lemma VisitedMeans(normalized: seq<Candidate>, i: nat, executables: seq<ExecutableRecord>, l: Limits)
    requires Visited(normalized, i, executables, l)
    ensures RecordsVisited(l, normalized, executables)
  {
    hide StrLess;
    forall x | x in executables ensures IsCandidate(normalized, x.path) {
      var k :| 0 <= k < i && normalized[k].path == x.path;
    }
  }
}
