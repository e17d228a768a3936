/** The line walk of internal/scanner/secret.go: key blocks and single lines, up to a limit of
    findings. */
module SecretText {
  import opened Ordering
  import opened Model

  /** What a detector reports about a match. */
  datatype Hit = Hit(detectorID: string, fingerprint: string, excerpt: string)

  datatype SecretFinding = SecretFinding(path: string, line: nat, hit: Hit)

  /** The detectors: the label of a key header, its end marker, the key block's report, comment lines,
      validated tokens of a line in detector order, and an assigned secret. */
  datatype Detectors = Detectors(
    header: string -> Option<string>, ends: (string, string) -> bool, block: seq<string> -> Hit,
    comment: string -> bool, tokens: string -> seq<Hit>, assignment: string -> Option<Hit>)

  function TrimCR(s: string): string { if s != "" && s[|s| - 1] == '\r' then s[..|s| - 1] else s }

  /** The last line of a key block that starts at line `i`: the first later line with its end marker,
      or the last line of all. */
  function BlockEnd(d: Detectors, lines: seq<string>, i: nat, kind: string): (e: nat)
    requires i < |lines|
    ensures i <= e < |lines|
    decreases |lines| - i
  {
    if i + 1 >= |lines| then i
    else if d.ends(kind, TrimCR(lines[i + 1])) then i + 1
    else BlockEnd(d, lines, i + 1, kind)
  }

  /** How the walk cuts the lines up. */
  datatype Segment = Block(first: nat, last: nat) | Line(first: nat, last: nat)

  function Segments(d: Detectors, lines: seq<string>, i: nat): seq<Segment>
    decreases |lines| - i
  {
    if i >= |lines| then []
    else
      match d.header(TrimCR(lines[i]))
      case Some(kind) =>
        var e := BlockEnd(d, lines, i, kind);
        [Block(i, e)] + Segments(d, lines, e + 1)
      case None => [Line(i, i)] + Segments(d, lines, i + 1)
  }

  function LineHits(d: Detectors, line: string): seq<Hit> {
    if d.comment(line) then []
    else d.tokens(line) + (match d.assignment(line) case Some(hit) => [hit] case None => [])
  }

  function Report(path: string, line: nat, hits: seq<Hit>): seq<SecretFinding> {
    seq(|hits|, k requires 0 <= k < |hits| => SecretFinding(path, line, hits[k]))
  }

  function SegmentFindings(d: Detectors, path: string, lines: seq<string>, s: Segment): seq<SecretFinding>
    requires s.first <= s.last < |lines|
  {
    match s
    case Block(first, last) => Report(path, first + 1, [d.block(lines[first..last + 1])])
    case Line(first, _) => Report(path, first + 1, LineHits(d, TrimCR(lines[first])))
  }

  /** Everything there is to find from line `i` on. */
  function AllFindings(d: Detectors, path: string, lines: seq<string>, i: nat): seq<SecretFinding>
    decreases |lines| - i
  {
    if i >= |lines| then []
    else
      match d.header(TrimCR(lines[i]))
      case Some(kind) =>
        var e := BlockEnd(d, lines, i, kind);
        SegmentFindings(d, path, lines, Block(i, e)) + AllFindings(d, path, lines, e + 1)
      case None => SegmentFindings(d, path, lines, Line(i, i)) + AllFindings(d, path, lines, i + 1)
  }

  predicate FindingLess(a: SecretFinding, b: SecretFinding) {
    if a.path != b.path then StrLess(a.path, b.path)
    else if a.line != b.line then a.line < b.line
    else if a.hit.detectorID != b.hit.detectorID then StrLess(a.hit.detectorID, b.hit.detectorID)
    else StrLess(a.hit.fingerprint, b.hit.fingerprint)
  }

  const FINDING_LESS: (SecretFinding, SecretFinding) -> bool := (a, b) => FindingLess(a, b)

  function SortFindings(s: seq<SecretFinding>): seq<SecretFinding> { Sort(FINDING_LESS, s) }

  function Take<T>(s: seq<T>, limit: int): seq<T> {
    if limit <= 0 then [] else if |s| <= limit then s else s[..limit]
  }

  // ----- the walk -----

  /** Appends hits until the limit is reached. */
  method AppendHits(path: string, line: nat, hits: seq<Hit>, limit: int, found: seq<SecretFinding>)
    returns (findings: seq<SecretFinding>)
    requires |found| < limit
    ensures findings == Take(found + Report(path, line, hits), limit)
  {
    findings := found;
    for k := 0 to |hits|
      invariant findings == found + Report(path, line, hits)[..k] && |findings| < limit
    {
      findings := findings + [SecretFinding(path, line, hits[k])];
      assert Report(path, line, hits)[..k + 1] == Report(path, line, hits)[..k] + [SecretFinding(path, line, hits[k])];
      if |findings| >= limit {
        assert findings == (found + Report(path, line, hits))[..limit];
        return;
      }
    }
    assert Report(path, line, hits)[..|hits|] == Report(path, line, hits);
  }

  method FindBlockEnd(d: Detectors, lines: seq<string>, index: nat, kind: string) returns (end: nat)
    requires index < |lines|
    ensures end == BlockEnd(d, lines, index, kind)
  {
    end := index;
    while end + 1 < |lines|
      invariant index <= end < |lines|
      invariant BlockEnd(d, lines, index, kind) == BlockEnd(d, lines, end, kind)
    {
      end := end + 1;
      if d.ends(kind, TrimCR(lines[end])) {
        return;
      }
    }
  }

  lemma BlockComesFirst(d: Detectors, path: string, lines: seq<string>, i: nat, kind: string)
    requires i < |lines| && d.header(TrimCR(lines[i])) == Some(kind)
    ensures var e := BlockEnd(d, lines, i, kind);
      AllFindings(d, path, lines, i) ==
        Report(path, i + 1, [d.block(lines[i..e + 1])]) + AllFindings(d, path, lines, e + 1)
  {
  }

  lemma LineComesFirst(d: Detectors, path: string, lines: seq<string>, i: nat)
    requires i < |lines| && d.header(TrimCR(lines[i])).None?
    ensures AllFindings(d, path, lines, i) ==
      Report(path, i + 1, LineHits(d, TrimCR(lines[i]))) + AllFindings(d, path, lines, i + 1)
  {
  }

  /** Where the walk goes on after line `i`. */
  function NextStart(d: Detectors, lines: seq<string>, i: nat): (j: nat)
    requires i < |lines|
    ensures i < j <= |lines|
  {
    match d.header(TrimCR(lines[i]))
    case Some(kind) => BlockEnd(d, lines, i, kind) + 1
    case None => i + 1
  }

  /** The walk from line `i` reaches line `j`, and no context was cancelled on its way. */
  predicate Reaches(d: Detectors, lines: seq<string>, cancelled: nat -> bool, i: nat, j: nat)
    decreases |lines| - i
  {
    i == j || (i < |lines| && !cancelled(i) && Reaches(d, lines, cancelled, NextStart(d, lines, i), j))
  }

  lemma {:induction false} ReachesNext(d: Detectors, lines: seq<string>, cancelled: nat -> bool, i: nat, j: nat)
    requires Reaches(d, lines, cancelled, i, j) && j < |lines| && !cancelled(j)
    ensures Reaches(d, lines, cancelled, i, NextStart(d, lines, j))
    decreases |lines| - i
  {
    if i != j { ReachesNext(d, lines, cancelled, NextStart(d, lines, i), j); }
  }

  /** The walk got to line `k` without cancellation, having seen these findings. */
  ghost predicate Seen(d: Detectors, path: string, lines: seq<string>, cancelled: nat -> bool, k: nat,
                       seen: seq<SecretFinding>)
  {
    Reaches(d, lines, cancelled, 0, k) && AllFindings(d, path, lines, 0) == seen + AllFindings(d, path, lines, k)
  }

  lemma SeenNext(d: Detectors, path: string, lines: seq<string>, cancelled: nat -> bool, k: nat,
                 seen: seq<SecretFinding>, some: seq<SecretFinding>)
    requires Seen(d, path, lines, cancelled, k, seen) && k < |lines| && !cancelled(k)
    requires AllFindings(d, path, lines, k) == some + AllFindings(d, path, lines, NextStart(d, lines, k))
    ensures Seen(d, path, lines, cancelled, NextStart(d, lines, k), seen + some)
  {
    hide AllFindings, NextStart;
    ReachesNext(d, lines, cancelled, 0, k);
    var rest := AllFindings(d, path, lines, NextStart(d, lines, k));
    assert seen + (some + rest) == (seen + some) + rest;
  }

  /** Exactly the first `limit` of all findings, sorted, when the walk gets through the lines or far
      enough into them; or a failure with what was found so far, when the context is cancelled before a
      line at which the walk goes on. */
  ghost predicate Inspected(d: Detectors, path: string, lines: seq<string>, limit: int, cancelled: nat -> bool,
                            findings: seq<SecretFinding>, failed: bool)
  {
    if failed then
      exists k: nat, seen ::
        Seen(d, path, lines, cancelled, k, seen) && k < |lines| && cancelled(k) && findings == Take(seen, limit)
    else
      && findings == SortFindings(Take(AllFindings(d, path, lines, 0), limit))
      && exists k: nat, seen :: Seen(d, path, lines, cancelled, k, seen) && (k < |lines| ==> |seen| >= limit)
  }

  /** `inspectText`. */
  method InspectText(d: Detectors, path: string, lines: seq<string>, limit: int, cancelled: nat -> bool)
    returns (findings: seq<SecretFinding>, failed: bool)
    ensures Inspected(d, path, lines, limit, cancelled, findings, failed)
    ensures !failed ==> findings == SortFindings(Take(AllFindings(d, path, lines, 0), limit))
  {
    hide SortFindings, LineHits, TrimCR, AllFindings, BlockEnd, Report, Take, Seen;
    findings := [];
    var index := 0;
    ghost var seen: seq<SecretFinding> := [];
    WalkStarts(d, path, lines, cancelled);
    TakeEnds(seen, limit);
    var full := false;
    while index < |lines| && !full
      invariant 0 <= index <= |lines|
      invariant Seen(d, path, lines, cancelled, index, seen) && findings == Take(seen, limit)
      invariant full ==> |findings| >= limit
      decreases |lines| - index, !full
    {
      if cancelled(index) {
        return findings, true;
      }
      if |findings| >= limit {
        break;
      }
      TakeBelow(seen, limit);
      var line := TrimCR(lines[index]);
      var header := d.header(line);
      if header.Some? {
        BlockComesFirst(d, path, lines, index, header.value);
        var end := FindBlockEnd(d, lines, index, header.value);
        ghost var some := Report(path, index + 1, [d.block(lines[index..end + 1])]);
        findings := AppendHits(path, index + 1, [d.block(lines[index..end + 1])], limit, findings);
        SeenNext(d, path, lines, cancelled, index, seen, some);
        seen := seen + some;
        full := |findings| >= limit;
        index := end + 1;
      } else {
        LineComesFirst(d, path, lines, index);
        findings, full := AppendLine(d, path, index, line, limit, findings);
        SeenNext(d, path, lines, cancelled, index, seen, Report(path, index + 1, LineHits(d, line)));
        seen := seen + Report(path, index + 1, LineHits(d, line));
        index := index + 1;
      }
    }
    SeenEnough(d, path, lines, cancelled, index, seen, limit);
    return SortFindings(findings), false;
  }

  lemma WalkStarts(d: Detectors, path: string, lines: seq<string>, cancelled: nat -> bool)
    ensures Seen(d, path, lines, cancelled, 0, [])
  {
    hide AllFindings;
  }

  lemma SeenEnough(d: Detectors, path: string, lines: seq<string>, cancelled: nat -> bool, k: nat,
                   seen: seq<SecretFinding>, limit: int)
    requires Seen(d, path, lines, cancelled, k, seen) && (k >= |lines| || |Take(seen, limit)| >= limit)
    ensures Take(AllFindings(d, path, lines, 0), limit) == Take(seen, limit)
    ensures k < |lines| ==> |seen| >= limit
  {
    if k < |lines| {
      hide AllFindings;
      TakeOfPrefix(seen, AllFindings(d, path, lines, k), limit);
    } else {
      NothingAfterLastLine(d, path, lines, k);
    }
  }

  lemma TakeBelow<T>(s: seq<T>, limit: int)
    requires |Take(s, limit)| < limit
    ensures Take(s, limit) == s && |s| < limit
  {
  }

  lemma NothingAfterLastLine(d: Detectors, path: string, lines: seq<string>, i: nat)
    ensures i >= |lines| ==> forall s: seq<SecretFinding> :: s + AllFindings(d, path, lines, i) == s
  {
  }

  /** A line's tokens and, below the limit, its assignment; `full` when the assignment met the limit. */
  method AppendLine(d: Detectors, path: string, index: nat, line: string, limit: int, found: seq<SecretFinding>)
    returns (findings: seq<SecretFinding>, full: bool)
    requires |found| < limit
    ensures findings == Take(found + Report(path, index + 1, LineHits(d, line)), limit)
    ensures full ==> |findings| >= limit
  {
    findings, full := found, false;
    if !d.comment(line) {
      var tokens := d.tokens(line);
      findings := AppendHits(path, index + 1, tokens, limit, findings);
      ReportConcat(path, index + 1, tokens, LineHits(d, line)[|tokens|..]);
      assert LineHits(d, line) == tokens + LineHits(d, line)[|tokens|..];
      if |findings| < limit {
        assert findings == found + Report(path, index + 1, tokens);
        var secret := d.assignment(line);
        if secret.Some? {
          ghost var before := findings;
          findings := AppendHits(path, index + 1, [secret.value], limit, findings);
          full := |findings| >= limit;
          assert before + Report(path, index + 1, [secret.value])
              == found + (Report(path, index + 1, tokens) + Report(path, index + 1, [secret.value]));
        }
      } else {
        TakeOfPrefix(found + Report(path, index + 1, tokens), Report(path, index + 1, LineHits(d, line)[|tokens|..]), limit);
        assert found + Report(path, index + 1, LineHits(d, line))
            == (found + Report(path, index + 1, tokens)) + Report(path, index + 1, LineHits(d, line)[|tokens|..]);
      }
    } else {
      assert found + Report(path, index + 1, []) == found;
    }
  }

  lemma ReportConcat(path: string, line: nat, a: seq<Hit>, b: seq<Hit>)
    ensures Report(path, line, a + b) == Report(path, line, a) + Report(path, line, b)
  {
  }

  lemma TakeEnds<T>(s: seq<T>, limit: int)
    ensures limit <= 0 ==> Take(s, limit) == []
    ensures |s| < limit ==> Take(s, limit) == s
  {
  }

  lemma TakeOfPrefix<T>(a: seq<T>, b: seq<T>, limit: int)
    requires |a| >= limit
    ensures Take(a + b, limit) == Take(a, limit)
  {
    if limit > 0 { assert (a + b)[..limit] == a[..limit]; }
  }

  // ----- every line once -----

  ghost predicate Covers(s: Segment, k: nat) { s.first <= k <= s.last }

  /** Consecutive segments from line `i` to the end. */
  ghost predicate Tiles(segments: seq<Segment>, i: nat, n: nat)
    decreases |segments|
  {
    if segments == [] then i >= n
    else segments[0].first == i && i <= segments[0].last < n && Tiles(segments[1..], segments[0].last + 1, n)
  }

  lemma {:induction false} SegmentsTile(d: Detectors, lines: seq<string>, i: nat)
    ensures Tiles(Segments(d, lines, i), i, |lines|)
    decreases |lines| - i
  {
    if i < |lines| {
      var segments := Segments(d, lines, i);
      match d.header(TrimCR(lines[i])) {
        case Some(kind) =>
          var e := BlockEnd(d, lines, i, kind);
          SegmentsTile(d, lines, e + 1);
          assert segments[1..] == Segments(d, lines, e + 1);
        case None =>
          SegmentsTile(d, lines, i + 1);
          assert segments[1..] == Segments(d, lines, i + 1);
      }
    }
  }

  ghost predicate CoveredOnce(segments: seq<Segment>, k: nat) {
    exists j :: 0 <= j < |segments| && Covers(segments[j], k)
      && forall m :: 0 <= m < |segments| && m != j ==> !Covers(segments[m], k)
  }

  lemma {:induction false} TilesCoverOnce(segments: seq<Segment>, i: nat, n: nat, k: nat)
    requires Tiles(segments, i, n)
    ensures i <= k < n ==> CoveredOnce(segments, k)
    ensures k < i ==> forall m :: 0 <= m < |segments| ==> !Covers(segments[m], k)
    decreases |segments|
  {
    if segments != [] {
      var rest := segments[1..];
      TilesCoverOnce(rest, segments[0].last + 1, n, k);
      if k <= segments[0].last {
        forall m | 0 <= m < |segments| && m != 0 ensures !Covers(segments[m], k) { assert segments[m] == rest[m - 1]; }
        if k >= i { assert Covers(segments[0], k); }
      } else if k < n {
        var j :| 0 <= j < |rest| && Covers(rest[j], k) && forall m :: 0 <= m < |rest| && m != j ==> !Covers(rest[m], k);
        assert Covers(segments[j + 1], k);
        forall m | 0 <= m < |segments| && m != j + 1 ensures !Covers(segments[m], k) {
          if m > 0 { assert segments[m] == rest[m - 1]; }
        }
      }
    }
  }

  /** Every line lies in exactly one key block or is inspected on its own, once. */
  lemma EveryLineOnce(d: Detectors, lines: seq<string>, k: nat)
    requires k < |lines|
    ensures CoveredOnce(Segments(d, lines, 0), k)
  {
    SegmentsTile(d, lines, 0);
    TilesCoverOnce(Segments(d, lines, 0), 0, |lines|, k);
  }

  function Concat(d: Detectors, path: string, lines: seq<string>, segments: seq<Segment>): seq<SecretFinding>
    requires forall s :: s in segments ==> s.first <= s.last < |lines|
  {
    if segments == [] then []
    else SegmentFindings(d, path, lines, segments[0]) + Concat(d, path, lines, segments[1..])
  }

  /** Below the limit, the findings are those of the segments, in order. */
  lemma {:induction false} FindingsBySegment(d: Detectors, path: string, lines: seq<string>, i: nat)
    ensures forall s :: s in Segments(d, lines, i) ==> s.first <= s.last < |lines|
    ensures AllFindings(d, path, lines, i) == Concat(d, path, lines, Segments(d, lines, i))
    decreases |lines| - i
  {
    hide SegmentFindings;
    if i < |lines| {
      var segments := Segments(d, lines, i);
      match d.header(TrimCR(lines[i])) {
        case Some(kind) =>
          var e := BlockEnd(d, lines, i, kind);
          FindingsBySegment(d, path, lines, e + 1);
          assert segments[1..] == Segments(d, lines, e + 1);
        case None =>
          FindingsBySegment(d, path, lines, i + 1);
          assert segments[1..] == Segments(d, lines, i + 1);
      }
    }
  }

  // ----- exactly which findings -----

  /** A line without its carriage return. */
  ghost predicate Trimmed(line: string, text: string) {
    line == text + "\r" || (line == text && (text == "" || text[|text| - 1] != '\r'))
  }

  /** A line of its own reports nothing when it is a comment, and otherwise its tokens and its assigned
      secret. */
  ghost predicate LineGives(d: Detectors, line: string, h: Hit) {
    exists text :: Trimmed(line, text) && !d.comment(text) && (h in d.tokens(text) || d.assignment(text) == Some(h))
  }

  /** The block that starts at line `i` ends at the first later line with its end marker, or at the last
      line of all. */
  ghost predicate EndsAt(d: Detectors, lines: seq<string>, i: nat, kind: string, e: nat) {
    && i <= e < |lines|
    && (e == |lines| - 1 || (e > i && d.ends(kind, TrimCR(lines[e]))))
    && forall j :: i < j < e ==> !d.ends(kind, TrimCR(lines[j]))
  }

  /** A key block starts at a header; any other segment is one line without a header. */
  ghost predicate Cut(d: Detectors, lines: seq<string>, s: Segment) {
    && s.first <= s.last < |lines|
    && match s
       case Block(first, last) =>
         d.header(TrimCR(lines[first])).Some? && EndsAt(d, lines, first, d.header(TrimCR(lines[first])).value, last)
       case Line(first, last) => first == last && d.header(TrimCR(lines[first])).None?
  }

  /** What a segment reports at line `k`. */
  ghost predicate Gives(d: Detectors, lines: seq<string>, s: Segment, k: nat, h: Hit) {
    && s.first <= s.last < |lines| && k == s.first
    && if s.Block? then h == d.block(lines[s.first..s.last + 1]) else LineGives(d, lines[k], h)
  }

  lemma TrimmedOnce(line: string, text: string)
    ensures Trimmed(line, text) <==> text == TrimCR(line)
  {
  }

  lemma {:induction false} BlockEndsAt(d: Detectors, lines: seq<string>, i: nat, kind: string)
    requires i < |lines|
    ensures EndsAt(d, lines, i, kind, BlockEnd(d, lines, i, kind))
    decreases |lines| - i
  {
    hide TrimCR;
    if i + 1 < |lines| && !d.ends(kind, TrimCR(lines[i + 1])) { BlockEndsAt(d, lines, i + 1, kind); }
  }

  lemma {:induction false} SegmentsAreCut(d: Detectors, lines: seq<string>, i: nat)
    ensures forall s :: s in Segments(d, lines, i) ==> Cut(d, lines, s)
    decreases |lines| - i
  {
    hide TrimCR, EndsAt;
    if i < |lines| {
      match d.header(TrimCR(lines[i])) {
        case Some(kind) =>
          BlockEndsAt(d, lines, i, kind);
          SegmentsAreCut(d, lines, BlockEnd(d, lines, i, kind) + 1);
        case None => SegmentsAreCut(d, lines, i + 1);
      }
    }
  }

  lemma LineHitsAre(d: Detectors, line: string)
    ensures forall h :: h in LineHits(d, TrimCR(line)) <==> LineGives(d, line, h)
  {
    hide TrimCR, Trimmed;
    forall h ensures h in LineHits(d, TrimCR(line)) <==> LineGives(d, line, h) {
      TrimmedOnce(line, TrimCR(line));
      if LineGives(d, line, h) {
        var text :| Trimmed(line, text) && !d.comment(text) && (h in d.tokens(text) || d.assignment(text) == Some(h));
        TrimmedOnce(line, text);
      }
    }
  }

  lemma SegmentGives(d: Detectors, path: string, lines: seq<string>, s: Segment, f: SecretFinding)
    requires s.first <= s.last < |lines|
    ensures f in SegmentFindings(d, path, lines, s) <==>
      f.path == path && f.line > 0 && Gives(d, lines, s, f.line - 1, f.hit)
  {
    hide LineHits, TrimCR, LineGives;
    var hits := if s.Block? then [d.block(lines[s.first..s.last + 1])] else LineHits(d, TrimCR(lines[s.first]));
    var reported := Report(path, s.first + 1, hits);
    LineHitsAre(d, lines[s.first]);
    if f.hit in hits && f.path == path && f.line == s.first + 1 {
      var j :| 0 <= j < |hits| && hits[j] == f.hit;
      assert reported[j] == f;
    }
  }

  lemma {:induction false} ConcatGives(d: Detectors, path: string, lines: seq<string>, segments: seq<Segment>,
                                       f: SecretFinding)
    requires forall s :: s in segments ==> s.first <= s.last < |lines|
    ensures f in Concat(d, path, lines, segments) <==>
      f.path == path && f.line > 0 && exists s :: s in segments && Gives(d, lines, s, f.line - 1, f.hit)
  {
    hide SegmentFindings, Gives;
    if segments != [] {
      SegmentGives(d, path, lines, segments[0], f);
      ConcatGives(d, path, lines, segments[1..], f);
      assert forall s :: s in segments <==> s == segments[0] || s in segments[1..];
    }
  }

  /** The findings, without the walk: at a line of its own exactly the tokens and the assigned secret of a
      line that is no comment, at the start of a key block exactly the block, and nothing else. */
  lemma FindingsExactly(d: Detectors, path: string, lines: seq<string>, f: SecretFinding)
    ensures forall s :: s in Segments(d, lines, 0) ==> Cut(d, lines, s)
    ensures f in AllFindings(d, path, lines, 0) <==>
      f.path == path && f.line > 0 && exists s :: s in Segments(d, lines, 0) && Gives(d, lines, s, f.line - 1, f.hit)
  {
    hide AllFindings, Segments, Concat, Cut, Gives;
    SegmentsAreCut(d, lines, 0);
    FindingsBySegment(d, path, lines, 0);
    ConcatGives(d, path, lines, Segments(d, lines, 0), f);
  }

  /** For a line outside every key block. */
  lemma LineFindings(d: Detectors, path: string, lines: seq<string>, k: nat, h: Hit)
    requires Line(k, k) in Segments(d, lines, 0)
    ensures k < |lines|
    ensures SecretFinding(path, k + 1, h) in AllFindings(d, path, lines, 0) <==> LineGives(d, lines[k], h)
  {
    hide AllFindings, Segments, LineGives, Trimmed, TrimCR;
    var f := SecretFinding(path, k + 1, h);
    FindingsExactly(d, path, lines, f);
    assert Cut(d, lines, Line(k, k));
    assert LineGives(d, lines[k], h) ==> Gives(d, lines, Line(k, k), k, h);
    if f in AllFindings(d, path, lines, 0) {
      var s :| s in Segments(d, lines, 0) && Gives(d, lines, s, k, h);
      StartsOnce(d, lines, s, Line(k, k));
    }
  }

  /** No two segments start at one line. */
  lemma StartsOnce(d: Detectors, lines: seq<string>, s: Segment, t: Segment)
    requires s in Segments(d, lines, 0) && t in Segments(d, lines, 0) && s.first == t.first
    ensures s == t
  {
    hide Segments, CoveredOnce;
    SegmentsAreCut(d, lines, 0);
    EveryLineOnce(d, lines, s.first);
    var segments := Segments(d, lines, 0);
    var i :| 0 <= i < |segments| && segments[i] == s;
    var j :| 0 <= j < |segments| && segments[j] == t;
    assert Covers(segments[i], s.first) && Covers(segments[j], s.first);
    OneCovers(segments, s.first, i, j);
  }

  lemma OneCovers(segments: seq<Segment>, k: nat, i: nat, j: nat)
    requires CoveredOnce(segments, k) && i < |segments| && j < |segments|
    requires Covers(segments[i], k) && Covers(segments[j], k)
    ensures i == j
  {
  }

  /** On a line, tokens are reported first, in detector order, and the assigned secret last. */
  lemma TokensComeFirst(d: Detectors, path: string, lines: seq<string>, k: nat)
    requires k < |lines| && !d.comment(TrimCR(lines[k]))
    ensures var found, tokens, secret := SegmentFindings(d, path, lines, Line(k, k)), d.tokens(TrimCR(lines[k])),
                                         d.assignment(TrimCR(lines[k]));
      && |found| == |tokens| + (if secret.Some? then 1 else 0)
      && (forall j :: 0 <= j < |tokens| ==> found[j] == SecretFinding(path, k + 1, tokens[j]))
      && (secret.Some? ==> found[|tokens|] == SecretFinding(path, k + 1, secret.value))
  {
  }

  /** The findings of a file come by line, on a line by detector, and of a detector by fingerprint. */
  ghost predicate ByPlace(a: SecretFinding, b: SecretFinding) {
    a.path == b.path ==>
      && a.line <= b.line
      && (a.line == b.line ==> !StrLess(b.hit.detectorID, a.hit.detectorID))
      && (a.line == b.line && a.hit.detectorID == b.hit.detectorID ==> !StrLess(b.hit.fingerprint, a.hit.fingerprint))
  }

  lemma FindingsAreWeaklyOrdered()
    ensures WeakOrder(FINDING_LESS)
  {
    hide StrLess;
    forall x: SecretFinding ensures !FINDING_LESS(x, x) {
      StrLessIrreflexive(x.hit.fingerprint);
    }
    forall x: SecretFinding, y: SecretFinding, z: SecretFinding
      ensures FINDING_LESS(x, y) && FINDING_LESS(y, z) ==> FINDING_LESS(x, z)
      ensures FINDING_LESS(x, z) ==> FINDING_LESS(x, y) || FINDING_LESS(y, z)
    {
      TextsAreOrdered(x.path, y.path, z.path);
      TextsAreOrdered(x.hit.detectorID, y.hit.detectorID, z.hit.detectorID);
      TextsAreOrdered(x.hit.fingerprint, y.hit.fingerprint, z.hit.fingerprint);
    }
  }

  lemma TextsAreOrdered(a: string, b: string, c: string)
    ensures StrLess(a, b) && StrLess(b, c) ==> StrLess(a, c)
    ensures (a == b || StrLess(a, b) || StrLess(b, a)) && !(StrLess(a, b) && StrLess(b, a))
    ensures (b == c || StrLess(b, c) || StrLess(c, b)) && !(StrLess(b, c) && StrLess(c, b))
    ensures (a == c || StrLess(a, c) || StrLess(c, a)) && !(StrLess(a, c) && StrLess(c, a))
    ensures StrLess(a, c) ==> StrLess(a, b) || StrLess(b, c)
    ensures !StrLess(a, a)
  {
    hide StrLess;
    StrLessIrreflexive(a);
    StrLessTotal(a, b);
    StrLessTotal(b, c);
    StrLessTotal(a, c);
    if StrLess(a, b) { StrLessAsymmetric(a, b); }
    if StrLess(b, c) { StrLessAsymmetric(b, c); }
    if StrLess(a, c) { StrLessAsymmetric(a, c); }
    if StrLess(a, b) && StrLess(b, c) { StrLessTransitive(a, b, c); }
    if StrLess(b, a) && StrLess(a, c) { StrLessTransitive(b, a, c); }
  }

  /** `sortSecretFindings` loses nothing and puts earlier places first. */
  lemma SortedByPlace(findings: seq<SecretFinding>)
    ensures multiset(SortFindings(findings)) == multiset(findings)
    ensures var sorted := SortFindings(findings); forall i, j :: 0 <= i < j < |sorted| ==> ByPlace(sorted[i], sorted[j])
  {
    hide StrLess, Sort;
    FindingsAreWeaklyOrdered();
    SortIsWeaklySorted(FINDING_LESS, findings);
    SortPermutes(FINDING_LESS, findings);
    var sorted := SortFindings(findings);
    forall i, j | 0 <= i < j < |sorted| ensures ByPlace(sorted[i], sorted[j]) {
      assert !FINDING_LESS(sorted[j], sorted[i]);
      StrLessIrreflexive(sorted[i].hit.detectorID);
    }
  }
}
