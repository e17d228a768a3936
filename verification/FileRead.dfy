/** A file that may change while it is read, and what the bounded read loops of
    internal/scanner/executable.go and internal/scanner/secret.go take from it. */
module FileRead {
  import opened Model

  /** One `Read`: bytes, and whether the end or an error was reported with them. */
  datatype Chunk = Data(bytes: string) | End(bytes: string) | Broken(bytes: string)

  /** What the k-th `Read` and the k-th `Stat` after opening yield (`None` is an error), and whether the
      context is cancelled before the k-th `Read`.  Contents and sizes need not fit together. */
  datatype OpenFile = OpenFile(chunks: nat -> Chunk, sizes: nat -> Option<int>, cancelled: nat -> bool)

  /** `Replaced` stands for another file, or one no longer of the kind wanted. */
  datatype Opening = OpenFails | Replaced | Opened(file: OpenFile)

  /** The `Read` before which the loop can still go on stalling: it moves, or the context ends it. */
  predicate Moves(file: OpenFile, k: nat) { file.chunks(k) != Data("") || file.cancelled(k) }

  ghost predicate MovesFrom(file: OpenFile, k: nat) { exists j: nat :: k <= j && Moves(file, j) }

  /** The loops end: no file answers every further `Read` with nothing, for ever. */
  ghost predicate Progresses(o: Opening) {
    o.Opened? ==> forall k: nat :: MovesFrom(o.file, k)
  }

  function Prefix(bytes: string, n: int): string
    requires n >= 0
  {
    if |bytes| > n then bytes[..n] else bytes
  }

  /** What `n` reads into a buffer, up to a limit, put together. */
  function Gather(file: OpenFile, buffer: nat, limit: nat, n: nat): (s: string)
    ensures |s| <= limit
  {
    if n == 0 then ""
    else
      var before := Gather(file, buffer, limit, n - 1);
      var room := if limit - |before| < buffer then limit - |before| else buffer;
      before + Prefix(file.chunks(n - 1).bytes, room)
  }

  /** Why a loop stops after `n` reads. */
  datatype Stop = AtEnd | OnError | OnCancel | AtLimit

  ghost predicate GoesOn(file: OpenFile, buffer: nat, limit: nat, n: nat) {
    forall k: nat :: k < n ==>
      !file.cancelled(k) && |Gather(file, buffer, limit, k)| < limit && (k + 1 < n ==> file.chunks(k).Data?)
  }

  /** The loop makes exactly `n` reads and stops for this reason. */
  ghost predicate StopsAfter(file: OpenFile, buffer: nat, limit: nat, n: nat, stop: Stop) {
    && GoesOn(file, buffer, limit, n)
    && match stop
       case AtEnd => n > 0 && file.chunks(n - 1).End?
       case OnError => n > 0 && file.chunks(n - 1).Broken?
       case OnCancel => (n > 0 ==> file.chunks(n - 1).Data?) && file.cancelled(n)
       case AtLimit =>
         (n > 0 ==> file.chunks(n - 1).Data?) && !file.cancelled(n) && |Gather(file, buffer, limit, n)| >= limit
  }

  /** The file alone decides when and why a loop stops. */
  lemma StopsOnce(file: OpenFile, buffer: nat, limit: nat, m: nat, n: nat, a: Stop, b: Stop)
    requires StopsAfter(file, buffer, limit, m, a) && StopsAfter(file, buffer, limit, n, b)
    ensures m == n && a == b
  {
    hide Gather;
    if m < n { StopsNoEarlier(file, buffer, limit, m, n, a); }
    if n < m { StopsNoEarlier(file, buffer, limit, n, m, b); }
  }

  lemma StopsNoEarlier(file: OpenFile, buffer: nat, limit: nat, m: nat, n: nat, stop: Stop)
    requires GoesOn(file, buffer, limit, n) && m < n
    ensures !StopsAfter(file, buffer, limit, m, stop)
  {
    hide Gather;
    assert !file.cancelled(m) && |Gather(file, buffer, limit, m)| < limit;
    if m > 0 { assert file.chunks(m - 1).Data?; }
  }

  lemma GatherNext(file: OpenFile, buffer: nat, limit: nat, n: nat)
    ensures var before := Gather(file, buffer, limit, n);
      Gather(file, buffer, limit, n + 1)
        == before + Prefix(file.chunks(n).bytes, if limit - |before| < buffer then limit - |before| else buffer)
  {
  }

  lemma GoesOnNext(file: OpenFile, buffer: nat, limit: nat, n: nat)
    requires GoesOn(file, buffer, limit, n) && (n > 0 ==> file.chunks(n - 1).Data?)
    requires !file.cancelled(n) && |Gather(file, buffer, limit, n)| < limit
    ensures GoesOn(file, buffer, limit, n + 1)
  {
    hide Gather;
  }

  lemma PrefixLength(bytes: string, n: nat)
    ensures bytes != "" && n > 0 ==> |Prefix(bytes, n)| > 0
    ensures bytes == "" ==> Prefix(bytes, n) == ""
  {
  }

  /** A later read that moves; the distance to it bounds the stalling. */
  lemma NextMove(file: OpenFile, k: nat) returns (j: nat)
    requires Progresses(Opened(file))
    ensures k <= j && Moves(file, j)
  {
    assert MovesFrom(file, k);
    j :| k <= j && Moves(file, j);
  }

  /** The loop goes on after `n` reads. */
  ghost predicate Reading(file: OpenFile, buffer: nat, limit: nat, content: string, n: nat) {
    && content == Gather(file, buffer, limit, n) && GoesOn(file, buffer, limit, n)
    && (n > 0 ==> file.chunks(n - 1).Data?)
  }

  lemma ReadingStarts(file: OpenFile, buffer: nat, limit: nat, content: string, n: nat)
    requires content == "" && n == 0
    ensures Reading(file, buffer, limit, content, n)
  {
  }

  /** One turn of the loop. */
  method Turn(file: OpenFile, buffer: nat, limit: nat, content: string, n: nat)
    returns (more: string, done: nat, stop: Option<Stop>)
    requires buffer > 0 && Reading(file, buffer, limit, content, n)
    ensures stop.Some? ==> more == Gather(file, buffer, limit, done) && StopsAfter(file, buffer, limit, done, stop.value)
    ensures stop.None? ==> done == n + 1 && Reading(file, buffer, limit, more, n + 1)
    ensures stop.None? && Moves(file, n) ==> |content| < |more| <= limit
    ensures stop.None? ==> |content| <= |more|
  {
    hide Gather, GoesOn, Prefix;
    if file.cancelled(n) {
      return content, n, Some(OnCancel);
    }
    var remaining := limit - |content|;
    if remaining <= 0 {
      return content, n, Some(AtLimit);
    }
    var room := if remaining < buffer then remaining else buffer;
    var chunk := file.chunks(n);
    GatherNext(file, buffer, limit, n);
    GoesOnNext(file, buffer, limit, n);
    PrefixLength(chunk.bytes, room);
    more := content + Prefix(chunk.bytes, room);
    stop := if chunk.End? then Some(AtEnd) else if chunk.Broken? then Some(OnError) else None;
    return more, n + 1, stop;
  }

  /** The shared read loop. */
  method ReadLoop(file: OpenFile, buffer: nat, limit: nat) returns (content: string, n: nat, stop: Stop)
    requires Progresses(Opened(file)) && buffer > 0
    ensures content == Gather(file, buffer, limit, n) && StopsAfter(file, buffer, limit, n, stop)
  {
    hide Gather, Progresses, Moves, StopsAfter;
    content, n := "", 0;
    ReadingStarts(file, buffer, limit, content, n);
    ghost var until := NextMove(file, n);
    while true
      invariant Reading(file, buffer, limit, content, n) && n <= until && Moves(file, until)
      decreases limit - |content|, until - n
    {
      var ended;
      content, n, ended := Turn(file, buffer, limit, content, n);
      if ended.Some? {
        return content, n, ended.value;
      }
      if n > until {
        until := NextMove(file, n);
      }
    }
  }

  /** The bytes of the first reads, one after the other. */
  function Bytes(file: OpenFile, n: nat): string {
    if n == 0 then "" else Bytes(file, n - 1) + file.chunks(n - 1).bytes
  }

  /** Read `k` returns no more than the loop asks for: its buffer, or what is left to the limit. */
  ghost predicate Obliges(file: OpenFile, buffer: nat, limit: nat, k: nat) {
    |file.chunks(k).bytes| <= buffer && |Bytes(file, k)| + |file.chunks(k).bytes| <= limit
  }

  /** What the loop has gathered is then exactly what the file has returned. */
  lemma {:induction false} GatherIsWhatWasRead(file: OpenFile, buffer: nat, limit: nat, n: nat)
    requires forall k: nat :: k < n ==> Obliges(file, buffer, limit, k)
    ensures Gather(file, buffer, limit, n) == Bytes(file, n)
  {
    hide Gather, Bytes, Obliges;
    if n == 0 {
      NothingGathered(file, buffer, limit, n);
    } else {
      GatherIsWhatWasRead(file, buffer, limit, n - 1);
      assert Obliges(file, buffer, limit, n - 1);
      OneMoreRead(file, buffer, limit, n - 1);
    }
  }

  lemma NothingGathered(file: OpenFile, buffer: nat, limit: nat, n: nat)
    requires n == 0
    ensures Gather(file, buffer, limit, n) == Bytes(file, n)
  {
  }

  lemma OneMoreRead(file: OpenFile, buffer: nat, limit: nat, k: nat)
    requires Obliges(file, buffer, limit, k) && Gather(file, buffer, limit, k) == Bytes(file, k)
    ensures Gather(file, buffer, limit, k + 1) == Bytes(file, k + 1)
  {
    GatherNext(file, buffer, limit, k);
  }
}
