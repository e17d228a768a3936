/** The planner of internal/scheduler/scheduler.go: which tasks are due, and when they are next. */
module Planner {
  import opened Ordering
  import opened Instants
  import opened Model

  const TWO64: int := 0x1_0000_0000_0000_0000
  const TWO63: int := 0x8000_0000_0000_0000

  /** Durations in nanoseconds, as 64-bit integers. */
  type Duration = x: int | -TWO63 <= x < TWO63

  datatype Schedule = Schedule(every: Duration, jitter: Duration, timeout: Duration, runOnStart: bool)

  datatype TaskSpec = TaskSpec(id: string, kind: string, schedule: Schedule, labels: map<string, string>)

  predicate ValidSchedule(s: Schedule) { s.every > 0 && 0 <= s.jitter < s.every && s.timeout >= 0 }

  predicate ValidSpec(s: TaskSpec) { s.id != "" && s.kind != "" && ValidSchedule(s.schedule) }

  /** FNV-1a of a stable key, a zero byte and a time. */
  type Hash = (string, Time) -> nat

  /** The conversion of an unsigned 64-bit number to a duration. */
  function ToDuration(u: int): Duration
    requires 0 <= u < TWO64
  {
    if u >= TWO63 then u - TWO64 else u
  }

  /** `Schedule.Next`.  The modulus is `Jitter+1` as an unsigned number; `None` is the panic of a division
      by zero, at jitter -1. */
  function NextTime(hash: Hash, s: Schedule, after: Time, key: string): Option<Time> {
    if s.jitter == 0 then Some(after + s.every)
    else
      var modulus := (s.jitter + 1) % TWO64;
      if modulus == 0 then None else Some(after + s.every + ToDuration(hash(key, after) % modulus))
  }

  datatype PlannerError = InvalidSpec | DuplicateTask

  type Plan = map<string, Time>

  lemma ValidNeverPanics(hash: Hash, s: Schedule, after: Time, key: string)
    requires ValidSchedule(s)
    ensures NextTime(hash, s, after, key).Some?
    ensures after + s.every <= NextTime(hash, s, after, key).value <= after + s.every + s.jitter
  {
    if s.jitter > 0 {
      assert (s.jitter + 1) % TWO64 == s.jitter + 1;
      assert 0 <= hash(key, after) % (s.jitter + 1) < s.jitter + 1;
    }
  }

  /** The next time of a valid schedule is the interval plus the hash, reduced to the jitter. */
  lemma OffsetIsHashed(hash: Hash, s: Schedule, after: Time, key: string)
    requires ValidSchedule(s)
    ensures NextTime(hash, s, after, key) == Some(after + s.every + hash(key, after) % (s.jitter + 1))
  {
    assert (s.jitter + 1) % TWO64 == s.jitter + 1;
    var offset := hash(key, after) % (s.jitter + 1);
    assert 0 <= offset <= s.jitter;
  }

  lemma PanicsExactly(hash: Hash, s: Schedule, after: Time, key: string)
    ensures NextTime(hash, s, after, key).None? <==> s.jitter == -1
  {
  }

  function AddTask(plan: Plan, hash: Hash, spec: TaskSpec, at: Time): (Plan, Option<PlannerError>) {
    if !ValidSpec(spec) then (plan, Some(InvalidSpec))
    else if spec.id in plan then (plan, Some(DuplicateTask))
    else if spec.schedule.runOnStart then (plan[spec.id := at], None)
    else
      match NextTime(hash, spec.schedule, at, spec.id)
      case Some(next) => (plan[spec.id := next], None)
      case None => (plan, Some(InvalidSpec))
  }

  /** Which specs are registered: named, with an interval, a jitter below it and no negative timeout, and
      not planned already. */
  lemma AddsExactly(plan: Plan, hash: Hash, spec: TaskSpec, at: Time)
    ensures var (after, error) := AddTask(plan, hash, spec, at); var s := spec.schedule;
            var valid := spec.id != "" && spec.kind != "" && s.every > 0 && 0 <= s.jitter && s.jitter < s.every && s.timeout >= 0;
      && (!valid ==> (after, error) == (plan, Some(InvalidSpec)))
      && (valid && spec.id in plan ==> (after, error) == (plan, Some(DuplicateTask)))
      && (valid && spec.id !in plan ==>
            && error.None? && after.Keys == plan.Keys + {spec.id}
            && (forall id :: id in plan ==> after[id] == plan[id])
            && after[spec.id] == (if s.runOnStart then at else at + s.every + hash(spec.id, at) % (s.jitter + 1)))
  {
    hide NextTime;
    if ValidSpec(spec) { OffsetIsHashed(hash, spec.schedule, at, spec.id); }
  }

  /** The plan and the claimed specs, in listing order; a panic ends the call. */
  datatype Claims = Claims(plan: Plan, due: seq<TaskSpec>, panicked: bool)

  /** One more listed spec. */
  function ClaimOne(hash: Hash, c: Claims, spec: TaskSpec, now: Time): Claims {
    if c.panicked || spec.id !in c.plan || c.plan[spec.id] > now then c
    else
      match NextTime(hash, spec.schedule, now, spec.id)
      case None => c.(due := c.due + [spec], panicked := true)
      case Some(next) => c.(plan := c.plan[spec.id := next], due := c.due + [spec])
  }

  function Claim(plan: Plan, hash: Hash, specs: seq<TaskSpec>, now: Time): Claims {
    if specs == [] then Claims(plan, [], false)
    else ClaimOne(hash, Claim(plan, hash, specs[..|specs| - 1], now), specs[|specs| - 1], now)
  }

  lemma ClaimSnoc(plan: Plan, hash: Hash, front: seq<TaskSpec>, spec: TaskSpec, now: Time)
    ensures Claim(plan, hash, front + [spec], now) == ClaimOne(hash, Claim(plan, hash, front, now), spec, now)
  {
    hide ClaimOne;
    assert (front + [spec])[..|front|] == front;
  }

  lemma {:induction false} PanicIsFinal(plan: Plan, hash: Hash, specs: seq<TaskSpec>, now: Time, n: nat)
    requires n <= |specs| && Claim(plan, hash, specs[..n], now).panicked
    ensures Claim(plan, hash, specs, now) == Claim(plan, hash, specs[..n], now)
  {
    hide NextTime;
    if n < |specs| {
      assert specs[..|specs| - 1][..n] == specs[..n];
      PanicIsFinal(plan, hash, specs[..|specs| - 1], now, n);
    } else {
      assert specs[..n] == specs;
    }
  }

  function IDOf(): TaskSpec -> string { (s: TaskSpec) => s.id }

  function ByID(): (TaskSpec, TaskSpec) -> bool { ByKey(IDOf()) }

  class Planner {
    const hash: Hash
    var next: Plan

    constructor (hash: Hash)
      ensures next == map[] && this.hash == hash
    {
      this.hash := hash;
      next := map[];
    }

    method Add(spec: TaskSpec, registeredAt: Time) returns (error: Option<PlannerError>)
      modifies this
      ensures (next, error) == AddTask(old(next), hash, spec, registeredAt)
    {
      if !ValidSpec(spec) {
        return Some(InvalidSpec);
      }
      if spec.id in next {
        return Some(DuplicateTask);
      }
      if spec.schedule.runOnStart {
        next := next[spec.id := registeredAt];
      } else {
        ValidNeverPanics(hash, spec.schedule, registeredAt, spec.id);
        next := next[spec.id := NextTime(hash, spec.schedule, registeredAt, spec.id).value];
      }
      return None;
    }

    /** `None` is the panic; the plan then keeps the claims made before it. */
    method Due(specs: seq<TaskSpec>, now: Time) returns (r: Option<seq<TaskSpec>>)
      modifies this
      ensures next == Claim(old(next), hash, specs, now).plan
      ensures r.None? <==> Claim(old(next), hash, specs, now).panicked
      ensures r.Some? ==> r.value == Sort(ByID(), Claim(old(next), hash, specs, now).due)
    {
      hide Sort, NextTime;
      var due: seq<TaskSpec> := [];
      for i := 0 to |specs|
        invariant Claim(old(next), hash, specs[..i], now) == Claims(next, due, false)
      {
        assert specs[..i + 1][..i] == specs[..i];
        var spec := specs[i];
        if spec.id in next && next[spec.id] <= now {
          due := due + [spec];
          var later := NextTime(hash, spec.schedule, now, spec.id);
          if later.None? {
            PanicIsFinal(old(next), hash, specs, now, i + 1);
            return None;
          }
          next := next[spec.id := later.value];
        }
      }
      assert specs[..|specs|] == specs;
      return Some(Sort(ByID(), due));
    }
  }

  // ----- one call of Due -----

  /** Valid specs, and at most one spec per id, though an id may be listed repeatedly. */
  ghost predicate Listing(specs: seq<TaskSpec>) {
    && (forall s :: s in specs ==> ValidSpec(s))
    && (forall s, t :: s in specs && t in specs && s.id == t.id ==> s == t)
  }

  ghost predicate Ripe(plan: Plan, id: string, now: Time) { id in plan && plan[id] <= now }

  ghost predicate UniqueIDs(specs: seq<TaskSpec>) {
    forall i, j :: 0 <= i < j < |specs| ==> specs[i].id != specs[j].id
  }

  /** What one call claims, exactly: each listed task whose time has come, once, however often it is
      listed; it is then planned between `Every` and `Every + Jitter` later, and nothing else moves. */
  ghost predicate ClaimedExactly(plan: Plan, specs: seq<TaskSpec>, now: Time, c: Claims) {
    && !c.panicked && UniqueIDs(c.due)
    && (forall s :: s in c.due <==> s in specs && Ripe(plan, s.id, now))
    && c.plan.Keys == plan.Keys
    && (forall s :: s in c.due ==>
          now + s.schedule.every <= c.plan[s.id] <= now + s.schedule.every + s.schedule.jitter)
    && (forall id :: id in plan && (forall s :: s in c.due ==> s.id != id) ==> c.plan[id] == plan[id])
  }

  lemma RepeatedIsSkipped(plan: Plan, hash: Hash, front: seq<TaskSpec>, spec: TaskSpec, now: Time, c: Claims)
    requires ClaimedExactly(plan, front, now, c) && ValidSpec(spec) && spec in c.due
    ensures ClaimedExactly(plan, front + [spec], now, ClaimOne(hash, c, spec, now))
  {
    hide NextTime;
    assert c.plan[spec.id] > now;
    assert spec in front;
  }

  lemma FirstIsDecided(plan: Plan, hash: Hash, front: seq<TaskSpec>, spec: TaskSpec, now: Time, c: Claims)
    requires ClaimedExactly(plan, front, now, c) && ValidSpec(spec)
    requires forall s :: s in c.due ==> s.id != spec.id
    ensures ClaimedExactly(plan, front + [spec], now, ClaimOne(hash, c, spec, now))
  {
    hide NextTime;
    ValidNeverPanics(hash, spec.schedule, now, spec.id);
  }

  lemma {:induction false} ClaimIsExact(plan: Plan, hash: Hash, specs: seq<TaskSpec>, now: Time)
    requires Listing(specs)
    ensures ClaimedExactly(plan, specs, now, Claim(plan, hash, specs, now))
  {
    if specs != [] {
      hide ClaimOne, Claim, ClaimedExactly;
      var front, spec := specs[..|specs| - 1], specs[|specs| - 1];
      assert specs == front + [spec];
      ClaimIsExact(plan, hash, front, now);
      var c := Claim(plan, hash, front, now);
      ClaimSnoc(plan, hash, front, spec, now);
      if spec in c.due {
        RepeatedIsSkipped(plan, hash, front, spec, now, c);
      } else {
        ClaimedAreListed(plan, front, now, c);
        forall s | s in c.due ensures s.id != spec.id { assert s in specs; }
        FirstIsDecided(plan, hash, front, spec, now, c);
      }
    }
  }

  lemma ClaimedAreListed(plan: Plan, specs: seq<TaskSpec>, now: Time, c: Claims)
    requires ClaimedExactly(plan, specs, now, c)
    ensures forall s :: s in c.due ==> s in specs
  {
  }

  /** `Due` returns each listed task that is ripe once, in strict id order. */
  lemma DueIsSortedAndUnique(plan: Plan, hash: Hash, specs: seq<TaskSpec>, now: Time)
    requires Listing(specs)
    ensures !Claim(plan, hash, specs, now).panicked
    ensures var due := Sort(ByID(), Claim(plan, hash, specs, now).due);
      && StrictlySorted(ByID(), due)
      && (forall s :: s in due <==> s in specs && Ripe(plan, s.id, now))
  {
    hide Sort, StrLess, Claim;
    ClaimIsExact(plan, hash, specs, now);
    var due := Claim(plan, hash, specs, now).due;
    ByKeyIsStrictOrder(IDOf());
    forall i, j | 0 <= i < j < |due| ensures ByID()(due[i], due[j]) || ByID()(due[j], due[i]) {
      StrLessTotal(due[i].id, due[j].id);
    }
    SortIsSorted(ByID(), due);
    SortKeepsMembers(ByID(), due);
  }

  // ----- specs nobody validated -----

  /** Claiming the spec now leaves it due at once. */
  predicate StaysRipe(hash: Hash, spec: TaskSpec, now: Time) {
    match NextTime(hash, spec.schedule, now, spec.id)
    case Some(next) => next <= now
    case None => false
  }

  /** The id is due, and no spec of this id that is listed in front puts it off. */
  ghost predicate Reached(plan: Plan, hash: Hash, front: seq<TaskSpec>, id: string, now: Time) {
    Ripe(plan, id, now) && forall s :: s in front && s.id == id ==> StaysRipe(hash, s, now)
  }

  /** The listed specs that are reached, in listing order. */
  ghost function ReachedSpecs(plan: Plan, hash: Hash, specs: seq<TaskSpec>, now: Time): seq<TaskSpec> {
    if specs == [] then []
    else
      var front, last := specs[..|specs| - 1], specs[|specs| - 1];
      ReachedSpecs(plan, hash, front, now) + (if Reached(plan, hash, front, last.id, now) then [last] else [])
  }

  /** Some spec is reached that divides by zero. */
  ghost predicate Divides(plan: Plan, hash: Hash, specs: seq<TaskSpec>, now: Time) {
    exists k :: 0 <= k < |specs| && specs[k].schedule.jitter == -1 && Reached(plan, hash, specs[..k], specs[k].id, now)
  }

  lemma ReachedNext(plan: Plan, hash: Hash, front: seq<TaskSpec>, spec: TaskSpec, id: string, now: Time)
    ensures Reached(plan, hash, front + [spec], id, now) <==>
      Reached(plan, hash, front, id, now) && (spec.id == id ==> StaysRipe(hash, spec, now))
  {
    hide StaysRipe;
  }

  lemma DividesNext(plan: Plan, hash: Hash, front: seq<TaskSpec>, spec: TaskSpec, now: Time)
    ensures Divides(plan, hash, front + [spec], now) <==>
      Divides(plan, hash, front, now) || (spec.schedule.jitter == -1 && Reached(plan, hash, front, spec.id, now))
  {
    hide Reached;
    var specs := front + [spec];
    assert specs[..|front|] == front && specs[|front|] == spec;
    forall k | 0 <= k < |front| ensures specs[..k] == front[..k] && specs[k] == front[k] { }
  }

  lemma ReachedSpecsNext(plan: Plan, hash: Hash, front: seq<TaskSpec>, spec: TaskSpec, now: Time)
    ensures ReachedSpecs(plan, hash, front + [spec], now) ==
      ReachedSpecs(plan, hash, front, now) + (if Reached(plan, hash, front, spec.id, now) then [spec] else [])
  {
    hide Reached;
    assert (front + [spec])[..|front|] == front;
  }

  /** What has been claimed without panic, and which ids are still due. */
  ghost predicate Follows(plan: Plan, hash: Hash, specs: seq<TaskSpec>, now: Time, c: Claims) {
    && (c.panicked <==> Divides(plan, hash, specs, now))
    && (!c.panicked ==>
          && c.due == ReachedSpecs(plan, hash, specs, now)
          && forall id :: Ripe(c.plan, id, now) <==> Reached(plan, hash, specs, id, now))
  }

  lemma FollowsNext(plan: Plan, hash: Hash, front: seq<TaskSpec>, spec: TaskSpec, now: Time, c: Claims)
    requires Follows(plan, hash, front, now, c)
    ensures Follows(plan, hash, front + [spec], now, ClaimOne(hash, c, spec, now))
  {
    hide NextTime, Reached, ReachedSpecs, Divides;
    PanicsExactly(hash, spec.schedule, now, spec.id);
    DividesNext(plan, hash, front, spec, now);
    ReachedSpecsNext(plan, hash, front, spec, now);
    forall id ensures Reached(plan, hash, front + [spec], id, now) <==>
      Reached(plan, hash, front, id, now) && (spec.id == id ==> StaysRipe(hash, spec, now))
    {
      ReachedNext(plan, hash, front, spec, id, now);
    }
  }

  /** For any listed specs, a call of `Due` panics exactly when it reaches one with jitter -1, and
      otherwise claims exactly the specs it reaches. */
  lemma {:induction false} DueExactly(plan: Plan, hash: Hash, specs: seq<TaskSpec>, now: Time)
    ensures Claim(plan, hash, specs, now).panicked <==> Divides(plan, hash, specs, now)
    ensures !Claim(plan, hash, specs, now).panicked ==>
      && Claim(plan, hash, specs, now).due == ReachedSpecs(plan, hash, specs, now)
      && forall id :: Ripe(Claim(plan, hash, specs, now).plan, id, now) <==> Reached(plan, hash, specs, id, now)
  {
    hide ClaimOne, Reached;
    if specs != [] {
      hide Claim, ReachedSpecs, Divides;
      var front, spec := specs[..|specs| - 1], specs[|specs| - 1];
      assert specs == front + [spec];
      DueExactly(plan, hash, front, now);
      ClaimSnoc(plan, hash, front, spec, now);
      FollowsNext(plan, hash, front, spec, now, Claim(plan, hash, front, now));
    } else {
      NothingListed(plan, hash, now);
    }
  }

  lemma NothingListed(plan: Plan, hash: Hash, now: Time)
    ensures forall id :: Reached(plan, hash, [], id, now) <==> Ripe(plan, id, now)
  {
  }

  // ----- ids returned more than once -----

  /** The first listed spec of each due id that is listed again puts the id off. */
  ghost predicate FirstsPutOff(plan: Plan, hash: Hash, specs: seq<TaskSpec>, now: Time) {
    forall i, j ::
      0 <= i < j < |specs| && specs[i].id == specs[j].id && Ripe(plan, specs[i].id, now)
      && (forall h :: 0 <= h < i ==> specs[h].id != specs[i].id)
      ==> !StaysRipe(hash, specs[i], now)
  }

  /** A call of `Due` that does not panic returns each id at most once exactly when, of each due id that
      is listed more than once, the first listed spec is no longer due after its claim. */
  lemma DueOnceExactly(plan: Plan, hash: Hash, specs: seq<TaskSpec>, now: Time)
    ensures !Claim(plan, hash, specs, now).panicked ==>
      (UniqueIDs(Claim(plan, hash, specs, now).due) <==> FirstsPutOff(plan, hash, specs, now))
  {
    hide StaysRipe, Claim, ReachedSpecs, Divides;
    DueExactly(plan, hash, specs, now);
    if FirstsPutOff(plan, hash, specs, now) {
      if !UniqueIDs(ReachedSpecs(plan, hash, specs, now)) {
        var i, j := ReachedTwice(plan, hash, specs, now);
        var h := FirstOf(specs, i);
        assert specs[h] in specs[..j];
      }
    } else {
      var i, j :| 0 <= i < j < |specs| && specs[i].id == specs[j].id && Ripe(plan, specs[i].id, now)
        && (forall h :: 0 <= h < i ==> specs[h].id != specs[i].id) && StaysRipe(hash, specs[i], now);
      var k := SecondOf(specs, i, j);
      assert Reached(plan, hash, specs[..i], specs[i].id, now);
      assert Reached(plan, hash, specs[..k], specs[k].id, now);
      TwiceReached(plan, hash, specs, i, k, now);
    }
  }

  lemma {:induction false} FirstOf(specs: seq<TaskSpec>, i: nat) returns (h: nat)
    requires i < |specs|
    ensures h <= i && specs[h].id == specs[i].id && forall g :: 0 <= g < h ==> specs[g].id != specs[h].id
  {
    h := i;
    if g :| 0 <= g < i && specs[g].id == specs[i].id { h := FirstOf(specs, g); }
  }

  lemma {:induction false} SecondOf(specs: seq<TaskSpec>, i: nat, j: nat) returns (k: nat)
    requires i < j < |specs| && specs[i].id == specs[j].id
    ensures i < k <= j && specs[k].id == specs[i].id && forall g :: i < g < k ==> specs[g].id != specs[i].id
    decreases j
  {
    k := j;
    if g :| i < g < j && specs[g].id == specs[i].id { k := SecondOf(specs, i, g); }
  }

  lemma {:induction false} ReachedIsListed(plan: Plan, hash: Hash, specs: seq<TaskSpec>, now: Time, s: TaskSpec)
    requires s in ReachedSpecs(plan, hash, specs, now)
    ensures exists i :: 0 <= i < |specs| && specs[i] == s && Reached(plan, hash, specs[..i], s.id, now)
  {
    hide Reached;
    var front, n := specs[..|specs| - 1], |specs| - 1;
    if s in ReachedSpecs(plan, hash, front, now) {
      ReachedIsListed(plan, hash, front, now, s);
      var i :| 0 <= i < |front| && front[i] == s && Reached(plan, hash, front[..i], s.id, now);
      assert front[..i] == specs[..i];
    }
  }

  lemma {:induction false} ReachedTwice(plan: Plan, hash: Hash, specs: seq<TaskSpec>, now: Time) returns (i: nat, j: nat)
    requires !UniqueIDs(ReachedSpecs(plan, hash, specs, now))
    ensures i < j < |specs| && specs[i].id == specs[j].id && Reached(plan, hash, specs[..j], specs[j].id, now)
  {
    hide Reached;
    var front, n := specs[..|specs| - 1], |specs| - 1;
    var before := ReachedSpecs(plan, hash, front, now);
    if UniqueIDs(before) {
      var a :| 0 <= a < |before| && before[a].id == specs[n].id;
      ReachedIsListed(plan, hash, front, now, before[a]);
      i :| 0 <= i < |front| && front[i] == before[a];
      j := n;
    } else {
      i, j := ReachedTwice(plan, hash, front, now);
      assert front[..j] == specs[..j];
    }
  }

  lemma {:induction false} ReachedIsClaimed(plan: Plan, hash: Hash, specs: seq<TaskSpec>, i: nat, now: Time)
    requires i < |specs| && Reached(plan, hash, specs[..i], specs[i].id, now)
    ensures specs[i] in ReachedSpecs(plan, hash, specs, now)
  {
    hide Reached;
    var front := specs[..|specs| - 1];
    if i < |front| {
      assert front[..i] == specs[..i];
      ReachedIsClaimed(plan, hash, front, i, now);
    }
  }

  lemma {:induction false} TwiceReached(plan: Plan, hash: Hash, specs: seq<TaskSpec>, i: nat, j: nat, now: Time)
    requires i < j < |specs| && specs[i].id == specs[j].id
    requires Reached(plan, hash, specs[..i], specs[i].id, now) && Reached(plan, hash, specs[..j], specs[j].id, now)
    ensures !UniqueIDs(ReachedSpecs(plan, hash, specs, now))
  {
    hide Reached;
    var front, n := specs[..|specs| - 1], |specs| - 1;
    var before := ReachedSpecs(plan, hash, front, now);
    assert front[..i] == specs[..i];
    if j == n {
      ReachedIsClaimed(plan, hash, front, i, now);
      var a :| 0 <= a < |before| && before[a] == specs[i];
      var all := ReachedSpecs(plan, hash, specs, now);
      assert all == before + [specs[n]];
      assert all[a].id == all[|before|].id;
    } else {
      assert front[..j] == specs[..j];
      TwiceReached(plan, hash, front, i, j, now);
      var a, b :| 0 <= a < b < |before| && before[a].id == before[b].id;
      var all := ReachedSpecs(plan, hash, specs, now);
      assert before == all[..|before|];
    }
  }

  // ----- whole runs -----

  datatype Step = Register(spec: TaskSpec, at: Time) | Poll(specs: seq<TaskSpec>, now: Time)

  function Next(hash: Hash, plan: Plan, step: Step): Plan {
    match step
    case Register(spec, at) => AddTask(plan, hash, spec, at).0
    case Poll(specs, now) => Claim(plan, hash, specs, now).plan
  }

  function Run(hash: Hash, steps: seq<Step>): Plan {
    if steps == [] then map[] else Next(hash, Run(hash, steps[..|steps| - 1]), steps[|steps| - 1])
  }

  /** Every poll lists valid specs, and this one for its id. */
  ghost predicate Fixed(steps: seq<Step>, spec: TaskSpec) {
    forall i :: 0 <= i < |steps| && steps[i].Poll? ==>
      Listing(steps[i].specs) && forall s :: s in steps[i].specs && s.id == spec.id ==> s == spec
  }

  ghost predicate Polled(steps: seq<Step>, spec: TaskSpec, i: nat) {
    i < |steps| && steps[i].Poll? && spec in steps[i].specs
  }

  /** Poll `i` returns the task. */
  ghost predicate Claimed(hash: Hash, steps: seq<Step>, spec: TaskSpec, i: nat) {
    && Polled(steps, spec, i)
    && var c := Claim(Run(hash, steps[..i]), hash, steps[i].specs, steps[i].now);
       !c.panicked && spec in c.due
  }

  lemma PollClaims(hash: Hash, steps: seq<Step>, spec: TaskSpec, i: nat)
    requires i < |steps| && Fixed(steps, spec) && steps[i].Poll?
    ensures Claimed(hash, steps, spec, i) <==>
      spec in steps[i].specs && Ripe(Run(hash, steps[..i]), spec.id, steps[i].now)
    ensures Claimed(hash, steps, spec, i) ==>
      spec.id in Run(hash, steps[..i + 1])
      && steps[i].now + spec.schedule.every <= Run(hash, steps[..i + 1])[spec.id]
           <= steps[i].now + spec.schedule.every + spec.schedule.jitter
    ensures !Claimed(hash, steps, spec, i) && spec.id in Run(hash, steps[..i]) ==>
      spec.id in Run(hash, steps[..i + 1])
      && Run(hash, steps[..i + 1])[spec.id] == Run(hash, steps[..i])[spec.id]
  {
    hide Claim;
    assert steps[..i + 1][..i] == steps[..i];
    ClaimIsExact(Run(hash, steps[..i]), hash, steps[i].specs, steps[i].now);
    var due := Claim(Run(hash, steps[..i]), hash, steps[i].specs, steps[i].now).due;
    if spec !in due {
      forall s | s in due ensures s.id != spec.id { assert s in steps[i].specs; }
    }
  }

  /** Until its next claim a planned task stays where it is. */
  lemma {:induction false} PlanKept(hash: Hash, steps: seq<Step>, spec: TaskSpec, i: nat, j: nat)
    requires i < j <= |steps| && Fixed(steps, spec) && spec.id in Run(hash, steps[..i + 1])
    requires forall k :: i < k < j ==> !Claimed(hash, steps, spec, k)
    ensures spec.id in Run(hash, steps[..j])
    ensures Run(hash, steps[..j])[spec.id] == Run(hash, steps[..i + 1])[spec.id]
    decreases j
  {
    hide Claimed, Claim;
    if j > i + 1 {
      PlanKept(hash, steps, spec, i, j - 1);
      assert steps[..j][..j - 1] == steps[..j - 1];
      if steps[j - 1].Poll? { PollClaims(hash, steps, spec, j - 1); }
    }
  }

  /** Between a claim and the next one the planned time stays where the claim put it. */
  lemma PlanHolds(hash: Hash, steps: seq<Step>, spec: TaskSpec, i: nat, j: nat)
    requires i < j <= |steps| && Fixed(steps, spec) && Claimed(hash, steps, spec, i)
    requires forall k :: i < k < j ==> !Claimed(hash, steps, spec, k)
    ensures spec.id in Run(hash, steps[..j])
    ensures steps[i].now + spec.schedule.every <= Run(hash, steps[..j])[spec.id]
              <= steps[i].now + spec.schedule.every + spec.schedule.jitter
  {
    hide Claimed, Claim, Run;
    ClaimedIsPoll(hash, steps, spec, i);
    PollClaims(hash, steps, spec, i);
    PlanKept(hash, steps, spec, i, j);
  }

  lemma ClaimedIsPoll(hash: Hash, steps: seq<Step>, spec: TaskSpec, i: nat)
    requires Claimed(hash, steps, spec, i)
    ensures i < |steps| && steps[i].Poll? && spec in steps[i].specs
  {
  }

  /** Any two claims of a task lie at least `Every` apart, even if clocks were polled out of order. */
  lemma {:induction false} ClaimsKeepDistance(hash: Hash, steps: seq<Step>, spec: TaskSpec, i: nat, j: nat)
    requires i < j && Fixed(steps, spec) && Claimed(hash, steps, spec, i) && Claimed(hash, steps, spec, j)
    ensures steps[i].now + spec.schedule.every <= steps[j].now
    decreases j - i
  {
    hide Claim;
    if k :| i < k < j && Claimed(hash, steps, spec, k) {
      ClaimsKeepDistance(hash, steps, spec, i, k);
      ClaimsKeepDistance(hash, steps, spec, k, j);
      assert spec.schedule.every > 0 by { assert spec in steps[i].specs; }
    } else {
      PlanHolds(hash, steps, spec, i, j);
      PollClaims(hash, steps, spec, j);
    }
  }

  /** Polls of a task after step `i` follow an earlier one by at most `gap`. */
  ghost predicate PolledWithin(steps: seq<Step>, spec: TaskSpec, i: nat, j: nat, gap: nat) {
    forall q: nat :: i < q <= j && Polled(steps, spec, q) ==>
      exists p: nat :: i <= p < q && Polled(steps, spec, p) && steps[q].now <= steps[p].now + gap
  }

  /** Polled with gaps of at most `gap`, consecutive claims lie less than `Every + Jitter + gap`
      apart. */
  lemma ClaimsKeepUp(hash: Hash, steps: seq<Step>, spec: TaskSpec, i: nat, j: nat, gap: nat)
    requires i < j && Fixed(steps, spec) && Claimed(hash, steps, spec, i) && Claimed(hash, steps, spec, j)
    requires forall k :: i < k < j ==> !Claimed(hash, steps, spec, k)
    requires PolledWithin(steps, spec, i, j, gap)
    ensures steps[j].now < steps[i].now + spec.schedule.every + spec.schedule.jitter + gap
  {
    hide Claim;
    var p: nat :| i <= p < j && Polled(steps, spec, p) && steps[j].now <= steps[p].now + gap;
    if p > i {
      PlanHolds(hash, steps, spec, i, p);
      PollClaims(hash, steps, spec, p);
    } else {
      assert spec in steps[i].specs && ValidSpec(spec);
    }
  }

  /** A claimed task is claimed again by the first poll that lists it once its time has come: at the
      latest when `Every + Jitter` have passed since the claim. */
  lemma LatePollClaims(hash: Hash, steps: seq<Step>, spec: TaskSpec, i: nat, j: nat)
    requires i < j && Fixed(steps, spec) && Claimed(hash, steps, spec, i) && Polled(steps, spec, j)
    requires forall k :: i < k < j ==> !Claimed(hash, steps, spec, k)
    requires steps[j].now >= steps[i].now + spec.schedule.every + spec.schedule.jitter
    ensures Claimed(hash, steps, spec, j)
  {
    hide Claim;
    PlanHolds(hash, steps, spec, i, j);
    PollClaims(hash, steps, spec, j);
  }

  /** Step `i` registers the task. */
  ghost predicate Registered(hash: Hash, steps: seq<Step>, spec: TaskSpec, i: nat) {
    i < |steps| && steps[i].Register? && steps[i].spec == spec
    && AddTask(Run(hash, steps[..i]), hash, spec, steps[i].at).1.None?
  }

  lemma RegisteredPlan(hash: Hash, steps: seq<Step>, spec: TaskSpec, i: nat)
    requires Registered(hash, steps, spec, i)
    ensures ValidSpec(spec) && spec.id in Run(hash, steps[..i + 1])
    ensures var planned, at := Run(hash, steps[..i + 1])[spec.id], steps[i].at;
      if spec.schedule.runOnStart then planned == at
      else at + spec.schedule.every <= planned <= at + spec.schedule.every + spec.schedule.jitter
  {
    hide NextTime;
    assert steps[..i + 1][..i] == steps[..i];
    if ValidSpec(spec) { ValidNeverPanics(hash, spec.schedule, steps[i].at, spec.id); }
  }

  /** The first claim after the registration: a task that runs on start is claimed by exactly the first
      poll that lists it from its registration time on; any other, not before `Every` has passed, and by
      every poll that lists it once `Every + Jitter` have passed. */
  lemma FirstClaim(hash: Hash, steps: seq<Step>, spec: TaskSpec, i: nat, j: nat)
    requires i < j && Fixed(steps, spec) && Registered(hash, steps, spec, i) && Polled(steps, spec, j)
    requires forall k :: i < k < j ==> !Claimed(hash, steps, spec, k)
    ensures var waited := steps[j].now - steps[i].at;
      if spec.schedule.runOnStart then Claimed(hash, steps, spec, j) <==> waited >= 0
      else
        && (Claimed(hash, steps, spec, j) ==> waited >= spec.schedule.every)
        && (waited >= spec.schedule.every + spec.schedule.jitter ==> Claimed(hash, steps, spec, j))
  {
    hide Claim, Run, Claimed, NextTime;
    RegisteredPlan(hash, steps, spec, i);
    PlanKept(hash, steps, spec, i, j);
    PollClaims(hash, steps, spec, j);
  }

  // ----- runs that reach the exceptions -----

  /** A valid task, registered to run at once. */
  lemma RegisteredAlone(hash: Hash, spec: TaskSpec, at: Time)
    requires ValidSpec(spec) && spec.schedule.runOnStart
    ensures Run(hash, [Register(spec, at)]) == map[spec.id := at]
  {
    var steps := [Register(spec, at)];
    assert steps[..0] == [];
    assert Run(hash, steps) == Next(hash, Run(hash, []), Register(spec, at));
  }

  /** A spec without interval reaches `Due` in this run: a valid task is registered to run at once, and
      the poll lists, for its id, a spec that `Validate` would refuse.  It is claimed as often as it is
      listed. */
  lemma ZeroIntervalIsRepeated(hash: Hash, spec: TaskSpec, at: Time, n: nat)
    requires ValidSpec(spec) && spec.schedule.runOnStart
    ensures var zero := spec.(schedule := Schedule(0, 0, 0, true));
            var specs := seq(n, i => zero);
            var claims := Claim(Run(hash, [Register(spec, at)]), hash, specs, at);
      !ValidSpec(zero) && !claims.panicked && claims.due == specs
  {
    hide Claim, ClaimOne, Run;
    var zero := spec.(schedule := Schedule(0, 0, 0, true));
    var specs := seq(n, i => zero);
    var plan := Run(hash, [Register(spec, at)]);
    RegisteredAlone(hash, spec, at);
    DueExactly(plan, hash, specs, at);
    AllReached(plan, hash, specs, at);
  }

  lemma {:induction false} AllReached(plan: Plan, hash: Hash, specs: seq<TaskSpec>, now: Time)
    requires forall s :: s in specs ==> Ripe(plan, s.id, now) && StaysRipe(hash, s, now)
    ensures ReachedSpecs(plan, hash, specs, now) == specs
  {
    hide StaysRipe;
    if specs != [] {
      AllReached(plan, hash, specs[..|specs| - 1], now);
    }
  }

  /** In the same way, two different specs of one id are both claimed when the first has no interval, and
      a spec with jitter -1 panics when it is listed first but not when it is listed after a valid one. */
  lemma ListingOrderDecides(hash: Hash, spec: TaskSpec, at: Time)
    requires ValidSpec(spec) && spec.schedule.runOnStart
    ensures var zero := spec.(schedule := Schedule(0, 0, 0, true));
            var bad := spec.(schedule := spec.schedule.(jitter := -1));
            var plan := Run(hash, [Register(spec, at)]);
      && Claim(plan, hash, [zero, spec], at).due == [zero, spec] && !Claim(plan, hash, [zero, spec], at).panicked
      && Claim(plan, hash, [bad, spec], at).panicked
      && Claim(plan, hash, [spec, bad], at).due == [spec] && !Claim(plan, hash, [spec, bad], at).panicked
  {
    hide Claim, Run, NextTime;
    var zero := spec.(schedule := Schedule(0, 0, 0, true));
    var bad := spec.(schedule := spec.schedule.(jitter := -1));
    var plan := Run(hash, [Register(spec, at)]);
    RegisteredAlone(hash, spec, at);
    ValidNeverPanics(hash, spec.schedule, at, spec.id);
    PanicsExactly(hash, bad.schedule, at, spec.id);
    assert NextTime(hash, zero.schedule, at, spec.id) == Some(at) by { NoInterval(hash, zero, at); }
    PairIsClaimed(plan, hash, zero, spec, at);
    PairIsClaimed(plan, hash, bad, spec, at);
    PairIsClaimed(plan, hash, spec, bad, at);
  }

  lemma NoInterval(hash: Hash, spec: TaskSpec, now: Time)
    requires spec.schedule.every == 0 && spec.schedule.jitter == 0
    ensures NextTime(hash, spec.schedule, now, spec.id) == Some(now)
  {
  }

  lemma PairIsClaimed(plan: Plan, hash: Hash, a: TaskSpec, b: TaskSpec, now: Time)
    ensures Claim(plan, hash, [a, b], now) ==
      ClaimOne(hash, ClaimOne(hash, Claims(plan, [], false), a, now), b, now)
  {
    hide ClaimOne;
    assert [a, b] == [a] + [b] && [a] == [] + [a];
    ClaimSnoc(plan, hash, [], a, now);
    ClaimSnoc(plan, hash, [a], b, now);
  }
}
